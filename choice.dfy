/**
 * Picking the first best entry of a list of scores: the rule of both search
 * players' final choice, where a later entry replaces the kept one only when
 * it is strictly better, so ties keep the earliest.
 */
module Choice {

  /** `a` is strictly better than `b`: greater when maximizing, smaller otherwise. */
  predicate Better(a: int, b: int, maximizing: bool)
  {
    if maximizing then a > b else a < b
  }

  /**
   * The index a root decision keeps: a later value replaces the kept one only
   * when it is strictly better, so ties keep the earliest.
   */
  function ArgBest(vs: seq<int>, maximizing: bool): (k: nat)
    requires vs != []
    ensures k < |vs|
  {
    if |vs| == 1 then 0
    else
      var k := ArgBest(vs[..|vs| - 1], maximizing);
      if Better(vs[|vs| - 1], vs[k], maximizing) then |vs| - 1 else k
  }

  /** `k` holds the greatest (least) value of `vs`, and no earlier index does. */
  predicate FirstBest(vs: seq<int>, maximizing: bool, k: nat)
  {
    && k < |vs|
    && (forall j :: 0 <= j < |vs| ==> !Better(vs[j], vs[k], maximizing))
    && (forall j :: 0 <= j < k ==> Better(vs[k], vs[j], maximizing))
  }

  /** `ArgBest` is the first index holding the greatest (least) element. */
  lemma {:induction false} ArgBestSpec(vs: seq<int>, maximizing: bool)
    requires vs != []
    ensures FirstBest(vs, maximizing, ArgBest(vs, maximizing))
  {
    if |vs| > 1 {
      var init := vs[..|vs| - 1];
      ArgBestSpec(init, maximizing);
      assert forall k :: 0 <= k < |init| ==> init[k] == vs[k];
    }
  }

  /** One more element: the kept index moves to it exactly when it is strictly better. */
  lemma ArgBestSnoc(vs: seq<int>, maximizing: bool, i: nat)
    requires 0 < i < |vs|
    ensures ArgBest(vs[..i + 1], maximizing) ==
              if Better(vs[i], vs[ArgBest(vs[..i], maximizing)], maximizing) then i else ArgBest(vs[..i], maximizing)
  {
    assert vs[..i + 1][..i] == vs[..i];
    assert vs[..i + 1][ArgBest(vs[..i], maximizing)] == vs[ArgBest(vs[..i], maximizing)];
  }
}
