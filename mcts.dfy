/**
 * The bookkeeping of the Monte Carlo tree search player: the search tree,
 * one-child expansion, backpropagation of playout rewards with alternating
 * perspective, the reward of a finished playout and the final choice of the
 * most visited root child.
 *
 * The tree is an arena: node `k` of `nodes` stands for one `MCTSNode`
 * object, its parent and children are indices into the same sequence, and
 * the root is node 0.
 */
module MCTS {
  import opened Wrappers
  import opened GameBoard
  import opened Choice

  /** One tree node: its board, parent, the move that led to it, children and counters. */
  datatype Node = Node(board: Position, parent: Option<nat>, move: Option<Move>, children: seq<nat>, visits: nat, score: real)

  /** A fresh node, as `MCTSNode(board, parent, move)` builds it. */
  function NewNode(board: Position, parent: Option<nat>, move: Option<Move>): (n: Node)
    ensures n.children == [] && n.visits == 0 && n.score == 0.0
  {
    Node(board, parent, move, [], 0, 0.0)
  }

  predicate Distinct<T(==)>(s: seq<T>)
  {
    forall j, k :: 0 <= j < k < |s| ==> s[j] != s[k]
  }

  // ---------------------------------------------------------------------------
  // The shape of a search tree
  // ---------------------------------------------------------------------------

  predicate Boards(nodes: seq<Node>)
  {
    forall k :: 0 <= k < |nodes| ==> WellFormed(nodes[k].board)
  }

  /** Node 0 alone has no parent; every other node's parent was created before it. */
  predicate ParentsBefore(nodes: seq<Node>)
  {
    forall k :: 0 <= k < |nodes| ==>
      (k == 0 <==> nodes[k].parent.None?) && (nodes[k].parent.Some? ==> nodes[k].parent.value < k)
  }

  /** Node `c` was added under node `i` by a legal move of `i`'s board, and holds that board after the move. */
  predicate ChildOf(nodes: seq<Node>, i: nat, c: nat)
    requires Boards(nodes) && i < |nodes|
  {
    && i < c < |nodes|
    && nodes[c].parent == Some(i)
    && nodes[c].move.Some?
    && Allowed(nodes[i].board, nodes[c].move.value)
    && nodes[c].board == Play(nodes[i].board, nodes[c].move.value)
  }

  /** A child link only looks at the parent's board and the child's board, parent and move. */
  lemma ChildOfTransfer(a: seq<Node>, b: seq<Node>, i: nat, c: nat)
    requires Boards(a) && Boards(b) && i < |a| <= |b| && c < |a|
    requires a[i].board == b[i].board
    requires a[c].board == b[c].board && a[c].parent == b[c].parent && a[c].move == b[c].move
    requires ChildOf(a, i, c)
    ensures ChildOf(b, i, c)
  {
  }

  predicate ChildLinks(nodes: seq<Node>)
    requires Boards(nodes)
  {
    forall i, j :: 0 <= i < |nodes| && 0 <= j < |nodes[i].children| ==> ChildOf(nodes, i, nodes[i].children[j])
  }

  /** No two children of a node were reached by the same move. */
  predicate DistinctMoves(nodes: seq<Node>)
    requires Boards(nodes) && ChildLinks(nodes)
  {
    forall i, j, k :: 0 <= i < |nodes| && 0 <= j < k < |nodes[i].children| ==>
      nodes[nodes[i].children[j]].move != nodes[nodes[i].children[k]].move
  }

  /** Every node but the root is listed among its parent's children. */
  predicate Registered(nodes: seq<Node>)
    requires ParentsBefore(nodes)
  {
    forall c :: 0 < c < |nodes| ==> c in nodes[nodes[c].parent.value].children
  }

  /** The invariant of a search tree built by `MCTSNode` and `expand`. */
  predicate TreeOk(nodes: seq<Node>)
  {
    && |nodes| > 0
    && Boards(nodes)
    && ParentsBefore(nodes)
    && ChildLinks(nodes)
    && DistinctMoves(nodes)
    && Registered(nodes)
  }

  /** Scores stay between zero and the number of visits. */
  predicate ScoresBounded(nodes: seq<Node>)
  {
    forall k :: 0 <= k < |nodes| ==> 0.0 <= nodes[k].score <= nodes[k].visits as real
  }

  /** Two arenas that differ at most in their counters. */
  predicate SameShape(a: seq<Node>, b: seq<Node>)
  {
    && |a| == |b|
    && forall k :: 0 <= k < |a| ==>
         a[k].board == b[k].board && a[k].parent == b[k].parent && a[k].move == b[k].move && a[k].children == b[k].children
  }

  /** Changing counters keeps the tree invariant. */
  lemma SameShapeKeepsTree(a: seq<Node>, b: seq<Node>)
    requires TreeOk(a) && SameShape(a, b)
    ensures TreeOk(b)
  {
    assert Boards(b) && ParentsBefore(b);
    forall i, j | 0 <= i < |b| && 0 <= j < |b[i].children|
      ensures ChildOf(b, i, b[i].children[j])
    {
      ChildOfTransfer(a, b, i, a[i].children[j]);
    }
  }

  // ---------------------------------------------------------------------------
  // Children and their moves
  // ---------------------------------------------------------------------------

  predicate InArena(nodes: seq<Node>, kids: seq<nat>)
  {
    forall j :: 0 <= j < |kids| ==> kids[j] < |nodes| && nodes[kids[j]].move.Some?
  }

  /** The moves of the children `kids`, as `expand` collects them into `existing_moves`. */
  function Moves(nodes: seq<Node>, kids: seq<nat>): (ms: seq<Move>)
    requires InArena(nodes, kids)
    ensures |ms| == |kids|
  {
    if kids == [] then []
    else Moves(nodes, kids[..|kids| - 1]) + [nodes[kids[|kids| - 1]].move.value]
  }

  lemma {:induction false} MovesAt(nodes: seq<Node>, kids: seq<nat>, j: nat)
    requires InArena(nodes, kids) && j < |kids|
    ensures Moves(nodes, kids)[j] == nodes[kids[j]].move.value
    decreases |kids|
  {
    if j < |kids| - 1 {
      MovesAt(nodes, kids[..|kids| - 1], j);
    }
  }

  /** In a search tree the moves of a node's children are distinct legal moves of its board. */
  lemma ChildMovesLegal(nodes: seq<Node>, i: nat)
    requires TreeOk(nodes) && i < |nodes|
    ensures InArena(nodes, nodes[i].children)
    ensures Distinct(Moves(nodes, nodes[i].children))
    ensures forall j :: 0 <= j < |nodes[i].children| ==> Moves(nodes, nodes[i].children)[j] in LegalMoves(nodes[i].board)
  {
    var kids := nodes[i].children;
    assert forall j :: 0 <= j < |kids| ==> ChildOf(nodes, i, kids[j]);
    LegalMovesSpec(nodes[i].board);
    forall j | 0 <= j < |kids|
      ensures Moves(nodes, kids)[j] == nodes[kids[j]].move.value
    {
      MovesAt(nodes, kids, j);
    }
  }

  // ---------------------------------------------------------------------------
  // fully_expanded
  // ---------------------------------------------------------------------------

  /** `fully_expanded`: the node has as many children as its board has actions. */
  predicate FullyExpanded(nodes: seq<Node>, i: nat)
    requires Boards(nodes) && i < |nodes|
  {
    |nodes[i].children| == |LegalMoves(nodes[i].board)|
  }

  lemma {:induction false} DistinctCard<T>(s: seq<T>)
    requires Distinct(s)
    ensures |set x | x in s| == |s|
  {
    if s != [] {
      var init := s[..|s| - 1];
      DistinctCard(init);
      assert (set x | x in s) == (set x | x in init) + {s[|s| - 1]};
    }
  }

  /** A repetition-free list drawn from another one is no longer, and as long only if it covers it. */
  lemma Pigeonhole<T>(a: seq<T>, b: seq<T>)
    requires Distinct(a) && Distinct(b)
    requires forall x :: x in a ==> x in b
    ensures |a| <= |b|
    ensures |a| == |b| <==> forall y :: y in b ==> y in a
  {
    var sa, sb := set x | x in a, set y | y in b;
    DistinctCard(a);
    DistinctCard(b);
    assert sb == sa + (sb - sa);
    assert |sb| == |sa| + |sb - sa|;
    if forall y :: y in b ==> y in a {
      assert sb - sa == {};
    }
    if |a| == |b| {
      assert |sb - sa| == 0;
      forall y | y in b
        ensures y in a
      {
        assert y in sb;
      }
    }
  }

  /**
   * A node never has more children than actions, and it is fully expanded
   * exactly when every action already has a child.
   */
  lemma FullyExpandedSpec(nodes: seq<Node>, i: nat)
    requires TreeOk(nodes) && i < |nodes|
    ensures InArena(nodes, nodes[i].children)
    ensures |nodes[i].children| <= |LegalMoves(nodes[i].board)|
    ensures FullyExpanded(nodes, i) <==> forall a :: a in LegalMoves(nodes[i].board) ==> a in Moves(nodes, nodes[i].children)
  {
    var actions := LegalMoves(nodes[i].board);
    ChildMovesLegal(nodes, i);
    LegalMovesSpec(nodes[i].board);
    assert Distinct(actions) by {
      forall j, k | 0 <= j < k < |actions|
        ensures actions[j] != actions[k]
      {
        assert Before(actions[j], actions[k]);
      }
    }
    Pigeonhole(Moves(nodes, nodes[i].children), actions);
  }

  // ---------------------------------------------------------------------------
  // expand
  // ---------------------------------------------------------------------------

  /** The first entry of `actions` that is not in `existing`. */
  function FirstNotIn(actions: seq<Move>, existing: seq<Move>): (r: Option<Move>)
    ensures r.Some? ==> r.value in actions && r.value !in existing
  {
    if actions == [] then None
    else if actions[0] !in existing then Some(actions[0])
    else FirstNotIn(actions[1..], existing)
  }

  lemma {:induction false} FirstNotInSpec(actions: seq<Move>, existing: seq<Move>)
    ensures FirstNotIn(actions, existing).None? <==> forall a :: a in actions ==> a in existing
    ensures FirstNotIn(actions, existing).Some? ==>
              exists k :: 0 <= k < |actions| && actions[k] == FirstNotIn(actions, existing).value &&
                forall j :: 0 <= j < k ==> actions[j] in existing
  {
    if actions != [] && actions[0] in existing {
      var rest := actions[1..];
      FirstNotInSpec(rest, existing);
      assert forall a :: a in actions ==> a == actions[0] || a in rest;
      if FirstNotIn(rest, existing).Some? {
        var k :| 0 <= k < |rest| && rest[k] == FirstNotIn(rest, existing).value &&
          forall j :: 0 <= j < k ==> rest[j] in existing;
        assert actions[k + 1] == rest[k];
        assert forall j :: 1 <= j < k + 1 ==> actions[j] == rest[j - 1];
      }
    }
  }

  /** The move `expand` adds a child for, if any: none on a finished board. */
  function Untried(nodes: seq<Node>, i: nat): (r: Option<Move>)
    requires TreeOk(nodes) && i < |nodes|
    ensures r.Some? ==> ValidMove(r.value) && r.value in LegalMoves(nodes[i].board)
  {
    ChildMovesLegal(nodes, i);
    LegalMovesSpec(nodes[i].board);
    if IsTerminal(nodes[i].board) then None
    else FirstNotIn(LegalMoves(nodes[i].board), Moves(nodes, nodes[i].children))
  }

  /**
   * `expand` adds nothing exactly when the board is finished or the node is
   * fully expanded; otherwise it picks the first action without a child.
   */
  lemma UntriedSpec(nodes: seq<Node>, i: nat)
    requires TreeOk(nodes) && i < |nodes|
    ensures Untried(nodes, i).None? <==> IsTerminal(nodes[i].board) || FullyExpanded(nodes, i)
    ensures Untried(nodes, i).Some? ==>
              var m := Untried(nodes, i).value;
              var actions := LegalMoves(nodes[i].board);
              && m !in Moves(nodes, nodes[i].children)
              && exists k :: 0 <= k < |actions| && actions[k] == m &&
                   forall j :: 0 <= j < k ==> actions[j] in Moves(nodes, nodes[i].children)
  {
    FullyExpandedSpec(nodes, i);
    FirstNotInSpec(LegalMoves(nodes[i].board), Moves(nodes, nodes[i].children));
  }

  /** The arena after `add_child`: node `i` gains the new last node as its last child. */
  function Grow(nodes: seq<Node>, i: nat, childBoard: Position, m: Move): (ns: seq<Node>)
    requires i < |nodes|
    ensures |ns| == |nodes| + 1
  {
    nodes[i := nodes[i].(children := nodes[i].children + [|nodes|])] + [NewNode(childBoard, Some(i), Some(m))]
  }

  /** Growing keeps every old node's board, parent and move, and gives the new node its parent and move. */
  lemma GrowFields(nodes: seq<Node>, i: nat, child: Position, m: Move)
    requires i < |nodes|
    ensures var ns := Grow(nodes, i, child, m);
            && (forall k :: 0 <= k < |nodes| && k != i ==> ns[k] == nodes[k])
            && ns[i].children == nodes[i].children + [|nodes|]
            && (forall k :: 0 <= k < |nodes| ==>
                 ns[k].board == nodes[k].board && ns[k].parent == nodes[k].parent && ns[k].move == nodes[k].move)
            && ns[|nodes|] == NewNode(child, Some(i), Some(m))
  {
  }

  lemma GrowBoards(nodes: seq<Node>, i: nat, cb: Position, m: Move)
    requires Boards(nodes) && ParentsBefore(nodes) && i < |nodes| && WellFormed(cb)
    ensures Boards(Grow(nodes, i, cb, m)) && ParentsBefore(Grow(nodes, i, cb, m))
  {
    GrowFields(nodes, i, cb, m);
  }

  /** A link of the arena before growing is still a link after. */
  lemma GrowOldLink(nodes: seq<Node>, i: nat, m: Move, p: nat, j: nat)
    requires TreeOk(nodes) && i < |nodes| && ValidMove(m)
    requires Boards(Grow(nodes, i, Play(nodes[i].board, m), m))
    requires p < |nodes| && j < |nodes[p].children|
    ensures var ns := Grow(nodes, i, Play(nodes[i].board, m), m);
            j < |ns[p].children| && ChildOf(ns, p, ns[p].children[j])
  {
    var ns := Grow(nodes, i, Play(nodes[i].board, m), m);
    GrowFields(nodes, i, Play(nodes[i].board, m), m);
    var c := nodes[p].children[j];
    assert ns[p].children[j] == c;
    assert ChildOf(nodes, p, c);
    ChildOfTransfer(nodes, ns, p, c);
  }

  lemma GrowLinks(nodes: seq<Node>, i: nat, m: Move)
    requires TreeOk(nodes) && i < |nodes|
    requires Allowed(nodes[i].board, m)
    ensures var ns := Grow(nodes, i, Play(nodes[i].board, m), m);
            Boards(ns) && ParentsBefore(ns) && ChildLinks(ns)
  {
    var ns := Grow(nodes, i, Play(nodes[i].board, m), m);
    GrowBoards(nodes, i, Play(nodes[i].board, m), m);
    GrowFields(nodes, i, Play(nodes[i].board, m), m);
    assert ChildOf(ns, i, |nodes|);
    forall p, j | 0 <= p < |ns| && 0 <= j < |ns[p].children|
      ensures ChildOf(ns, p, ns[p].children[j])
    {
      if p != i || j < |nodes[i].children| {
        GrowOldLink(nodes, i, m, p, j);
      }
    }
  }

  /** Two children of one node still differ in their moves after growing. */
  lemma GrowPairDistinct(nodes: seq<Node>, i: nat, m: Move, p: nat, j: nat, k: nat)
    requires TreeOk(nodes) && i < |nodes| && ValidMove(m)
    requires InArena(nodes, nodes[i].children) && m !in Moves(nodes, nodes[i].children)
    requires p < |nodes| && j < k <= |nodes[p].children| && (k == |nodes[p].children| ==> p == i)
    ensures var ns := Grow(nodes, i, Play(nodes[i].board, m), m);
            k < |ns[p].children| && ns[ns[p].children[j]].move != ns[ns[p].children[k]].move
  {
    var ns := Grow(nodes, i, Play(nodes[i].board, m), m);
    GrowFields(nodes, i, Play(nodes[i].board, m), m);
    var kids := nodes[p].children;
    assert ChildOf(nodes, p, kids[j]);
    if k == |kids| {
      MovesAt(nodes, kids, j);
    } else {
      assert ChildOf(nodes, p, kids[k]);
    }
  }

  lemma GrowDistinct(nodes: seq<Node>, i: nat, m: Move)
    requires TreeOk(nodes) && i < |nodes|
    requires Allowed(nodes[i].board, m)
    requires InArena(nodes, nodes[i].children) && m !in Moves(nodes, nodes[i].children)
    ensures var ns := Grow(nodes, i, Play(nodes[i].board, m), m);
            Boards(ns) && ChildLinks(ns) && DistinctMoves(ns)
  {
    var ns := Grow(nodes, i, Play(nodes[i].board, m), m);
    GrowLinks(nodes, i, m);
    GrowFields(nodes, i, Play(nodes[i].board, m), m);
    forall p, j, k | 0 <= p < |ns| && 0 <= j < k < |ns[p].children|
      ensures ns[ns[p].children[j]].move != ns[ns[p].children[k]].move
    {
      GrowPairDistinct(nodes, i, m, p, j, k);
    }
  }

  lemma GrowRegistered(nodes: seq<Node>, i: nat, cb: Position, m: Move)
    requires ParentsBefore(nodes) && Registered(nodes) && i < |nodes|
    ensures ParentsBefore(Grow(nodes, i, cb, m)) && Registered(Grow(nodes, i, cb, m))
  {
    var ns := Grow(nodes, i, cb, m);
    GrowFields(nodes, i, cb, m);
    forall c | 0 < c < |ns|
      ensures c in ns[ns[c].parent.value].children
    {
      if c < |nodes| {
        var p := nodes[c].parent.value;
        assert c in nodes[p].children;
        assert ns[p].children == nodes[p].children || ns[p].children == nodes[p].children + [|nodes|];
      } else {
        assert ns[i].children[|nodes[i].children|] == c;
      }
    }
  }

  /** Adding a child for a legal move without a child yet, holding the board after it, keeps the tree invariant. */
  lemma GrowKeepsTree(nodes: seq<Node>, i: nat, m: Move)
    requires TreeOk(nodes) && i < |nodes|
    requires m in LegalMoves(nodes[i].board)
    requires InArena(nodes, nodes[i].children) && m !in Moves(nodes, nodes[i].children)
    ensures ValidMove(m)
    ensures TreeOk(Grow(nodes, i, Play(nodes[i].board, m), m))
  {
    LegalMovesSpec(nodes[i].board);
    GrowDistinct(nodes, i, m);
    GrowRegistered(nodes, i, Play(nodes[i].board, m), m);
  }

  /** A new child starts with no visits and score 0, so growing keeps every score within its visit count. */
  lemma GrowKeepsScores(nodes: seq<Node>, i: nat, childBoard: Position, m: Move)
    requires ScoresBounded(nodes) && i < |nodes|
    ensures ScoresBounded(Grow(nodes, i, childBoard, m))
  {
  }

  // ---------------------------------------------------------------------------
  // update and backpropagate
  // ---------------------------------------------------------------------------

  /** `update`: one more visit and the reward added to the score. */
  function Updated(n: Node, result: real): (u: Node)
    ensures u.visits == n.visits + 1 && u.score == n.score + result
    ensures u.board == n.board && u.parent == n.parent && u.move == n.move && u.children == n.children
  {
    n.(visits := n.visits + 1, score := n.score + result)
  }

  /** The reward seen `d` steps up the parent chain from the node that received `r`. */
  function Alternate(r: real, d: nat): real
  {
    if d == 0 then r else 1.0 - Alternate(r, d - 1)
  }

  /** Even steps up see `r`, odd steps see `1 - r`. */
  lemma {:induction false} AlternateParity(r: real, d: nat)
    ensures Alternate(r, d) == if d % 2 == 0 then r else 1.0 - r
  {
    if d > 0 {
      AlternateParity(r, d - 1);
    }
  }

  /** Flipping the reward once more is one step further up. */
  lemma {:induction false} AlternateFlip(r: real, d: nat)
    ensures Alternate(1.0 - r, d) == Alternate(r, d + 1)
  {
    if d > 0 {
      AlternateFlip(r, d - 1);
    }
  }

  /** The nodes `backpropagate` visits from `cur` upward: `cur`, its parent, ..., the root. */
  function Chain(nodes: seq<Node>, cur: Option<nat>): seq<nat>
    requires ParentsBefore(nodes) && (cur.Some? ==> cur.value < |nodes|)
    decreases if cur.Some? then cur.value + 1 else 0
  {
    match cur
    case None => []
    case Some(j) => [j] + Chain(nodes, nodes[j].parent)
  }

  /**
   * The chain from `cur` starts at `cur`, strictly descends through indices
   * of the arena and ends at the root; it is empty only from no node.
   */
  lemma {:induction false} ChainSpec(nodes: seq<Node>, cur: Option<nat>)
    requires ParentsBefore(nodes) && (cur.Some? ==> cur.value < |nodes|)
    ensures var c := Chain(nodes, cur);
            && (cur.None? <==> c == [])
            && (cur.Some? ==> c[0] == cur.value && c[|c| - 1] == 0)
            && (forall d :: 0 <= d < |c| ==> c[d] <= c[0] < |nodes|)
            && (forall a, b :: 0 <= a < b < |c| ==> c[a] > c[b])
    decreases if cur.Some? then cur.value + 1 else 0
  {
    if cur.Some? {
      var j := cur.value;
      var up := nodes[j].parent;
      ChainSpec(nodes, up);
      var c, rest := Chain(nodes, cur), Chain(nodes, up);
      assert c == [j] + rest;
      assert forall d :: 1 <= d < |c| ==> c[d] == rest[d - 1];
    }
  }

  /** The arena after `backpropagate` from `cur` with reward `r`. */
  function Backprop(nodes: seq<Node>, cur: Option<nat>, r: real): (ns: seq<Node>)
    requires ParentsBefore(nodes) && (cur.Some? ==> cur.value < |nodes|)
    ensures |ns| == |nodes|
    decreases if cur.Some? then cur.value + 1 else 0
  {
    match cur
    case None => nodes
    case Some(j) =>
      var u := nodes[j := Updated(nodes[j], r)];
      assert SameShape(nodes, u);
      Backprop(u, nodes[j].parent, 1.0 - r)
  }

  /** Backpropagation changes counters only. */
  lemma {:induction false} BackpropShape(nodes: seq<Node>, cur: Option<nat>, r: real)
    requires ParentsBefore(nodes) && (cur.Some? ==> cur.value < |nodes|)
    ensures SameShape(nodes, Backprop(nodes, cur, r))
    decreases if cur.Some? then cur.value + 1 else 0
  {
    if cur.Some? {
      var j := cur.value;
      var u := nodes[j := Updated(nodes[j], r)];
      assert SameShape(nodes, u);
      BackpropShape(u, nodes[j].parent, 1.0 - r);
    }
  }

  lemma {:induction false} ChainSameShape(a: seq<Node>, b: seq<Node>, cur: Option<nat>)
    requires ParentsBefore(a) && SameShape(a, b) && (cur.Some? ==> cur.value < |a|)
    ensures ParentsBefore(b) && Chain(a, cur) == Chain(b, cur)
    decreases if cur.Some? then cur.value + 1 else 0
  {
    if cur.Some? {
      ChainSameShape(a, b, a[cur.value].parent);
    }
  }

  /**
   * `backpropagate` updates each node of the parent chain once, the `d`-th
   * with the reward flipped `d` times.
   */
  lemma {:induction false} BackpropEffect(nodes: seq<Node>, cur: Option<nat>, r: real)
    requires ParentsBefore(nodes) && (cur.Some? ==> cur.value < |nodes|)
    ensures var c := Chain(nodes, cur);
            forall d :: 0 <= d < |c| ==>
              c[d] < |nodes| && Backprop(nodes, cur, r)[c[d]] == Updated(nodes[c[d]], Alternate(r, d))
    decreases if cur.Some? then cur.value + 1 else 0
  {
    if cur.Some? {
      var j := cur.value;
      var u := nodes[j := Updated(nodes[j], r)];
      var up := nodes[j].parent;
      assert SameShape(nodes, u);
      ChainSameShape(nodes, u, up);
      ChainSpec(nodes, up);
      var c, rest := Chain(nodes, cur), Chain(nodes, up);
      var ns := Backprop(nodes, cur, r);
      assert ns == Backprop(u, up, 1.0 - r);
      assert c == [j] + rest;
      forall d | 0 <= d < |c|
        ensures c[d] < |nodes| && ns[c[d]] == Updated(nodes[c[d]], Alternate(r, d))
      {
        if d > 0 {
          BackpropEffect(u, up, 1.0 - r);
          assert c[d] == rest[d - 1] < j;
          AlternateFlip(r, d - 1);
        } else {
          BackpropElsewhere(u, up, 1.0 - r);
          assert forall e :: 0 <= e < |rest| ==> rest[e] != j;
        }
      }
    }
  }

  /** `backpropagate` leaves every node off the parent chain as it was. */
  lemma {:induction false} BackpropElsewhere(nodes: seq<Node>, cur: Option<nat>, r: real)
    requires ParentsBefore(nodes) && (cur.Some? ==> cur.value < |nodes|)
    ensures forall k :: 0 <= k < |nodes| && k !in Chain(nodes, cur) ==> Backprop(nodes, cur, r)[k] == nodes[k]
    decreases if cur.Some? then cur.value + 1 else 0
  {
    if cur.Some? {
      var j := cur.value;
      var u := nodes[j := Updated(nodes[j], r)];
      var up := nodes[j].parent;
      assert SameShape(nodes, u);
      ChainSameShape(nodes, u, up);
      BackpropElsewhere(u, up, 1.0 - r);
      assert Chain(nodes, cur) == [j] + Chain(nodes, up);
    }
  }

  /** Rewards between 0 and 1 keep every score between 0 and the visit count. */
  lemma {:induction false} BackpropKeepsScores(nodes: seq<Node>, cur: Option<nat>, r: real)
    requires ParentsBefore(nodes) && (cur.Some? ==> cur.value < |nodes|)
    requires ScoresBounded(nodes) && 0.0 <= r <= 1.0
    ensures ScoresBounded(Backprop(nodes, cur, r))
    decreases if cur.Some? then cur.value + 1 else 0
  {
    if cur.Some? {
      var j := cur.value;
      var u := nodes[j := Updated(nodes[j], r)];
      assert SameShape(nodes, u);
      assert ScoresBounded(u);
      BackpropKeepsScores(u, nodes[j].parent, 1.0 - r);
    }
  }

  /** Backpropagation keeps the tree invariant. */
  lemma BackpropKeepsTree(nodes: seq<Node>, i: nat, r: real)
    requires TreeOk(nodes) && i < |nodes|
    ensures TreeOk(Backprop(nodes, Some(i), r))
  {
    BackpropShape(nodes, Some(i), r);
    SameShapeKeepsTree(nodes, Backprop(nodes, Some(i), r));
  }

  /** In a search tree every backpropagation reaches the root and counts one more visit there. */
  lemma BackpropVisitsRoot(nodes: seq<Node>, i: nat, r: real)
    requires TreeOk(nodes) && i < |nodes|
    ensures Backprop(nodes, Some(i), r)[0].visits == nodes[0].visits + 1
  {
    ChainSpec(nodes, Some(i));
    BackpropEffect(nodes, Some(i), r);
    var c := Chain(nodes, Some(i));
    assert c[|c| - 1] == 0;
  }

  // ---------------------------------------------------------------------------
  // The playout reward and the final decision
  // ---------------------------------------------------------------------------

  /**
   * The reward at the end of a playout on board `b`, for the player who made
   * the last move: a half for a draw, one when the player not to move has
   * won, zero otherwise.
   */
  function Reward(b: Position): real
    requires WellFormed(b)
  {
    var result := OverallResult(b.overall);
    if result == Draw then 0.5
    else if (b.player == O && result == XWin) || (b.player == X && result == OWin) then 1.0
    else 0.0
  }

  /** The reward is 0, a half or 1, and the two players' rewards of a finished game add up to 1. */
  lemma RewardSpec(b: Position)
    requires WellFormed(b)
    ensures Reward(b) == 0.0 || Reward(b) == 0.5 || Reward(b) == 1.0
    ensures Reward(b) == 0.5 <==> OverallResult(b.overall) == Draw
    ensures Reward(b) == 1.0 <==> OverallResult(b.overall) == (if b.player == O then XWin else if b.player == X then OWin else Draw) != Draw
    ensures IsTerminal(b) && b.player != Empty ==> Reward(b) + Reward(b.(player := Opponent(b.player))) == 1.0
  {
  }

  /** The visit counts of the children `kids`. */
  function VisitList(nodes: seq<Node>, kids: seq<nat>): (vs: seq<int>)
    requires InArena(nodes, kids)
    ensures |vs| == |kids|
  {
    if kids == [] then []
    else VisitList(nodes, kids[..|kids| - 1]) + [nodes[kids[|kids| - 1]].visits]
  }

  lemma {:induction false} VisitListAt(nodes: seq<Node>, kids: seq<nat>, j: nat)
    requires InArena(nodes, kids) && j < |kids|
    ensures VisitList(nodes, kids)[j] == nodes[kids[j]].visits
    decreases |kids|
  {
    if j < |kids| - 1 {
      VisitListAt(nodes, kids[..|kids| - 1], j);
    }
  }

  /** The move of the first root child with the most visits; none when the root has no children. */
  function Decision(nodes: seq<Node>): Option<Move>
    requires |nodes| > 0 && InArena(nodes, nodes[0].children)
  {
    var kids := nodes[0].children;
    if kids == [] then None
    else nodes[kids[ArgBest(VisitList(nodes, kids), true)]].move
  }

  /**
   * The decision is the move of a root child whose visit count no other child
   * exceeds and that every earlier child falls short of; there is none only
   * when the root has no children.
   */
  lemma DecisionSpec(nodes: seq<Node>)
    requires |nodes| > 0 && InArena(nodes, nodes[0].children)
    ensures var kids := nodes[0].children;
            && (Decision(nodes).None? <==> kids == [])
            && (Decision(nodes).Some? ==>
                 exists k :: 0 <= k < |kids| && Decision(nodes) == nodes[kids[k]].move &&
                   (forall j :: 0 <= j < |kids| ==> nodes[kids[j]].visits <= nodes[kids[k]].visits) &&
                   (forall j :: 0 <= j < k ==> nodes[kids[j]].visits < nodes[kids[k]].visits))
  {
    var kids := nodes[0].children;
    if kids != [] {
      var vs := VisitList(nodes, kids);
      ArgBestSpec(vs, true);
      forall j | 0 <= j < |kids|
        ensures vs[j] == nodes[kids[j]].visits
      {
        VisitListAt(nodes, kids, j);
      }
    }
  }

  /** In a search tree the decision is a legal move of the root board. */
  lemma DecisionLegal(nodes: seq<Node>)
    requires TreeOk(nodes)
    ensures InArena(nodes, nodes[0].children)
    ensures Decision(nodes).Some? ==> Decision(nodes).value in LegalMoves(nodes[0].board)
  {
    var kids := nodes[0].children;
    ChildMovesLegal(nodes, 0);
    if kids != [] {
      var k := ArgBest(VisitList(nodes, kids), true);
      MovesAt(nodes, kids, k);
    }
  }

  // ---------------------------------------------------------------------------
  // The mutable tree
  // ---------------------------------------------------------------------------

  /** The nodes of one search, root first; `expand` and `backpropagate` change them in place. */
  class SearchTree {
    var nodes: seq<Node>

    predicate Valid()
      reads this
    {
      TreeOk(nodes)
    }

    /** `MCTSNode(board)`: a root with no parent, no move, no children and zero counters. */
    constructor (board: Position)
      requires WellFormed(board)
      ensures Valid() && nodes == [NewNode(board, None, None)]
    {
      nodes := [NewNode(board, None, None)];
    }

    /** `add_child`: appends a node for `childBoard` reached by `move` and lists it under node `i`. */
    method AddChild(i: nat, childBoard: Position, move: Move) returns (child: nat)
      requires i < |nodes|
      modifies this
      ensures child == old(|nodes|)
      ensures nodes == Grow(old(nodes), i, childBoard, move)
    {
      child := |nodes|;
      nodes := nodes[i := nodes[i].(children := nodes[i].children + [child])] + [NewNode(childBoard, Some(i), Some(move))];
    }

    /** `update`: one more visit of node `i` and `result` added to its score. */
    method Update(i: nat, result: real)
      requires i < |nodes|
      modifies this
      ensures nodes == old(nodes)[i := Updated(old(nodes)[i], result)]
    {
      var n := nodes[i];
      nodes := nodes[i := n.(visits := n.visits + 1, score := n.score + result)];
    }

    /** The moves of node `i`'s children, in the order they were added. */
    method ExistingMoves(i: nat) returns (existing: seq<Move>)
      requires i < |nodes| && InArena(nodes, nodes[i].children)
      ensures existing == Moves(nodes, nodes[i].children)
    {
      var kids := nodes[i].children;
      existing := [];
      for j := 0 to |kids|
        invariant existing == Moves(nodes, kids[..j])
      {
        assert kids[..j + 1][..j] == kids[..j];
        existing := existing + [nodes[kids[j]].move.value];
      }
      assert kids[..|kids|] == kids;
    }

    /**
     * `expand`: on a board still in play, adds a child for the first action
     * without one and returns it; otherwise returns node `i` and adds nothing.
     */
    method Expand(i: nat) returns (node: nat)
      requires Valid() && i < |nodes|
      modifies this
      ensures Valid() && node < |nodes|
      ensures Untried(old(nodes), i).None? ==> node == i && nodes == old(nodes)
      ensures Untried(old(nodes), i).Some? ==>
                var m := Untried(old(nodes), i).value;
                node == |old(nodes)| && nodes == Grow(old(nodes), i, Play(old(nodes)[i].board, m), m)
      ensures ScoresBounded(old(nodes)) ==> ScoresBounded(nodes)
    {
      var board := nodes[i].board;
      if IsTerminal(board) {
        return i;
      }
      ChildMovesLegal(nodes, i);
      var existing := ExistingMoves(i);
      var actions := LegalMoves(board);
      for k := 0 to |actions|
        invariant FirstNotIn(actions[k..], existing) == FirstNotIn(actions, existing)
      {
        var action := actions[k];
        if action !in existing {
          GrowKeepsTree(nodes, i, action);
          if ScoresBounded(nodes) {
            GrowKeepsScores(nodes, i, Play(board, action), action);
          }
          var newBoard := Play(board, action);
          node := AddChild(i, newBoard, action);
          return;
        }
        assert actions[k..][1..] == actions[k + 1..];
      }
      return i;
    }

    /**
     * `backpropagate`: walks from node `i` to the root, updating each node on
     * the way and flipping the reward after each step.
     */
    method Backpropagate(i: nat, result: real)
      requires ParentsBefore(nodes) && i < |nodes|
      modifies this
      ensures nodes == Backprop(old(nodes), Some(i), result)
    {
      var cur: Option<nat> := Some(i);
      var r := result;
      while cur.Some?
        invariant ParentsBefore(nodes) && (cur.Some? ==> cur.value < |nodes|)
        invariant Backprop(nodes, cur, r) == Backprop(old(nodes), Some(i), result)
        decreases if cur.Some? then cur.value + 1 else 0
      {
        var j := cur.value;
        ghost var before := nodes;
        Update(j, r);
        assert SameShape(before, nodes);
        cur := nodes[j].parent;
        r := 1.0 - r;
      }
    }
  }
}
