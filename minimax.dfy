/**
 * The minimax player: depth-limited search with alpha-beta pruning over the
 * one shared board, which every step changes with `MakeMove` and restores with
 * `UndoMove`.
 *
 * `Minimax` is the plain (unpruned) search over board values; the methods of
 * `MiniMaxPlayer` are proved to agree with it. The source's `math.inf` is the
 * sentinel `Infinity`, which exceeds every evaluation.
 */
module MiniMax {
  import opened Wrappers
  import opened GameBoard
  import opened Evaluation
  import opened Choice

  /** Stands for `math.inf`: larger in magnitude than any evaluation. */
  const Infinity: int := 100000

  function Max(a: int, b: int): int
  {
    if a >= b then a else b
  }

  function Min(a: int, b: int): int
  {
    if a <= b then a else b
  }

  /**
   * The plain depth-limited minimax value of `p`: the evaluation at a finished
   * game or at depth 0, otherwise the best child value for the side to move.
   * A negative depth never reaches 0, so the search then ends only at finished
   * games; the number of empty cells bounds it.
   */
  function Minimax(ev: Evaluator, p: Position, depth: int, maximizing: bool): int
    requires Searchable(p)
    decreases EmptyCount(p.boards), 2, 0
  {
    if IsTerminal(p) || depth == 0 then ev.Evaluate(p)
    else Best(ChildValues(ev, p, depth, maximizing, |LegalMoves(p)|), maximizing)
  }

  /** The values of the first `n` legal moves, in `actions()` order. */
  function ChildValues(ev: Evaluator, p: Position, depth: int, maximizing: bool, n: nat): (vs: seq<int>)
    requires Searchable(p) && n <= |LegalMoves(p)|
    ensures |vs| == n
    decreases EmptyCount(p.boards), 1, n
  {
    if n == 0 then [] else ChildValues(ev, p, depth, maximizing, n - 1) + [ChildValue(ev, p, depth, maximizing, n - 1)]
  }

  /** The value of the `k`-th legal move: the opponent's minimax value one ply deeper. */
  function ChildValue(ev: Evaluator, p: Position, depth: int, maximizing: bool, k: nat): int
    requires Searchable(p) && k < |LegalMoves(p)|
    decreases EmptyCount(p.boards), 0, 0
  {
    LegalPlay(p, LegalMoves(p)[k]);
    Minimax(ev, Play(p, LegalMoves(p)[k]), depth - 1, !maximizing)
  }

  /**
   * The running `max` (or `min`) of the search loops, started from -inf (or
   * +inf) and folded over `vs` in order.
   */
  function Best(vs: seq<int>, maximizing: bool): int
  {
    if vs == [] then (if maximizing then -Infinity else Infinity)
    else if maximizing then Max(vs[|vs| - 1], Best(vs[..|vs| - 1], maximizing))
    else Min(vs[|vs| - 1], Best(vs[..|vs| - 1], maximizing))
  }

  /**
   * `v` is what a fail-soft alpha-beta search may return for a node of value
   * `m` searched with the window (alpha, beta): an upper bound at or below
   * alpha, a lower bound at or above beta, and the exact value in between.
   */
  predicate FailSoft(v: int, alpha: int, beta: int, m: int)
  {
    && (v <= alpha ==> m <= v)
    && (v >= beta ==> m >= v)
    && (alpha < v < beta ==> m == v)
  }

  /** The search stops here: the game is over or the depth is used up. */
  predicate AtLeaf(p: Position, depth: int)
    requires WellFormed(p)
  {
    IsTerminal(p) || depth == 0
  }

  /** Everything but `next` is as it was. */
  predicate SameButNext(p: Position, q: Position)
  {
    p.boards == q.boards && p.overall == q.overall && p.player == q.player
  }

  /** What a root decision returns: no move iff there is none, else the first best one. */
  ghost predicate RootChoice(ev: Evaluator, p: Position, depth: int, maximizing: bool, r: Option<Move>)
    requires Searchable(p)
  {
    && (r.None? <==> LegalMoves(p) == [])
    && (r.Some? ==> exists k :: 0 <= k < |LegalMoves(p)| && r.value == LegalMoves(p)[k] &&
                               FirstBest(ChildValues(ev, p, depth, maximizing, |LegalMoves(p)|), maximizing, k))
  }

  // ---------------------------------------------------------------------------
  // Facts about the plain search
  // ---------------------------------------------------------------------------

  /** `Best` is the greatest (least) element, or the sentinel when there is none. */
  lemma {:induction false} BestSpec(vs: seq<int>, maximizing: bool)
    ensures vs == [] ==> Best(vs, maximizing) == (if maximizing then -Infinity else Infinity)
    ensures forall k :: 0 <= k < |vs| ==> !Better(vs[k], Best(vs, maximizing), maximizing)
    ensures vs != [] && (forall k :: 0 <= k < |vs| ==> -Infinity <= vs[k] <= Infinity) ==>
              Best(vs, maximizing) == vs[ArgBest(vs, maximizing)]
  {
    if vs != [] {
      var init := vs[..|vs| - 1];
      BestSpec(init, maximizing);
      assert forall k :: 0 <= k < |init| ==> init[k] == vs[k];
    }
  }

  /** Under the cache invariant every minimax value is an evaluation's magnitude at most. */
  lemma {:induction false} MinimaxBounded(ev: Evaluator, p: Position, depth: int, maximizing: bool)
    requires Searchable(p)
    ensures -ev.Bound() <= Minimax(ev, p, depth, maximizing) <= ev.Bound()
    decreases EmptyCount(p.boards), 1
  {
    if IsTerminal(p) || depth == 0 {
      EvaluateBounded(ev, p);
    } else {
      NonTerminalHasMoves(p);
      var vs := ChildValues(ev, p, depth, maximizing, |LegalMoves(p)|);
      forall k | 0 <= k < |vs|
        ensures -ev.Bound() <= vs[k] <= ev.Bound()
      {
        ChildValueAt(ev, p, depth, maximizing, k);
      }
      BestSpec(vs, maximizing);
    }
  }

  /** Entry `i` of `ChildValues` is the value of the `i`-th legal move. */
  lemma {:induction false} ChildValuesAt(ev: Evaluator, p: Position, depth: int, maximizing: bool, n: nat, i: nat)
    requires Searchable(p) && i < n <= |LegalMoves(p)|
    ensures ChildValues(ev, p, depth, maximizing, n)[i] == ChildValue(ev, p, depth, maximizing, i)
    decreases n
  {
    if i < n - 1 {
      ChildValuesAt(ev, p, depth, maximizing, n - 1, i);
    }
  }

  /** Entry `i` of all the child values is the `i`-th child value, and it is bounded. */
  lemma ChildValueAt(ev: Evaluator, p: Position, depth: int, maximizing: bool, i: nat)
    requires Searchable(p) && i < |LegalMoves(p)|
    ensures ChildValues(ev, p, depth, maximizing, |LegalMoves(p)|)[i] == ChildValue(ev, p, depth, maximizing, i)
    ensures -ev.Bound() <= ChildValue(ev, p, depth, maximizing, i) <= ev.Bound()
    decreases EmptyCount(p.boards), 0
  {
    LegalPlay(p, LegalMoves(p)[i]);
    ChildValuesAt(ev, p, depth, maximizing, |LegalMoves(p)|, i);
    MinimaxBounded(ev, Play(p, LegalMoves(p)[i]), depth - 1, !maximizing);
  }

  /** One more element folds in with `max` (or `min`), as each loop round does. */
  lemma BestSnoc(vs: seq<int>, maximizing: bool, i: nat)
    requires i < |vs|
    ensures Best(vs[..i + 1], maximizing) ==
              if maximizing then Max(vs[i], Best(vs[..i], maximizing)) else Min(vs[i], Best(vs[..i], maximizing))
  {
    assert vs[..i + 1][..i] == vs[..i];
  }

  /** Undoing a searched move restores the board, except that `next` names the move's sub-board. */
  lemma UndoAfterSearch(p: Position, m: Move, q: Position)
    requires Searchable(p) && m in LegalMoves(p) && ValidMove(m)
    requires WellFormed(q) && SameButNext(q, Play(p, m))
    ensures Unplay(q, m) == p.(next := Some(m.sub))
  {
    LegalPlay(p, m);
    UnplayAfterPlay(p, m);
    assert q == Play(p, m).(next := q.next);
  }

  /** Under the cache invariant the sentinels are never reached. */
  lemma SentinelsUnreached(ev: Evaluator, p: Position, depth: int, maximizing: bool)
    requires Searchable(p)
    ensures -Infinity < Minimax(ev, p, depth, maximizing) < Infinity
  {
    MinimaxBounded(ev, p, depth, maximizing);
  }

  /** A search started with the window (-inf, +inf) returns the plain minimax value. */
  lemma FullWindowExact(v: int, m: int, ev: Evaluator)
    requires -ev.Bound() <= m <= ev.Bound()
    requires FailSoft(v, -Infinity, Infinity, m)
    ensures v == m
  {
  }

  // ---------------------------------------------------------------------------
  // The player
  // ---------------------------------------------------------------------------

  class MiniMaxPlayer {
    const evaluation: Evaluator
    const defaultDepth: int

    constructor (evaluation: Evaluator, defaultDepth: int := 6)
      ensures this.evaluation == evaluation && this.defaultDepth == defaultDepth
    {
      this.evaluation := evaluation;
      this.defaultDepth := defaultDepth;
    }

    /**
     * The step every search loop takes for its `i`-th action: `make_move`, the
     * opponent's search one ply deeper (`min_value` after X's move, `max_value`
     * after O's), then `undo_move`.
     */
    method TryMove(board: NineBoard, ghost p: Position, ghost i: nat, action: Move, depth: int, alpha: int, beta: int,
                   maximizing: bool) returns (score: int)
      requires Searchable(p) && i < |LegalMoves(p)| && action == LegalMoves(p)[i]
      requires board.Valid() && SameButNext(board.Snapshot(), p)
      requires -Infinity <= alpha && beta <= Infinity
      modifies board
      decreases EmptyCount(board.boards), 0
      ensures board.Valid() && board.Snapshot() == p.(next := Some(action.sub))
      ensures -Infinity <= score <= Infinity
      ensures alpha < beta ==> FailSoft(score, alpha, beta, ChildValue(evaluation, p, depth, maximizing, i))
    {
      LegalPlay(p, action);
      PlayIgnoresNext(p, action, board.nextBoardIndex);
      assert board.Snapshot() == p.(next := board.nextBoardIndex);
      board.MakeMove(action.sub, action.cell);
      if maximizing {
        score := MinValue(board, depth - 1, alpha, beta);
      } else {
        score := MaxValue(board, depth - 1, alpha, beta);
      }
      UndoAfterSearch(p, action, board.Snapshot());
      board.UndoMove(action.sub, action.cell);
    }

    /** `max_value`: X's move, searched with the window (alpha, beta). */
    method MaxValue(board: NineBoard, depth: int, alpha: int, beta: int) returns (v: int)
      requires board.Valid() && Searchable(board.Snapshot())
      requires -Infinity <= alpha && beta <= Infinity
      modifies board
      decreases EmptyCount(board.boards), 1
      ensures board.Valid() && SameButNext(board.Snapshot(), old(board.Snapshot()))
      ensures -Infinity <= v <= Infinity
      ensures alpha < beta ==> FailSoft(v, alpha, beta, Minimax(evaluation, old(board.Snapshot()), depth, true))
      ensures AtLeaf(old(board.Snapshot()), depth) ==> v == evaluation.Evaluate(old(board.Snapshot()))
    {
      ghost var p := board.Snapshot();
      var over := board.Terminal();
      if over || depth == 0 {
        EvaluateBounded(evaluation, p);
        return evaluation.Evaluate(board.Snapshot());
      }
      var actions := board.Actions();
      ghost var vs := ChildValues(evaluation, p, depth, true, |actions|);
      v := -Infinity;
      var a := alpha;
      var i := 0;
      while i < |actions|
        invariant 0 <= i <= |actions| && actions == LegalMoves(p)
        invariant board.Valid() && SameButNext(board.Snapshot(), p)
        invariant -Infinity <= v <= Infinity && a == Max(alpha, v)
        invariant alpha < beta ==> a < beta
        invariant alpha < beta ==> Best(vs[..i], true) <= v
        invariant alpha < beta && v > alpha ==> Best(vs[..i], true) >= v
      {
        var action := actions[i];
        var score := TryMove(board, p, i, action, depth, a, beta, true);
        ChildValueAt(evaluation, p, depth, true, i);
        BestSnoc(vs, true, i);
        v := Max(score, v);
        a := Max(score, a);
        if beta <= a {
          BestSpec(vs, true);
          return;
        }
        i := i + 1;
      }
      assert vs[..i] == vs;
    }

    /** `min_value`: O's move, searched with the window (alpha, beta). */
    method MinValue(board: NineBoard, depth: int, alpha: int, beta: int) returns (v: int)
      requires board.Valid() && Searchable(board.Snapshot())
      requires -Infinity <= alpha && beta <= Infinity
      modifies board
      decreases EmptyCount(board.boards), 1
      ensures board.Valid() && SameButNext(board.Snapshot(), old(board.Snapshot()))
      ensures -Infinity <= v <= Infinity
      ensures alpha < beta ==> FailSoft(v, alpha, beta, Minimax(evaluation, old(board.Snapshot()), depth, false))
      ensures AtLeaf(old(board.Snapshot()), depth) ==> v == evaluation.Evaluate(old(board.Snapshot()))
    {
      ghost var p := board.Snapshot();
      var over := board.Terminal();
      if over || depth == 0 {
        EvaluateBounded(evaluation, p);
        return evaluation.Evaluate(board.Snapshot());
      }
      var actions := board.Actions();
      ghost var vs := ChildValues(evaluation, p, depth, false, |actions|);
      v := Infinity;
      var b := beta;
      var i := 0;
      while i < |actions|
        invariant 0 <= i <= |actions| && actions == LegalMoves(p)
        invariant board.Valid() && SameButNext(board.Snapshot(), p)
        invariant -Infinity <= v <= Infinity && b == Min(beta, v)
        invariant alpha < beta ==> alpha < b
        invariant alpha < beta ==> Best(vs[..i], false) >= v
        invariant alpha < beta && v < beta ==> Best(vs[..i], false) <= v
      {
        var action := actions[i];
        var score := TryMove(board, p, i, action, depth, alpha, b, false);
        ChildValueAt(evaluation, p, depth, false, i);
        BestSnoc(vs, false, i);
        v := Min(score, v);
        b := Min(score, b);
        if b <= alpha {
          BestSpec(vs, false);
          return;
        }
        i := i + 1;
      }
      assert vs[..i] == vs;
    }

    /** `x_decision`: the first legal move whose reply value is greatest. */
    method XDecision(board: NineBoard) returns (bestAction: Option<Move>)
      requires board.Valid() && Searchable(board.Snapshot())
      modifies board
      ensures board.Valid() && SameButNext(board.Snapshot(), old(board.Snapshot()))
      ensures RootChoice(evaluation, old(board.Snapshot()), defaultDepth, true, bestAction)
    {
      ghost var p := board.Snapshot();
      var depth := defaultDepth;
      var bestScore := -Infinity;
      bestAction := None;
      var alpha := -Infinity;
      var beta := Infinity;
      var actions := board.Actions();
      ghost var vs := ChildValues(evaluation, p, depth, true, |actions|);
      var i := 0;
      while i < |actions|
        invariant 0 <= i <= |actions| && actions == LegalMoves(p)
        invariant board.Valid() && SameButNext(board.Snapshot(), p)
        invariant beta == Infinity && alpha == bestScore
        invariant i == 0 ==> bestAction == None && bestScore == -Infinity
        invariant i > 0 ==> bestAction == Some(actions[ArgBest(vs[..i], true)])
        invariant i > 0 ==> bestScore == vs[ArgBest(vs[..i], true)]
        invariant -Infinity <= bestScore < Infinity
      {
        var action := actions[i];
        var score := TryMove(board, p, i, action, depth, alpha, beta, true);
        ChildValueAt(evaluation, p, depth, true, i);
        if i > 0 {
          ArgBestSnoc(vs, true, i);
        }
        if score > bestScore {
          bestScore := score;
          bestAction := Some(action);
        }
        alpha := Max(alpha, bestScore);
        if beta <= alpha {
          break;
        }
        i := i + 1;
      }
      if i > 0 {
        assert vs[..i] == vs;
        ArgBestSpec(vs, true);
      }
    }

    /** `o_decision`: the first legal move whose reply value is least. */
    method ODecision(board: NineBoard) returns (bestAction: Option<Move>)
      requires board.Valid() && Searchable(board.Snapshot())
      modifies board
      ensures board.Valid() && SameButNext(board.Snapshot(), old(board.Snapshot()))
      ensures RootChoice(evaluation, old(board.Snapshot()), defaultDepth, false, bestAction)
    {
      ghost var p := board.Snapshot();
      var depth := defaultDepth;
      var bestScore := Infinity;
      bestAction := None;
      var alpha := -Infinity;
      var beta := Infinity;
      var actions := board.Actions();
      ghost var vs := ChildValues(evaluation, p, depth, false, |actions|);
      var i := 0;
      while i < |actions|
        invariant 0 <= i <= |actions| && actions == LegalMoves(p)
        invariant board.Valid() && SameButNext(board.Snapshot(), p)
        invariant alpha == -Infinity && beta == bestScore
        invariant i == 0 ==> bestAction == None && bestScore == Infinity
        invariant i > 0 ==> bestAction == Some(actions[ArgBest(vs[..i], false)])
        invariant i > 0 ==> bestScore == vs[ArgBest(vs[..i], false)]
        invariant -Infinity < bestScore <= Infinity
      {
        var action := actions[i];
        var score := TryMove(board, p, i, action, depth, alpha, beta, false);
        ChildValueAt(evaluation, p, depth, false, i);
        if i > 0 {
          ArgBestSnoc(vs, false, i);
        }
        if score < bestScore {
          bestScore := score;
          bestAction := Some(action);
        }
        beta := Min(beta, bestScore);
        if beta <= alpha {
          break;
        }
        i := i + 1;
      }
      if i > 0 {
        assert vs[..i] == vs;
        ArgBestSpec(vs, false);
      }
    }

    /** `make_decision`: X maximizes, O minimizes. */
    method MakeDecision(board: NineBoard) returns (move: Option<Move>)
      requires board.Valid() && Searchable(board.Snapshot())
      modifies board
      ensures board.Valid() && SameButNext(board.Snapshot(), old(board.Snapshot()))
      ensures RootChoice(evaluation, old(board.Snapshot()), defaultDepth, old(board.currentPlayer) == X, move)
    {
      if board.currentPlayer == X {
        move := XDecision(board);
      } else {
        move := ODecision(board);
      }
    }
  }
}
