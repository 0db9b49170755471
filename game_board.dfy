/**
 * The Ultimate Tic-Tac-Toe board: nine 3x3 sub-boards, a cached result per
 * sub-board, the player to move and the sub-board the next move is sent to.
 *
 * The pure part (a `Position` value and the functions over it) is the
 * specification; the class `NineBoard` is the mutable board the search
 * players share, and each of its methods is proved against that specification.
 */
module GameBoard {
  import opened Wrappers

  /** The content of a cell; also the type of the player to move. */
  datatype Cell = Empty | X | O

  /** The outcome of one sub-board, or of the whole game. */
  datatype GameState = Ongoing | XWin | OWin | Draw

  /** A move: the sub-board index and the cell index inside it. */
  datatype Move = Move(sub: nat, cell: nat)

  type Index = i: nat | i < 9

  /** The eight winning lines of a 3x3 grid, in scan order: rows, columns, diagonals. */
  const WinLines: seq<(Index, Index, Index)> :=
    [(0, 1, 2), (3, 4, 5), (6, 7, 8),
     (0, 3, 6), (1, 4, 7), (2, 5, 8),
     (0, 4, 8), (2, 4, 6)]

  /** Line `k` of the 3x3 grid `v` holds `w` in all three places. */
  predicate Won<T(==)>(v: seq<T>, k: nat, w: T)
    requires |v| == 9 && k < 8
  {
    v[WinLines[k].0] == w && v[WinLines[k].1] == w && v[WinLines[k].2] == w
  }

  /** No line of `v` is uniformly `p` or uniformly `q`. */
  predicate NoWin<T(==)>(v: seq<T>, p: T, q: T)
    requires |v| == 9
  {
    forall k :: 0 <= k < 8 ==> !Won(v, k, p) && !Won(v, k, q)
  }

  /** Line `k` is uniformly `p`, and no earlier line is uniformly `p` or `q`. */
  predicate FirstWonBy<T(==)>(v: seq<T>, p: T, q: T, k: nat)
    requires |v| == 9 && k < 8
  {
    Won(v, k, p) && forall j :: 0 <= j < k ==> !Won(v, j, p) && !Won(v, j, q)
  }

  /**
   * The scan of the lines `k..7` in order: the first line that is uniformly
   * `p` or uniformly `q` decides; `None` when there is none.
   */
  function FirstWin<T(==)>(v: seq<T>, p: T, q: T, k: nat): (r: Option<T>)
    requires |v| == 9 && k <= 8 && p != q
    decreases 8 - k
    ensures r.Some? ==> r.value == p || r.value == q
  {
    if k == 8 then None
    else if Won(v, k, p) then Some(p)
    else if Won(v, k, q) then Some(q)
    else FirstWin(v, p, q, k + 1)
  }

  /** The scan from line `k` finds nothing exactly when no later line is decided, and otherwise stops at the first decided one. */
  lemma {:induction false} FirstWinSpec<T>(v: seq<T>, p: T, q: T, k: nat)
    requires |v| == 9 && k <= 8 && p != q
    decreases 8 - k
    ensures FirstWin(v, p, q, k).None? <==> forall j :: k <= j < 8 ==> !Won(v, j, p) && !Won(v, j, q)
    ensures FirstWin(v, p, q, k).Some? ==>
              exists j :: k <= j < 8 && Won(v, j, FirstWin(v, p, q, k).value) &&
                          forall i :: k <= i < j ==> !Won(v, i, p) && !Won(v, i, q)
  {
    if k == 8 {
    } else if Won(v, k, p) || Won(v, k, q) {
      assert Won(v, k, FirstWin(v, p, q, k).value);
    } else {
      FirstWinSpec(v, p, q, k + 1);
      assert FirstWin(v, p, q, k) == FirstWin(v, p, q, k + 1);
    }
  }

  /** The result of one sub-board, as `update_mini_board_game_state` computes it. */
  function MiniBoardResult(cells: seq<Cell>): GameState
    requires |cells| == 9
  {
    match FirstWin(cells, X, O, 0)
    case Some(w) => if w == X then XWin else OWin
    case None => if Empty in cells then Ongoing else Draw
  }

  /**
   * A sub-board is won by the owner of its first complete line, drawn when it
   * is full without one, and still being played otherwise.
   */
  lemma MiniBoardResultSpec(cells: seq<Cell>)
    requires |cells| == 9
    ensures MiniBoardResult(cells) == Ongoing <==> NoWin(cells, X, O) && Empty in cells
    ensures MiniBoardResult(cells) == Draw <==> NoWin(cells, X, O) && Empty !in cells
    ensures MiniBoardResult(cells) == XWin <==> exists k :: 0 <= k < 8 && FirstWonBy(cells, X, O, k)
    ensures MiniBoardResult(cells) == OWin <==> exists k :: 0 <= k < 8 && FirstWonBy(cells, O, X, k)
  {
    FirstWinUnique(cells, X, O);
  }

  /** The result of the whole game from the sub-board results, as `result` computes it. */
  function OverallResult(overall: seq<GameState>): GameState
    requires |overall| == 9
  {
    match FirstWin(overall, XWin, OWin, 0)
    case Some(w) => w
    case None => if Ongoing in overall then Ongoing else Draw
  }

  /**
   * The game is won by the owner of the first line of won sub-boards, drawn
   * when no sub-board is still being played without such a line, and goes on
   * otherwise.
   */
  lemma OverallResultSpec(overall: seq<GameState>)
    requires |overall| == 9
    ensures OverallResult(overall) == Ongoing <==> NoWin(overall, XWin, OWin) && Ongoing in overall
    ensures OverallResult(overall) == Draw <==> NoWin(overall, XWin, OWin) && Ongoing !in overall
    ensures OverallResult(overall) == XWin <==> exists k :: 0 <= k < 8 && FirstWonBy(overall, XWin, OWin, k)
    ensures OverallResult(overall) == OWin <==> exists k :: 0 <= k < 8 && FirstWonBy(overall, OWin, XWin, k)
  {
    FirstWinUnique(overall, XWin, OWin);
  }

  /** A line that is the first decided one, won by `w`, makes every scan that starts before it return `w`. */
  lemma {:induction false} ScanReaches<T>(v: seq<T>, p: T, q: T, w: T, i: nat, k: nat)
    requires |v| == 9 && p != q && (w == p || w == q)
    requires i <= k < 8 && Won(v, k, w)
    requires forall j :: 0 <= j < k ==> !Won(v, j, p) && !Won(v, j, q)
    ensures FirstWin(v, p, q, i) == Some(w)
    decreases k - i
  {
    if i < k {
      ScanReaches(v, p, q, w, i + 1, k);
    }
  }

  /** The scan from line 0 returns `Some(p)` exactly when the first decided line is `p`'s. */
  lemma FirstWinUnique<T>(v: seq<T>, p: T, q: T)
    requires |v| == 9 && p != q
    ensures FirstWin(v, p, q, 0) == Some(p) <==> exists k :: 0 <= k < 8 && FirstWonBy(v, p, q, k)
    ensures FirstWin(v, p, q, 0) == Some(q) <==> exists k :: 0 <= k < 8 && FirstWonBy(v, q, p, k)
    ensures FirstWin(v, p, q, 0).None? <==> NoWin(v, p, q)
  {
    if k :| 0 <= k < 8 && FirstWonBy(v, p, q, k) {
      ScanReaches(v, p, q, p, 0, k);
    }
    if k :| 0 <= k < 8 && FirstWonBy(v, q, p, k) {
      ScanReaches(v, p, q, q, 0, k);
    }
    FirstWinSpec(v, p, q, 0);
    var r := FirstWin(v, p, q, 0);
    if r.Some? {
      var j :| 0 <= j < 8 && Won(v, j, r.value) && forall i :: 0 <= i < j ==> !Won(v, i, p) && !Won(v, i, q);
      if r.value == p {
        assert FirstWonBy(v, p, q, j);
      } else {
        assert FirstWonBy(v, q, p, j);
      }
    }
  }

  /** A snapshot of the four fields of a board. */
  datatype Position = Position(boards: seq<seq<Cell>>, overall: seq<GameState>, player: Cell, next: Option<nat>)

  /** Nine sub-boards of nine cells, nine results, and a sub-board index (if any) below 9. */
  predicate WellFormed(p: Position)
  {
    && |p.boards| == 9
    && (forall i :: 0 <= i < 9 ==> |p.boards[i]| == 9)
    && |p.overall| == 9
    && (p.next.Some? ==> p.next.value < 9)
  }

  /** The cache invariant: every cached sub-board result is the scan of its cells. */
  predicate CacheValid(p: Position)
  {
    WellFormed(p) && forall i :: 0 <= i < 9 ==> p.overall[i] == MiniBoardResult(p.boards[i])
  }

  predicate ValidMove(m: Move)
  {
    m.sub < 9 && m.cell < 9
  }

  /** The board a new game starts from. */
  function Initial(): (p: Position)
    ensures CacheValid(p)
  {
    var empty := seq(9, j => Empty);
    assert Empty in empty by { assert empty[0] == Empty; }
    Position(seq(9, i => empty), seq(9, i => Ongoing), X, None)
  }

  /** The player who moves after `c`: X after O, O otherwise. */
  function Opponent(c: Cell): Cell
  {
    if c == O then X else O
  }

  /** The board after `make_move(m.sub, m.cell)`. */
  function Play(p: Position, m: Move): (r: Position)
    requires WellFormed(p) && ValidMove(m)
    ensures WellFormed(r)
  {
    var cells := p.boards[m.sub][m.cell := p.player];
    Position(p.boards[m.sub := cells], p.overall[m.sub := MiniBoardResult(cells)], Opponent(p.player), Some(m.cell))
  }

  /** The board after `undo_move(m.sub, m.cell)`. */
  function Unplay(p: Position, m: Move): (r: Position)
    requires WellFormed(p) && ValidMove(m)
    ensures WellFormed(r)
  {
    var cells := p.boards[m.sub][m.cell := Empty];
    Position(p.boards[m.sub := cells], p.overall[m.sub := MiniBoardResult(cells)], p.boards[m.sub][m.cell], Some(m.sub))
  }

  /** The game is over: the overall result is no longer `Ongoing`. */
  predicate IsTerminal(p: Position)
    requires WellFormed(p)
  {
    OverallResult(p.overall) != Ongoing
  }

  /** The next move is confined to sub-board `next`, which is still being played. */
  predicate Constrained(p: Position)
    requires WellFormed(p)
  {
    p.next.Some? && p.overall[p.next.value] == Ongoing
  }

  /** The empty cells `0..n-1` of sub-board `i`, in ascending order. */
  function EmptyCellsOf(p: Position, i: nat, n: nat): seq<Move>
    requires WellFormed(p) && i < 9 && n <= 9
  {
    if n == 0 then []
    else EmptyCellsOf(p, i, n - 1) + (if p.boards[i][n - 1] == Empty then [Move(i, n - 1)] else [])
  }

  /** The empty cells of the ongoing sub-boards `0..n-1`, in ascending order. */
  function OpenCellsUpTo(p: Position, n: nat): seq<Move>
    requires WellFormed(p) && n <= 9
  {
    if n == 0 then []
    else OpenCellsUpTo(p, n - 1) + (if p.overall[n - 1] == Ongoing then EmptyCellsOf(p, n - 1, |p.boards[n - 1]|) else [])
  }

  /** The list `actions()` returns. */
  function LegalMoves(p: Position): seq<Move>
    requires WellFormed(p)
  {
    if Constrained(p) then EmptyCellsOf(p, p.next.value, |p.boards[p.next.value]|) else OpenCellsUpTo(p, |p.overall|)
  }

  /** `m` is an empty cell of a sub-board that is still being played. */
  predicate OpenCell(p: Position, m: Move)
    requires WellFormed(p)
  {
    ValidMove(m) && p.overall[m.sub] == Ongoing && p.boards[m.sub][m.cell] == Empty
  }

  /** A move the rules allow: an open cell, inside sub-board `next` when that one is still being played. */
  predicate Allowed(p: Position, m: Move)
    requires WellFormed(p)
  {
    OpenCell(p, m) && (Constrained(p) ==> m.sub == p.next.value)
  }

  /** Row-major order of moves. */
  predicate Before(a: Move, b: Move)
  {
    a.sub < b.sub || (a.sub == b.sub && a.cell < b.cell)
  }

  predicate Ascending(s: seq<Move>)
  {
    forall i, j :: 0 <= i < j < |s| ==> Before(s[i], s[j])
  }

  /** The number of empty cells of one sub-board. */
  function CountEmpty(s: seq<Cell>): nat
  {
    if s == [] then 0 else (if s[0] == Empty then 1 else 0) + CountEmpty(s[1..])
  }

  /** The number of empty cells of the whole board. */
  function EmptyCount(bs: seq<seq<Cell>>): nat
  {
    if bs == [] then 0 else CountEmpty(bs[0]) + EmptyCount(bs[1..])
  }

  /** A board the search players can run on: the cache invariant holds and a player is to move. */
  predicate Searchable(p: Position)
  {
    CacheValid(p) && p.player != Empty
  }

  // ---------------------------------------------------------------------------
  // Facts about the specification
  // ---------------------------------------------------------------------------

  lemma AscendingConcat(a: seq<Move>, b: seq<Move>)
    requires Ascending(a) && Ascending(b)
    requires forall x, y :: x in a && y in b ==> Before(x, y)
    ensures Ascending(a + b)
  {
    forall i, j | 0 <= i < j < |a + b| ensures Before((a + b)[i], (a + b)[j]) {
      if j < |a| {
      } else if i >= |a| {
        assert (a + b)[i] == b[i - |a|] && (a + b)[j] == b[j - |a|];
      } else {
        assert (a + b)[i] in a && (a + b)[j] in b;
      }
    }
  }

  /** `EmptyCellsOf` lists exactly the empty cells of sub-board `i` below `n`, ascending. */
  lemma {:induction false} EmptyCellsOfSpec(p: Position, i: nat, n: nat)
    requires WellFormed(p) && i < 9 && n <= 9
    ensures forall m :: m in EmptyCellsOf(p, i, n) <==> m.sub == i && m.cell < n && p.boards[i][m.cell] == Empty
    ensures Ascending(EmptyCellsOf(p, i, n))
  {
    if n > 0 {
      EmptyCellsOfSpec(p, i, n - 1);
      var tail := if p.boards[i][n - 1] == Empty then [Move(i, n - 1)] else [];
      AscendingConcat(EmptyCellsOf(p, i, n - 1), tail);
    }
  }

  /** `OpenCellsUpTo` lists exactly the open cells of sub-boards below `n`, ascending. */
  lemma {:induction false} OpenCellsUpToSpec(p: Position, n: nat)
    requires WellFormed(p) && n <= 9
    ensures forall m :: m in OpenCellsUpTo(p, n) <==> OpenCell(p, m) && m.sub < n
    ensures Ascending(OpenCellsUpTo(p, n))
  {
    if n > 0 {
      OpenCellsUpToSpec(p, n - 1);
      EmptyCellsOfSpec(p, n - 1, |p.boards[n - 1]|);
      var tail := if p.overall[n - 1] == Ongoing then EmptyCellsOf(p, n - 1, |p.boards[n - 1]|) else [];
      AscendingConcat(OpenCellsUpTo(p, n - 1), tail);
    }
  }

  /**
   * `actions()` lists exactly the open cells, confined to sub-board `next`
   * when that sub-board is still being played, in ascending order.
   */
  lemma LegalMovesSpec(p: Position)
    requires WellFormed(p)
    ensures forall m :: m in LegalMoves(p) <==> Allowed(p, m)
    ensures Ascending(LegalMoves(p))
  {
    if Constrained(p) {
      EmptyCellsOfSpec(p, p.next.value, |p.boards[p.next.value]|);
    } else {
      OpenCellsUpToSpec(p, |p.overall|);
    }
  }

  /** A legal move is in range and targets an empty cell of an ongoing sub-board. */
  lemma LegalMoveIsOpen(p: Position, m: Move)
    requires WellFormed(p) && m in LegalMoves(p)
    ensures OpenCell(p, m)
  {
    LegalMovesSpec(p);
  }

  /** Under the cache invariant, a board whose game is not over always has a legal move. */
  lemma NonTerminalHasMoves(p: Position)
    requires CacheValid(p) && !IsTerminal(p)
    ensures LegalMoves(p) != []
  {
    LegalMovesSpec(p);
    var i: nat;
    if Constrained(p) {
      i := p.next.value;
    } else {
      assert Ongoing in p.overall;
      var k :| 0 <= k < 9 && p.overall[k] == Ongoing;
      i := k;
    }
    assert MiniBoardResult(p.boards[i]) == Ongoing;
    var j :| 0 <= j < 9 && p.boards[i][j] == Empty;
    assert Allowed(p, Move(i, j));
  }

  /** `make_move` writes the mover's mark, hands the turn over and recomputes only sub-board `m.sub`. */
  lemma PlayEffect(p: Position, m: Move)
    requires WellFormed(p) && ValidMove(m)
    ensures Play(p, m).boards[m.sub][m.cell] == p.player
    ensures forall i, j :: 0 <= i < 9 && 0 <= j < 9 && (i, j) != (m.sub, m.cell) ==>
              Play(p, m).boards[i][j] == p.boards[i][j]
    ensures forall i :: 0 <= i < 9 && i != m.sub ==> Play(p, m).overall[i] == p.overall[i]
    ensures Play(p, m).overall[m.sub] == MiniBoardResult(Play(p, m).boards[m.sub])
    ensures p.player == X ==> Play(p, m).player == O
    ensures p.player == O ==> Play(p, m).player == X
    ensures Play(p, m).next == Some(m.cell)
  {
  }

  /** `make_move` and `undo_move` keep the cache invariant. */
  lemma PlayKeepsCache(p: Position, m: Move)
    requires CacheValid(p) && ValidMove(m)
    ensures CacheValid(Play(p, m)) && CacheValid(Unplay(p, m))
  {
  }

  /**
   * `undo_move` right after `make_move` of the same move restores the cells,
   * the cached results and the player, and leaves `next` at `m.sub`.
   */
  lemma UnplayAfterPlay(p: Position, m: Move)
    requires WellFormed(p) && ValidMove(m)
    requires p.boards[m.sub][m.cell] == Empty
    requires p.overall[m.sub] == MiniBoardResult(p.boards[m.sub])
    ensures Unplay(Play(p, m), m) == p.(next := Some(m.sub))
  {
    var q := Unplay(Play(p, m), m);
    assert q.boards[m.sub] == p.boards[m.sub];
    assert q.boards == p.boards;
    assert q.overall == p.overall;
  }

  /** The round trip is exact precisely when the move was made in the sub-board `next` named. */
  lemma UndoRestoresIff(p: Position, m: Move)
    requires WellFormed(p) && ValidMove(m)
    requires p.boards[m.sub][m.cell] == Empty
    requires p.overall[m.sub] == MiniBoardResult(p.boards[m.sub])
    ensures Unplay(Play(p, m), m) == p <==> p.next == Some(m.sub)
  {
    UnplayAfterPlay(p, m);
  }

  /** The outcome of `make_move` does not depend on `next`. */
  lemma PlayIgnoresNext(p: Position, m: Move, n: Option<nat>)
    requires WellFormed(p) && ValidMove(m) && (n.Some? ==> n.value < 9)
    ensures Play(p.(next := n), m) == Play(p, m)
  {
  }

  lemma {:induction false} CountEmptyUpdate(s: seq<Cell>, j: nat, v: Cell)
    requires j < |s| && s[j] == Empty && v != Empty
    ensures CountEmpty(s[j := v]) + 1 == CountEmpty(s)
  {
    if j > 0 {
      assert s[j := v][1..] == s[1..][j - 1 := v];
      CountEmptyUpdate(s[1..], j - 1, v);
    } else {
      assert s[j := v][1..] == s[1..];
    }
  }

  lemma {:induction false} EmptyCountUpdate(bs: seq<seq<Cell>>, i: nat, t: seq<Cell>)
    requires i < |bs|
    ensures EmptyCount(bs[i := t]) + CountEmpty(bs[i]) == EmptyCount(bs) + CountEmpty(t)
  {
    if i > 0 {
      assert bs[i := t][1..] == bs[1..][i - 1 := t];
      EmptyCountUpdate(bs[1..], i - 1, t);
    } else {
      assert bs[i := t][1..] == bs[1..];
    }
  }

  /** A move by a player into an empty cell fills exactly one cell. */
  lemma PlayFillsOneCell(p: Position, m: Move)
    requires WellFormed(p) && ValidMove(m)
    requires p.boards[m.sub][m.cell] == Empty && p.player != Empty
    ensures EmptyCount(Play(p, m).boards) + 1 == EmptyCount(p.boards)
  {
    var cells := p.boards[m.sub][m.cell := p.player];
    CountEmptyUpdate(p.boards[m.sub], m.cell, p.player);
    EmptyCountUpdate(p.boards, m.sub, cells);
  }

  /** A legal move keeps a board searchable and fills one cell. */
  lemma LegalPlay(p: Position, m: Move)
    requires Searchable(p) && m in LegalMoves(p)
    ensures ValidMove(m) && p.boards[m.sub][m.cell] == Empty
    ensures Searchable(Play(p, m))
    ensures EmptyCount(Play(p, m).boards) < EmptyCount(p.boards)
  {
    LegalMoveIsOpen(p, m);
    PlayKeepsCache(p, m);
    PlayFillsOneCell(p, m);
  }

  // ---------------------------------------------------------------------------
  // The mutable board
  // ---------------------------------------------------------------------------

  class NineBoard {
    var boards: seq<seq<Cell>>
    var overallBoard: seq<GameState>
    var currentPlayer: Cell
    var nextBoardIndex: Option<nat>

    /** The four fields as a value. */
    function Snapshot(): Position
      reads this
    {
      Position(boards, overallBoard, currentPlayer, nextBoardIndex)
    }

    predicate Valid()
      reads this
    {
      WellFormed(Snapshot())
    }

    /** An empty board with X to move and no sub-board imposed. */
    constructor ()
      ensures Valid() && Snapshot() == Initial()
    {
      boards := seq(9, i => seq(9, j => Empty));
      overallBoard := seq(9, i => Ongoing);
      currentPlayer := X;
      nextBoardIndex := None;
    }

    /** Plays the current player's mark at cell `c` of sub-board `b`. */
    method MakeMove(b: nat, c: nat)
      requires Valid() && b < 9 && c < 9 && boards[b][c] == Empty
      modifies this
      ensures Valid()
      ensures Snapshot() == Play(old(Snapshot()), Move(b, c))
    {
      boards := boards[b := boards[b][c := currentPlayer]];
      currentPlayer := if currentPlayer == O then X else O;
      UpdateGameState(b);
      nextBoardIndex := Some(c);
    }

    /** Empties cell `c` of sub-board `b`, giving the turn back to the mark it held. */
    method UndoMove(b: nat, c: nat)
      requires Valid() && b < 9 && c < 9
      modifies this
      ensures Valid()
      ensures Snapshot() == Unplay(old(Snapshot()), Move(b, c))
    {
      currentPlayer := boards[b][c];
      boards := boards[b := boards[b][c := Empty]];
      UpdateGameState(b);
      nextBoardIndex := Some(b);
    }

    /** The legal moves, built by the same nested loops as `actions()`. */
    method Actions() returns (pairs: seq<Move>)
      requires Valid()
      ensures pairs == LegalMoves(Snapshot())
    {
      if nextBoardIndex.None? || overallBoard[nextBoardIndex.value] != Ongoing {
        pairs := [];
        for i := 0 to 9
          invariant pairs == OpenCellsUpTo(Snapshot(), i)
        {
          if overallBoard[i] == Ongoing {
            for j := 0 to 9
              invariant pairs == OpenCellsUpTo(Snapshot(), i) + EmptyCellsOf(Snapshot(), i, j)
            {
              if boards[i][j] == Empty {
                pairs := pairs + [Move(i, j)];
              }
            }
          }
        }
      } else {
        var k := nextBoardIndex.value;
        pairs := [];
        for j := 0 to 9
          invariant pairs == EmptyCellsOf(Snapshot(), k, j)
        {
          if boards[k][j] == Empty {
            pairs := pairs + [Move(k, j)];
          }
        }
      }
    }

    /** Recomputes the cached result of sub-board `b`. */
    method UpdateGameState(b: nat)
      requires Valid() && b < 9
      modifies this`overallBoard
      ensures Valid()
      ensures overallBoard == old(overallBoard)[b := MiniBoardResult(boards[b])]
    {
      var r := UpdateMiniBoardGameState(b);
      overallBoard := overallBoard[b := r];
    }

    /** Scans the eight lines of sub-board `b`. */
    method UpdateMiniBoardGameState(b: nat) returns (r: GameState)
      requires Valid() && b < 9
      ensures r == MiniBoardResult(boards[b])
    {
      var board := boards[b];
      for k := 0 to 8
        invariant FirstWin(board, X, O, k) == FirstWin(board, X, O, 0)
      {
        var (i, j, l) := WinLines[k];
        if board[i] == X && board[j] == X && board[l] == X {
          return XWin;
        } else if board[i] == O && board[j] == O && board[l] == O {
          return OWin;
        }
      }
      if Empty in board {
        return Ongoing;
      }
      return Draw;
    }

    /** Scans the eight lines of the overall board. */
    method Result() returns (r: GameState)
      requires Valid()
      ensures r == OverallResult(overallBoard)
    {
      for k := 0 to 8
        invariant FirstWin(overallBoard, XWin, OWin, k) == FirstWin(overallBoard, XWin, OWin, 0)
      {
        var (i, j, l) := WinLines[k];
        if overallBoard[i] == XWin && overallBoard[j] == XWin && overallBoard[l] == XWin {
          return XWin;
        } else if overallBoard[i] == OWin && overallBoard[j] == OWin && overallBoard[l] == OWin {
          return OWin;
        }
      }
      if Ongoing in overallBoard {
        return Ongoing;
      }
      return Draw;
    }

    /** The game is over. */
    method Terminal() returns (t: bool)
      requires Valid()
      ensures t <==> IsTerminal(Snapshot())
    {
      var r := Result();
      t := r != Ongoing;
    }

    /** A new board holding the same four fields. */
    method Copy() returns (nb: NineBoard)
      requires Valid()
      ensures fresh(nb) && nb.Valid() && nb.Snapshot() == Snapshot()
    {
      nb := new NineBoard();
      nb.boards := boards;
      nb.overallBoard := overallBoard;
      nb.currentPlayer := currentPlayer;
      nb.nextBoardIndex := nextBoardIndex;
    }
  }
}
