/**
 * The static evaluators used at the leaves of the minimax search.
 *
 * Both versions score each winning line by the sum of its three entries under
 * the numeric encoding X = 5, O = 2, Empty = 0 (sub-board results: X_WIN = 5,
 * O_WIN = 2, ONGOING = 0), so that a line sum identifies its pattern: 15 is
 * three X, 6 three O, 10 two X and a blank, 4 two O and a blank, 5 one X and
 * two blanks, 2 one O and two blanks. A positive score favours X.
 */
module Evaluation {
  import opened GameBoard

  /** The numeric code of a cell. */
  function CellCode(c: Cell): int
  {
    match c
    case X => 5
    case O => 2
    case Empty => 0
  }

  /**
   * The numeric code of a sub-board result. The code of `Draw` is a choice of
   * this model (7): no line sum containing it is one the tables score.
   */
  function StateCode(g: GameState): int
  {
    match g
    case XWin => 5
    case OWin => 2
    case Ongoing => 0
    case Draw => 7
  }

  function CellCodes(cells: seq<Cell>): (codes: seq<int>)
    ensures |codes| == |cells|
    ensures forall i :: 0 <= i < |cells| ==> codes[i] == CellCode(cells[i])
  {
    seq(|cells|, i requires 0 <= i < |cells| => CellCode(cells[i]))
  }

  function StateCodes(overall: seq<GameState>): (codes: seq<int>)
    ensures |codes| == |overall|
    ensures forall i :: 0 <= i < |overall| ==> codes[i] == StateCode(overall[i])
  {
    seq(|overall|, i requires 0 <= i < |overall| => StateCode(overall[i]))
  }

  /** The sum of the three codes on winning line `k`. */
  function LineTotal(codes: seq<int>, k: nat): int
    requires |codes| == 9 && k < 8
  {
    codes[WinLines[k].0] + codes[WinLines[k].1] + codes[WinLines[k].2]
  }

  /** The score accumulated over the first `n` winning lines, each scored by `score`. */
  function SumLines(codes: seq<int>, n: nat, score: int -> int): int
    requires |codes| == 9 && n <= 8
  {
    if n == 0 then 0 else SumLines(codes, n - 1, score) + score(LineTotal(codes, n - 1))
  }

  /** Version one, sub-board line: three-in-a-row and two-plus-blank. */
  function MiniLineV1(total: int): int
  {
    if total == 15 then 10
    else if total == 6 then -10
    else if total == 10 then 5
    else if total == 4 then -5
    else 0
  }

  /** Version one, overall-board line. */
  function OverallLineV1(total: int): int
  {
    if total == 15 then 100
    else if total == 6 then -100
    else if total == 10 then 50
    else if total == 4 then -50
    else 0
  }

  /** Version two, sub-board line: version one plus one-plus-two-blanks. */
  function MiniLineV2(total: int): int
  {
    if total == 15 then 10
    else if total == 6 then -10
    else if total == 10 then 5
    else if total == 4 then -5
    else if total == 5 then 2
    else if total == 2 then -2
    else 0
  }

  /** Version two, overall-board line. */
  function OverallLineV2(total: int): int
  {
    if total == 15 then 100
    else if total == 6 then -100
    else if total == 10 then 50
    else if total == 4 then -50
    else if total == 5 then 20
    else if total == 2 then -20
    else 0
  }

  /** Version two's bonus for the centre cell of a sub-board. */
  function CentreCellBonus(c: Cell): int
  {
    if c == X then 3 else if c == O then -3 else 0
  }

  /** Version two's bonus for the centre sub-board, added once per line scanned. */
  function CentreBoardBonus(g: GameState): int
  {
    if g == XWin then 10 else if g == OWin then -10 else 0
  }

  /** The two evaluator classes. */
  datatype Evaluator = VersionOne | VersionTwo
  {
    function EvaluateMiniBoard(cells: seq<Cell>): int
      requires |cells| == 9
    {
      match this
      case VersionOne => SumLines(CellCodes(cells), 8, MiniLineV1)
      case VersionTwo => SumLines(CellCodes(cells), 8, MiniLineV2) + CentreCellBonus(cells[4])
    }

    function EvaluateOverallBoard(overall: seq<GameState>): int
      requires |overall| == 9
    {
      match this
      case VersionOne => SumLines(StateCodes(overall), 8, OverallLineV1)
      case VersionTwo =>
        var centre := CentreBoardBonus(overall[4]);
        SumLines(StateCodes(overall), 8, t => OverallLineV2(t) + centre)
    }

    /** The nine sub-board scores plus the overall-board score. */
    function Evaluate(p: Position): int
      requires WellFormed(p)
    {
      SumMiniBoards(p.boards, |p.boards|) + EvaluateOverallBoard(p.overall)
    }

    /** The scores of the first `n` sub-boards, added up. */
    function SumMiniBoards(boards: seq<seq<Cell>>, n: nat): int
      requires n <= |boards| && forall i :: 0 <= i < |boards| ==> |boards[i]| == 9
    {
      if n == 0 then 0 else SumMiniBoards(boards, n - 1) + EvaluateMiniBoard(boards[n - 1])
    }

    /** The largest magnitude `Evaluate` can reach. */
    function Bound(): int
    {
      match this
      case VersionOne => 9 * 80 + 800
      case VersionTwo => 9 * 83 + 880
    }
  }

  // ---------------------------------------------------------------------------
  // Line sums
  // ---------------------------------------------------------------------------

  /** The line sums scored by a table whose every entry lies in `[-m, m]` lie in `[-m*n, m*n]`. */
  lemma {:induction false} SumLinesBounded(codes: seq<int>, n: nat, score: int -> int, m: int)
    requires |codes| == 9 && n <= 8
    requires forall t :: -m <= score(t) <= m
    ensures -m * n <= SumLines(codes, n, score) <= m * n
  {
    if n > 0 {
      SumLinesBounded(codes, n - 1, score, m);
    }
  }

  /** Adding a constant to every line score adds `n` times that constant. */
  lemma {:induction false} SumLinesShift(codes: seq<int>, n: nat, f: int -> int, g: int -> int, c: int)
    requires |codes| == 9 && n <= 8
    requires forall t :: f(t) == g(t) + c
    ensures SumLines(codes, n, f) == SumLines(codes, n, g) + n * c
  {
    if n > 0 {
      SumLinesShift(codes, n - 1, f, g, c);
    }
  }

  /** A table that is the sum of two tables scores the sum of their scores. */
  lemma {:induction false} SumLinesAdd(codes: seq<int>, n: nat, f: int -> int, g: int -> int, h: int -> int)
    requires |codes| == 9 && n <= 8
    requires forall t :: f(t) == g(t) + h(t)
    ensures SumLines(codes, n, f) == SumLines(codes, n, g) + SumLines(codes, n, h)
  {
    if n > 0 {
      SumLinesAdd(codes, n - 1, f, g, h);
    }
  }

  /** Lines whose codes are all zero score nothing under a table with no entry at 0. */
  lemma {:induction false} SumLinesZero(codes: seq<int>, n: nat, score: int -> int)
    requires |codes| == 9 && n <= 8
    requires forall i :: 0 <= i < 9 ==> codes[i] == 0
    requires score(0) == 0
    ensures SumLines(codes, n, score) == 0
  {
    if n > 0 {
      SumLinesZero(codes, n - 1, score);
    }
  }

  /** Lines whose totals are mirrored by `mirror` score the negation under an odd table. */
  lemma {:induction false} SumLinesNegate(codes: seq<int>, mirrored: seq<int>, n: nat, score: int -> int)
    requires |codes| == 9 && |mirrored| == 9 && n <= 8
    requires forall k :: 0 <= k < 8 ==> score(LineTotal(mirrored, k)) == -score(LineTotal(codes, k))
    ensures SumLines(mirrored, n, score) == -SumLines(codes, n, score)
  {
    if n > 0 {
      SumLinesNegate(codes, mirrored, n - 1, score);
    }
  }

  // ---------------------------------------------------------------------------
  // Properties of the evaluators
  // ---------------------------------------------------------------------------

  /** Sub-board scores lie in [-80, 80] (version one) and [-83, 83] (version two). */
  lemma MiniBoardBounds(ev: Evaluator, cells: seq<Cell>)
    requires |cells| == 9
    ensures ev.VersionOne? ==> -80 <= ev.EvaluateMiniBoard(cells) <= 80
    ensures ev.VersionTwo? ==> -83 <= ev.EvaluateMiniBoard(cells) <= 83
  {
    if ev.VersionOne? {
      SumLinesBounded(CellCodes(cells), 8, MiniLineV1, 10);
    } else {
      SumLinesBounded(CellCodes(cells), 8, MiniLineV2, 10);
    }
  }

  /** Overall-board scores lie in [-800, 800] (version one) and [-880, 880] (version two). */
  lemma OverallBoardBounds(ev: Evaluator, overall: seq<GameState>)
    requires |overall| == 9
    ensures ev.VersionOne? ==> -800 <= ev.EvaluateOverallBoard(overall) <= 800
    ensures ev.VersionTwo? ==> -880 <= ev.EvaluateOverallBoard(overall) <= 880
  {
    if ev.VersionOne? {
      SumLinesBounded(StateCodes(overall), 8, OverallLineV1, 100);
    } else {
      var centre := CentreBoardBonus(overall[4]);
      SumLinesBounded(StateCodes(overall), 8, t => OverallLineV2(t) + centre, 110);
    }
  }

  lemma {:induction false} SumMiniBoardsBounded(ev: Evaluator, boards: seq<seq<Cell>>, n: nat)
    requires n <= |boards| && forall i :: 0 <= i < |boards| ==> |boards[i]| == 9
    ensures ev.VersionOne? ==> -80 * n <= ev.SumMiniBoards(boards, n) <= 80 * n
    ensures ev.VersionTwo? ==> -83 * n <= ev.SumMiniBoards(boards, n) <= 83 * n
  {
    if n > 0 {
      SumMiniBoardsBounded(ev, boards, n - 1);
      MiniBoardBounds(ev, boards[n - 1]);
    }
  }

  /** Every board evaluates within `Bound()`: [-1520, 1520] for version one, [-1627, 1627] for version two. */
  lemma EvaluateBounded(ev: Evaluator, p: Position)
    requires WellFormed(p)
    ensures -ev.Bound() <= ev.Evaluate(p) <= ev.Bound()
  {
    SumMiniBoardsBounded(ev, p.boards, |p.boards|);
    OverallBoardBounds(ev, p.overall);
  }

  /** A sub-board of blanks and the overall board of an untouched game both score 0. */
  lemma EmptyScoresZero(ev: Evaluator, cells: seq<Cell>, overall: seq<GameState>)
    requires |cells| == 9 && forall i :: 0 <= i < 9 ==> cells[i] == Empty
    requires |overall| == 9 && forall i :: 0 <= i < 9 ==> overall[i] == Ongoing
    ensures ev.EvaluateMiniBoard(cells) == 0
    ensures ev.EvaluateOverallBoard(overall) == 0
  {
    SumLinesZero(CellCodes(cells), 8, MiniLineV1);
    SumLinesZero(CellCodes(cells), 8, MiniLineV2);
    SumLinesZero(StateCodes(overall), 8, OverallLineV1);
    SumLinesZero(StateCodes(overall), 8, t => OverallLineV2(t) + CentreBoardBonus(overall[4]));
  }

  lemma {:induction false} SumMiniBoardsZero(ev: Evaluator, boards: seq<seq<Cell>>, n: nat)
    requires n <= |boards| && forall i :: 0 <= i < |boards| ==> |boards[i]| == 9
    requires forall i, j :: 0 <= i < |boards| && 0 <= j < 9 ==> boards[i][j] == Empty
    ensures ev.SumMiniBoards(boards, n) == 0
  {
    if n > 0 {
      SumMiniBoardsZero(ev, boards, n - 1);
      EmptyScoresZero(ev, boards[n - 1], seq(9, i => Ongoing));
    }
  }

  /** The board a game starts from evaluates to 0 under both versions. */
  lemma InitialScoresZero(ev: Evaluator)
    ensures ev.Evaluate(Initial()) == 0
  {
    var p := Initial();
    SumMiniBoardsZero(ev, p.boards, |p.boards|);
    EmptyScoresZero(ev, p.boards[0], p.overall);
  }

  /** X and O swap places. */
  function MirrorCell(c: Cell): Cell
  {
    match c
    case X => O
    case O => X
    case Empty => Empty
  }

  /** X_WIN and O_WIN swap places. */
  function MirrorState(g: GameState): GameState
  {
    match g
    case XWin => OWin
    case OWin => XWin
    case other => other
  }

  function MirrorCells(cells: seq<Cell>): (m: seq<Cell>)
    ensures |m| == |cells| && forall i :: 0 <= i < |cells| ==> m[i] == MirrorCell(cells[i])
  {
    seq(|cells|, i requires 0 <= i < |cells| => MirrorCell(cells[i]))
  }

  function MirrorStates(overall: seq<GameState>): (m: seq<GameState>)
    ensures |m| == |overall| && forall i :: 0 <= i < |overall| ==> m[i] == MirrorState(overall[i])
  {
    seq(|overall|, i requires 0 <= i < |overall| => MirrorState(overall[i]))
  }

  /** On three cells, swapping X and O negates every line table of both versions. */
  lemma MirrorLine(a: Cell, b: Cell, c: Cell)
    ensures var t, u := CellCode(a) + CellCode(b) + CellCode(c),
                        CellCode(MirrorCell(a)) + CellCode(MirrorCell(b)) + CellCode(MirrorCell(c));
            && MiniLineV1(u) == -MiniLineV1(t) && MiniLineV2(u) == -MiniLineV2(t)
            && OverallLineV1(u) == -OverallLineV1(t) && OverallLineV2(u) == -OverallLineV2(t)
  {
  }

  /** Swapping X and O on a sub-board negates its score under both versions. */
  lemma MirrorMiniBoard(ev: Evaluator, cells: seq<Cell>)
    requires |cells| == 9
    ensures ev.EvaluateMiniBoard(MirrorCells(cells)) == -ev.EvaluateMiniBoard(cells)
  {
    var codes, mirrored := CellCodes(cells), CellCodes(MirrorCells(cells));
    forall k | 0 <= k < 8
      ensures MiniLineV1(LineTotal(mirrored, k)) == -MiniLineV1(LineTotal(codes, k))
      ensures MiniLineV2(LineTotal(mirrored, k)) == -MiniLineV2(LineTotal(codes, k))
    {
      MirrorLine(cells[WinLines[k].0], cells[WinLines[k].1], cells[WinLines[k].2]);
    }
    SumLinesNegate(codes, mirrored, 8, MiniLineV1);
    SumLinesNegate(codes, mirrored, 8, MiniLineV2);
  }

  /** On three results none of which is `Draw`, swapping X_WIN and O_WIN negates both overall tables. */
  lemma MirrorStateLine(a: GameState, b: GameState, c: GameState)
    requires a != Draw && b != Draw && c != Draw
    ensures var t, u := StateCode(a) + StateCode(b) + StateCode(c),
                        StateCode(MirrorState(a)) + StateCode(MirrorState(b)) + StateCode(MirrorState(c));
            OverallLineV1(u) == -OverallLineV1(t) && OverallLineV2(u) == -OverallLineV2(t)
  {
  }

  lemma MirrorOverallLine(overall: seq<GameState>, k: nat)
    requires |overall| == 9 && Draw !in overall && k < 8
    ensures var codes, mirrored := StateCodes(overall), StateCodes(MirrorStates(overall));
            && OverallLineV1(LineTotal(mirrored, k)) == -OverallLineV1(LineTotal(codes, k))
            && OverallLineV2(LineTotal(mirrored, k)) == -OverallLineV2(LineTotal(codes, k))
  {
    var (i, j, l) := WinLines[k];
    assert overall[i] in overall && overall[j] in overall && overall[l] in overall;
    MirrorStateLine(overall[i], overall[j], overall[l]);
  }

  /**
   * Swapping X_WIN and O_WIN on an overall board without a drawn sub-board
   * negates its score under both versions.
   */
  lemma MirrorOverallBoard(ev: Evaluator, overall: seq<GameState>)
    requires |overall| == 9 && Draw !in overall
    ensures ev.EvaluateOverallBoard(MirrorStates(overall)) == -ev.EvaluateOverallBoard(overall)
  {
    var codes, mirrored := StateCodes(overall), StateCodes(MirrorStates(overall));
    forall k | 0 <= k < 8
      ensures OverallLineV1(LineTotal(mirrored, k)) == -OverallLineV1(LineTotal(codes, k))
      ensures OverallLineV2(LineTotal(mirrored, k)) == -OverallLineV2(LineTotal(codes, k))
    {
      MirrorOverallLine(overall, k);
    }
    if ev.VersionOne? {
      SumLinesNegate(codes, mirrored, 8, OverallLineV1);
    } else {
      SumLinesNegate(codes, mirrored, 8, OverallLineV2);
      var centre := CentreBoardBonus(overall[4]);
      SumLinesShift(codes, 8, t => OverallLineV2(t) + centre, OverallLineV2, centre);
      var centre' := CentreBoardBonus(MirrorStates(overall)[4]);
      SumLinesShift(mirrored, 8, t => OverallLineV2(t) + centre', OverallLineV2, centre');
    }
  }

  /** Version two's overall centre bonus is counted once per line: eight times in all. */
  lemma CentreBonusCountedPerLine(overall: seq<GameState>)
    requires |overall| == 9
    ensures VersionTwo.EvaluateOverallBoard(overall)
         == SumLines(StateCodes(overall), 8, OverallLineV2) + 8 * CentreBoardBonus(overall[4])
    ensures overall[4] == XWin ==> VersionTwo.EvaluateOverallBoard(overall) == SumLines(StateCodes(overall), 8, OverallLineV2) + 80
    ensures overall[4] == OWin ==> VersionTwo.EvaluateOverallBoard(overall) == SumLines(StateCodes(overall), 8, OverallLineV2) - 80
  {
    var centre := CentreBoardBonus(overall[4]);
    SumLinesShift(StateCodes(overall), 8, t => OverallLineV2(t) + centre, OverallLineV2, centre);
  }

  /** The one-plus-two-blanks entries version two adds to version one's sub-board table. */
  function MiniLineExtra(total: int): int
  {
    if total == 5 then 2 else if total == 2 then -2 else 0
  }

  /** The one-plus-two-blanks entries version two adds to version one's overall table. */
  function OverallLineExtra(total: int): int
  {
    if total == 5 then 20 else if total == 2 then -20 else 0
  }

  /**
   * Version two is version one plus the one-plus-two-blanks entries and the
   * centre bonuses.
   */
  lemma VersionTwoExtendsVersionOne(cells: seq<Cell>, overall: seq<GameState>)
    requires |cells| == 9 && |overall| == 9
    ensures VersionTwo.EvaluateMiniBoard(cells)
         == VersionOne.EvaluateMiniBoard(cells) + SumLines(CellCodes(cells), 8, MiniLineExtra) + CentreCellBonus(cells[4])
    ensures VersionTwo.EvaluateOverallBoard(overall)
         == VersionOne.EvaluateOverallBoard(overall) + SumLines(StateCodes(overall), 8, OverallLineExtra)
            + 8 * CentreBoardBonus(overall[4])
  {
    SumLinesAdd(CellCodes(cells), 8, MiniLineV2, MiniLineV1, MiniLineExtra);
    SumLinesAdd(StateCodes(overall), 8, OverallLineV2, OverallLineV1, OverallLineExtra);
    CentreBonusCountedPerLine(overall);
  }
}
