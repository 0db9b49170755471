# Ultimate Tic-Tac-Toe engine, modelled and verified in Dafny

This project models the core of an Ultimate Tic-Tac-Toe engine. The board has
nine 3x3 sub-boards. A move sends the opponent to the sub-board whose index
equals the cell just played. When that sub-board is already decided, the
opponent may play in any open sub-board. The engine has three parts, and the
model covers each of them.

- **Board** (`game_board.dfy`, module `GameBoard`).
  - `NineBoard` is a class with the source's four fields: the cells, the cached
    result per sub-board, the player to move and the forced sub-board.
    `MakeMove`, `UndoMove` and `UpdateGameState` change these fields in place.
    `Actions` builds the move list with the source's nested loops.
  - Every method is proved against a pure specification over a `Position`
    value, which is a snapshot of the four fields. `Play` specifies
    `make_move`, `Unplay` specifies `undo_move` and `LegalMoves` specifies
    `actions()`. `MiniBoardResult` and `OverallResult` are the line scans.
  - The cache invariant (`CacheValid`) says that every cached result equals the
    scan of its sub-board's cells.
- **Static evaluation** (`evaluation.dfy`, module `Evaluation`).
  - The two evaluators are the datatype `Evaluator = VersionOne | VersionTwo`,
    and their scoring functions are pure functions over line sums.
  - In game_board.py the enums `CellState` and `GameState` carry the strings
    'X', 'O', ' ' and 'D'. The evaluators add board entries and compare the
    sums with 15, 6, 10 and 4, so they are written for a numeric board.
  - The model uses the numbers those thresholds imply. Cells are X = 5, O = 2,
    Empty = 0. Sub-board results are XWin = 5, OWin = 2, Ongoing = 0.
  - Those thresholds imply no number for Draw, so the model picks 7. No sum of
    three codes that contains a 7 hits any scoring threshold. No lemma depends
    on this choice: the overall-board mirror lemma excludes Draw.
- **Minimax with alpha-beta** (`minimax.dfy`, module `MiniMax`).
  - `MiniMaxPlayer.MaxValue` and `MinValue` recurse over one shared `NineBoard`
    through `MakeMove`/`UndoMove`. `XDecision` and `ODecision` are the root
    loops.
  - `math.inf` is the sentinel `Infinity = 100000`, which is larger than every
    evaluation (the bound is 1627).
  - The methods are proved fail-soft against the plain depth-limited search
    `Minimax`. With the full window the result is exactly the minimax value,
    and the root decision is the first best action.
- **MCTS bookkeeping** (`mcts.dfy`, module `MCTS`).
  - The tree is an arena: a `SearchTree` object holds a sequence of `Node`
    values with the root at index 0. Parent and child references are indices
    into that sequence.
  - `Expand` adds the first untried action as a child, and `Backpropagate`
    walks the parent chain with alternating rewards.
  - The tree invariant `TreeOk` says:
    - parents come before their children;
    - every child's board is its parent's board with the child's move played;
    - child moves are legal and distinct;
    - every node is listed in its parent's children.
    Both operations keep it.
- **Random player** (`random_player.dfy`, module `RandomPlay`). The random
  choice becomes an index parameter `pick`.

`Wrappers.Option` stands for Python's `None`. Rewards are Dafny `real`s; the
values 0, 1/2 and 1 are exact.

`undo_move` is not an exact inverse of `make_move`: it sets the forced
sub-board to the undone move's sub-board (game_board.py:48).
`UndoRestoresIff` proves that the round trip restores the whole board exactly
when the earlier forced sub-board was that sub-board. Minimax therefore only
promises that the cells, results and player to move come back (`SameButNext`).
The two evaluator classes are the two cases of `Evaluator`. The rule that keeps
the first strictly best entry of a list (module `Choice`, `choice.dfy`) is
shared by the minimax root loops and the final MCTS choice.

## Model

| member | source | states |
|---|---|---|
| GameBoard.FirstWinSpec | game_board.py:115-120 | The line scan from line k finds nothing iff no later line is uniformly either mark; otherwise it returns the mark of the first such line |
| GameBoard.FirstWinUnique | game_board.py:89-94 | The scan returns a mark iff some line is uniformly that mark and no earlier line is uniform; it returns nothing iff no line is uniform |
| GameBoard.MiniBoardResultSpec | game_board.py:112-125 | A sub-board is Ongoing iff no line is won and an empty cell remains, Draw iff no line is won and it is full, and XWin/OWin iff the first uniform line is X's/O's |
| GameBoard.OverallResultSpec | game_board.py:88-99 | The game result is XWin/OWin iff the first uniform line of sub-board results is XWin/OWin, Ongoing iff no line is won and a sub-board is Ongoing, and Draw otherwise |
| GameBoard.MiniBoardResult | game_board.py:112-125 | Computes a sub-board's result: the owner of the first uniform line, else Ongoing while an empty cell remains, else Draw (characterised by MiniBoardResultSpec) |
| GameBoard.OverallResult | game_board.py:88-99 | Computes the game result from the nine sub-board results: XWin/OWin for the first uniform line, else Ongoing while a sub-board is Ongoing, else Draw (characterised by OverallResultSpec) |
| GameBoard.IsTerminal | game_board.py:84-85 | The game is over iff the overall result is not Ongoing |
| GameBoard.Initial | game_board.py:23-27 | A new board satisfies the cache invariant (all cells Empty, all results Ongoing, X to move, no forced sub-board) |
| GameBoard.Play | game_board.py:35-40 | Playing a move keeps a board well formed |
| GameBoard.Unplay | game_board.py:43-48 | Undoing a move keeps a board well formed |
| GameBoard.PlayEffect | game_board.py:35-40 | make_move writes the mover's mark at (b, c), leaves every other cell and every other sub-board result unchanged, rescans sub-board b, hands the turn to the other player and forces sub-board c |
| GameBoard.PlayKeepsCache | game_board.py:69-70 | make_move and undo_move both keep every cached sub-board result equal to the scan of its cells |
| GameBoard.UnplayAfterPlay | game_board.py:43-48 | undo_move right after make_move on an empty cell restores cells, results and player exactly, with the forced sub-board set to b |
| GameBoard.UndoRestoresIff | game_board.py:48 | The make/undo round trip restores the whole board iff the forced sub-board was already b |
| GameBoard.PlayIgnoresNext | game_board.py:35-40 | The board after make_move does not depend on the forced sub-board before it |
| GameBoard.LegalMovesSpec | game_board.py:51-66 | actions() lists exactly the empty cells of Ongoing sub-boards, restricted to the forced sub-board when it is Ongoing, in ascending (sub-board, cell) order |
| GameBoard.LegalMoves | game_board.py:51-66 | Computes the actions() list: the empty cells of the forced sub-board when it is Ongoing, else the empty cells of every Ongoing sub-board, in scan order (characterised by LegalMovesSpec) |
| GameBoard.LegalMoveIsOpen | game_board.py:51-66 | Every listed action is an empty cell of an Ongoing sub-board |
| GameBoard.NonTerminalHasMoves | game_board.py:51-66 | Under the cache invariant, a board whose result is Ongoing has at least one action |
| GameBoard.PlayFillsOneCell | game_board.py:35-36 | A move on an empty cell lowers the number of empty cells by exactly one |
| GameBoard.LegalPlay | game_board.py:51-66 | A listed action is a valid empty cell, playing it keeps the board searchable, and it strictly lowers the empty-cell count |
| GameBoard.NineBoard.constructor | game_board.py:23-32 | The new board's fields are the initial board and satisfy the invariant |
| GameBoard.NineBoard.MakeMove | game_board.py:35-40 | The new fields are the old snapshot with the move played; the invariant is kept |
| GameBoard.NineBoard.UndoMove | game_board.py:43-48 | The new fields are the old snapshot with the move undone; the invariant is kept |
| GameBoard.NineBoard.Actions | game_board.py:51-66 | The nested loops return exactly the legal-move list of the current board |
| GameBoard.NineBoard.UpdateGameState | game_board.py:69-70 | Only the result of sub-board b changes, to the scan of its cells |
| GameBoard.NineBoard.UpdateMiniBoardGameState | game_board.py:112-125 | The loop over the eight lines returns the sub-board's scan result |
| GameBoard.NineBoard.Result | game_board.py:88-99 | The loop over the eight lines returns the overall result of the cached sub-board results |
| GameBoard.NineBoard.Terminal | game_board.py:84-85 | Returns true iff the overall result is not Ongoing |
| GameBoard.NineBoard.Copy | game_board.py:102-109 | Returns a fresh board equal to this one in all four fields |
| Evaluation.MiniBoardBounds | evaluation.py:16-82 | A sub-board scores within [-80, 80] under version one and within [-83, 83] under version two, whatever its cells |
| Evaluation.Evaluator.EvaluateMiniBoard | evaluation.py:60-82 | Sums the line table over the eight lines of a sub-board (version two adds the one-mark entries and the +-3 centre bonus); bounds, mirror symmetry and the version two decomposition are proved about it |
| Evaluation.OverallBoardBounds | evaluation.py:32-107 | The overall board scores within [-800, 800] under version one and within [-880, 880] under version two |
| Evaluation.Evaluator.EvaluateOverallBoard | evaluation.py:85-107 | Sums the line table over the eight lines of the sub-board results (version two adds the one-mark entries and the centre bonus inside the loop) |
| Evaluation.SumMiniBoardsBounded | evaluation.py:12 | The sum over n sub-boards lies within n times the per-sub-board bound |
| Evaluation.EvaluateBounded | evaluation.py:11-13 | evaluate (the sum of the nine sub-board scores plus the overall score) lies within the evaluator's bound (1520 or 1627) |
| Evaluation.Evaluator.Evaluate | evaluation.py:11-13 | The nine sub-board scores plus the overall-board score |
| Evaluation.EmptyScoresZero | evaluation.py:16-45 | An all-empty sub-board and an all-Ongoing overall board score 0 under both versions |
| Evaluation.SumMiniBoardsZero | evaluation.py:12 | The sum of the scores of empty sub-boards is 0 |
| Evaluation.InitialScoresZero | evaluation.py:55-57 | The board of a new game evaluates to 0 under both versions |
| Evaluation.MirrorLine | evaluation.py:19-27 | Swapping X and O in a line negates its contribution under both versions' sub-board and overall tables (15, 10, 5 map to 6, 4, 2 and back) |
| Evaluation.MirrorMiniBoard | evaluation.py:60-82 | Swapping X and O in a sub-board negates its score under both versions, centre bonus included |
| Evaluation.MirrorStateLine | evaluation.py:35-43 | Swapping XWin and OWin in a line maps the scored sums onto their negated counterparts |
| Evaluation.MirrorOverallLine | evaluation.py:87-100 | Each line's overall score is negated by swapping XWin and OWin |
| Evaluation.MirrorOverallBoard | evaluation.py:85-107 | Swapping XWin and OWin on a board without Draw negates the overall score under both versions |
| Evaluation.CentreBonusCountedPerLine | evaluation.py:101-105 | Version two's overall score is its line sum plus eight times the centre bonus: +80 when the centre sub-board is XWin, -80 when it is OWin |
| Evaluation.VersionTwoExtendsVersionOne | evaluation.py:60-107 | Version two's scores equal version one's plus the +-2/+-20 one-mark extras and the centre bonuses |
| MiniMax.BestSpec | minimax.py:17-22 | The running max (min) is -inf (+inf) on no actions; no value beats it; and when every value lies within the sentinels it is the value at the index the root loop keeps |
| Choice.ArgBestSpec | minimax.py:59-61 | The index kept by the strict-improvement rule holds a best value and every earlier index is strictly worse, so ties keep the earliest |
| MiniMax.MinimaxBounded | minimax.py:13-44 | The plain minimax value lies within the evaluator's bound at every depth |
| MiniMax.ChildValueAt | minimax.py:18-20 | The i-th child value is the opponent's minimax value after the i-th action, and is bounded |
| MiniMax.UndoAfterSearch | minimax.py:19-21 | undo_move after a search of the child restores the parent board except for the forced sub-board |
| MiniMax.SentinelsUnreached | minimax.py:17 | The minimax value lies strictly between the -inf and +inf sentinels |
| MiniMax.FullWindowExact | minimax.py:51-52 | With the full window (-inf, +inf), a fail-soft result is exactly the minimax value |
| MiniMax.MiniMaxPlayer.constructor | minimax.py:8-11 | The player keeps its evaluator and its default depth, which is 6 when none is given |
| MiniMax.MiniMaxPlayer.TryMove | minimax.py:19-21 | One make_move/search/undo_move step restores the board except the forced sub-board, and its score is fail-soft for that child's minimax value |
| MiniMax.MiniMaxPlayer.MaxValue | minimax.py:13-27 | At a finished board or depth 0 it returns the evaluation exactly; otherwise the alpha-beta search for X is fail-soft for the plain minimax value in the window (alpha, beta); cells, results and player are left as they were |
| MiniMax.MiniMaxPlayer.MinValue | minimax.py:30-44 | At a finished board or depth 0 it returns the evaluation exactly; otherwise the alpha-beta search for O is fail-soft for the plain minimax value in the window (alpha, beta); cells, results and player are left as they were |
| MiniMax.MiniMaxPlayer.XDecision | minimax.py:47-68 | Returns no move iff there are no actions; otherwise the first action with the greatest minimax value; the board is restored except the forced sub-board |
| MiniMax.MiniMaxPlayer.ODecision | minimax.py:71-92 | Returns no move iff there are no actions; otherwise the first action with the least minimax value; the board is restored except the forced sub-board |
| MiniMax.MiniMaxPlayer.MakeDecision | minimax.py:94-95 | Maximises when X is to move and minimises otherwise, with the root-decision guarantees above |
| MCTS.NewNode | mcts.py:8-14 | A new node has no children, no visits and score 0 |
| MCTS.ChildMovesLegal | mcts.py:66-71 | In a search tree the children's moves are distinct legal actions of the node's board |
| MCTS.FullyExpandedSpec | mcts.py:25-26 | A node never has more children than actions, and fully_expanded holds iff every action has a child |
| MCTS.FullyExpanded | mcts.py:25-26 | A node is fully expanded iff it has as many children as its board has actions (characterised by FullyExpandedSpec) |
| MCTS.FirstNotIn | mcts.py:67-68 | A found action is one of the actions and not an existing child move |
| MCTS.FirstNotInSpec | mcts.py:67-71 | Nothing is found iff every action is an existing move; otherwise the found action is the first one that is not |
| MCTS.Untried | mcts.py:62-72 | The action expand picks is always a legal action of the node's board |
| MCTS.UntriedSpec | mcts.py:62-72 | expand picks nothing iff the board is terminal or the node is fully expanded; otherwise the first action without a child |
| MCTS.GrowKeepsTree | mcts.py:16-19 | Adding a child for an untried legal action, with the parent's board and that move played, keeps the tree invariant |
| MCTS.Updated | mcts.py:21-23 | update adds one visit and the reward to the score and changes nothing else |
| MCTS.AlternateParity | mcts.py:93 | The reward after d flips is r for even d and 1 - r for odd d |
| MCTS.ChainSpec | mcts.py:89-92 | The parent walk starts at the given node, ends at the root, and visits strictly decreasing indices, so each node at most once |
| MCTS.BackpropShape | mcts.py:89-93 | backpropagate changes only counters: boards, parents, moves and children are kept |
| MCTS.Backprop | mcts.py:89-93 | The arena after backpropagate: each node on the parent chain updated in turn with the reward flipped at every step; keeps the number of nodes (characterised by BackpropEffect and BackpropElsewhere) |
| MCTS.BackpropEffect | mcts.py:89-93 | The d-th node on the parent chain is updated once with the reward flipped d times |
| MCTS.BackpropElsewhere | mcts.py:89-93 | Nodes off the parent chain are untouched |
| MCTS.GrowKeepsScores | mcts.py:7-18 | A new child starts with 0 visits and score 0, so adding it keeps every node's 0 <= score <= visits |
| MCTS.BackpropKeepsScores | mcts.py:89-93 | With a reward in [0, 1], every node keeps 0 <= score <= visits |
| MCTS.BackpropKeepsTree | mcts.py:89-93 | backpropagate keeps the tree invariant |
| MCTS.BackpropVisitsRoot | mcts.py:89-93 | Every backpropagation adds exactly one visit to the root |
| MCTS.RewardSpec | mcts.py:79-87 | The reward is 1/2 iff the result is Draw, 1 iff the player not to move has won, and 0 otherwise; for a finished game the two players' rewards add up to 1 |
| MCTS.Reward | mcts.py:79-87 | The playout reward: 1/2 on Draw, 1 on XWin with O to move or OWin with X to move, 0 otherwise (characterised by RewardSpec) |
| MCTS.DecisionSpec | mcts.py:53 | No move iff the root has no children; otherwise the move of a child whose visits no child exceeds and that every earlier child falls short of |
| MCTS.Decision | mcts.py:53 | The move of the first root child with the most visits, none without children (characterised by DecisionSpec) |
| MCTS.DecisionLegal | mcts.py:53 | In a search tree, the decided move is a legal action of the root board |
| MCTS.SearchTree.constructor | mcts.py:44 | The new tree holds only the root node for the given board |
| MCTS.SearchTree.AddChild | mcts.py:16-19 | Appends one child of node i with the given board and move, registers it with its parent, and returns its index |
| MCTS.SearchTree.Update | mcts.py:21-23 | Node i is replaced by its updated version; every other node is kept |
| MCTS.SearchTree.ExistingMoves | mcts.py:66 | The comprehension over the children returns exactly the children's moves, in order |
| MCTS.SearchTree.Expand | mcts.py:62-72 | Returns the node itself and changes nothing when no action is untried; otherwise appends one child for the first untried action, with the node's board and that move played; keeps the tree invariant, and keeps every score within its visit count |
| MCTS.SearchTree.Backpropagate | mcts.py:89-93 | The loop over parent links leaves exactly the nodes of the specification walk (each chain node updated once, alternating rewards, others kept) |
| RandomPlay.RandomPlayer.MakeDecision | random_player.py:7-12 | Returns no move iff there are no actions; otherwise one of the actions |

## Left out

- game_board.py `display_board` and `play_game`: printing, wall-clock timing and calls into the players.
- The "lite" rule set: the board constructor modelled here takes no such flag.
- Evaluation.CellCode: the source's `CellState` and `GameState` are string-valued enums (game_board.py:5-20), and evaluation.py:19, 35, 63 and 88 add their members, which Python refuses with a `TypeError`. The evaluators as written cannot run on the source's own board. The model instead scores the numeric board that the thresholds imply (X = 5, O = 2, Empty = 0 for cells; XWin = 5, OWin = 2, Ongoing = 0 for results).
- `__str__` of the two enums: only used for printing.
- Player names: they only label players in tournaments.
- mcts.py `best_child` (UCB1), `select`, the clock loop of `make_decision`, the random playout of `simulate`, `test_c_values` and `__main__`. These rely on floating-point `log`, square roots, wall-clock time and randomness. `Reward` models the reward mapping at the end of `simulate`, and `Decision` models the final choice of `make_decision`.
- MCTS nodes hold board snapshots (`Position` values) rather than `NineBoard` objects. Python's `copy()` followed by `make_move` becomes `Play` on the parent's value, so a child's board can never alias its parent's. Node references are arena indices rather than object pointers.
- MCTS.Decision: returns no move when the root has no children, where Python's `max` over an empty list raises.
- random_player.py: `random.choice` is the parameter `pick`, and the move chosen is the action at index `pick` modulo the number of actions.
- minimax.py `__main__`: the game loop and timing.
- GameBoard.NineBoard.MakeMove: requires only that the target cell is empty, not that the move is in `actions()`. The code checks nothing, and the minimax loops replay moves after `undo_move` has overwritten the forced sub-board.
- MCTS.SearchTree.Backpropagate: requires only that parents come before children rather than the whole tree invariant. The walk needs nothing more, and `BackpropKeepsTree` proves that the invariant is kept.
- MiniMax.MiniMaxPlayer.TryMove: this is not a separate function in the source. It is the make/search/undo step that appears inline in all four search loops.
- Evaluation.StateCode: the thresholds imply no number for `DRAW`; the code 7 is a modelling choice, and no lemma depends on it.
