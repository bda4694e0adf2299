# Gomoku engine, modelled in Dafny

This project models the engine of a console/web Gomoku game (five in a row
on a 15 x 15 board) in which a human plays Black against a computer player
that plays White. It models these parts:

- **board**: the grid, the side to move, the move history, `make_move`,
  `is_valid_move`, `get_piece_at`, `check_win`, `get_valid_moves` and
  `display`.
- **win checker**: the four-direction scan through the last move.
- **positional evaluator**: run length and closed ends per stone and
  direction, turned into score tiers.
- **candidate generator**: the opening rules and the bounding box of the
  stones grown by two.
- **search**: fixed-depth minimax with alpha-beta pruning, which applies
  and undoes moves on the shared board.
- **AI player**: one search, with the centre as the fallback.
- **progress tracker**: its counters.
- **chess clock**: the time manager.
- **coordinate codec**: the `1`..`9`, `a`..`f` codec.
- **board formatter**: `format_board` and `format_move`.

There is one module per source file. The board, the search, the generator,
the AI player, the progress tracker and the clock work by changing state, so
each is a `class`. The evaluator is a `class` too, because it holds the board
it was given, but it only reads that board through accumulating loops.

- The board's numpy array is an `array2<int>` written in place. `Cells()`
  reads it as a value.
- The loops of the source are `while` loops. Each method is proved against
  a specification function:
  - the evaluator's loops against `Score`;
  - the bounds scan against `ScanBox`;
  - the search's recursion against `AlphaBeta` over `GameTree`, the tree the
    search explores.

The lemmas about those functions give the meaning of each one:

- The evaluator's half-scans count the same runs as the win checker, and a
  five-in-a-row scores the win tier.
- Exchanging colours negates the score.
- The generator lists exactly the empty cells within two rows and two
  columns of the stones, in row-major order.
- Alpha-beta is fail-soft with respect to plain minimax. So `search()`
  returns the minimax value, and the first optimal move in generator order.
- The undo does not pop `move_history`.
- The coordinate codec round-trips.
- The rendering has the header and one line per row.

Behaviour of the code as written, which the model follows:

- **Opening rules never fire.** `Board.current_player` is a `Player`, and
  `Player.__eq__` is false for anything that is not a `Player`. So the comparisons
  `current_player == 1` and `current_player == 2` in `get_valid_moves`
  never hold, and the generator always returns the constrained moves.
  - `Rules.GameRules.GetValidMovesFor` models all three branches for an
    operand of either kind.
  - `Rules.GameRules.GetValidMoves` is the call the search makes, whose
    operand is a `Player`.
- **The history keeps the search's moves.** The search undoes a move by
  writing 0 into the cell and restoring the side to move. It does not pop
  the `move_history` entry that `make_move` appended, so after a search the
  history also holds every move the search tried.
- **The search is one fixed-depth run.**
  - The computer player runs one search at its depth.
  - It answers `best_move or (7, 7)`, and returns the move without playing
    it.
  - Nothing in the code deepens iteratively, applies a time budget, stops
    early on a decisive score, or answers the first White move at random.
  - The first White reply is limited to `(7, 8)` and `(8, 8)` when empty,
    and not to the eight neighbours of the centre.
  - The model follows the code on all of these points.
- `format_board` uses the two characters U+00C2 U+00B7 for an empty cell.
  `display` uses U+00B7.

The board size is the constant `N = 15`, since every board is `Board()`.
Grid cells hold 0, 1 or 2. Wall-clock readings are the integer parameter
`now`.

## Model

| member | source | states |
|---|---|---|
| Players.PlayerType.Value | src/gomoku/board/player.py:4-6 | A side's value is 1 or 2, and it is 1 exactly for Black. |
| Players.PlayerType.Symbol | src/gomoku/board/player.py:11 | A side's symbol is one character, neither a space nor a newline, so it keeps the rendering's separators intact. |
| Players.PlayerType.Opponent | src/gomoku/board/player.py:13-14 | The opponent is the other side, and its value is 3 minus this side's value. |
| Players.OpponentInvolution | src/gomoku/board/player.py:13-14 | Taking the opponent twice gives the same side back, and a side is never its own opponent. |
| Players.FromValue | src/gomoku/board/board.py:45-50 | `PlayerType(value)` succeeds exactly for 1 and 2, and gives the side with that value. |
| Players.SymbolsDistinguishSides | src/gomoku/board/player.py:11 | Two sides show the same symbol exactly when they are the same side. |
| Players.FromValueOfValue | src/gomoku/board/player.py:4-6 | Reading back a side's value gives that side. |
| Players.PlayerEquals | src/gomoku/board/player.py:16-19 | `Player.__eq__` is true exactly when the other operand is a Player of the same type. |
| Players.PyEquals | src/gomoku/board/player.py:16-19 | Python's `==` over Players and ints holds exactly for equal operands: Players of one type, or ints of one value. A Player and an int are never equal. |
| Players.PlayerEqualsIffSameType | src/gomoku/board/player.py:16-19 | Two players are equal exactly when their types are. |
| Players.PlayerNeverEqualsInt | src/gomoku/board/player.py:16-19 | A player never equals an int, in either order of the operands. |
| Coordinates.ToIndex | src/gomoku/utils/coordinate.py:12-14 | A successful `to_index` gives an index in 0..14 whose key is the lower-cased input. |
| Coordinates.ToCoordinate | src/gomoku/utils/coordinate.py:16-18 | `to_coordinate` succeeds exactly on 0..14, with the one-character key that `hex_map` maps back to the index. |
| Coordinates.IsValidCoordinate | src/gomoku/utils/coordinate.py:20-22 | A coordinate is valid exactly when `to_index` succeeds on it, and only one-character strings are valid. |
| Coordinates.TablesAgree | src/gomoku/utils/coordinate.py:8-10 | The reverse table maps indices 0..14 to the fifteen keys in order. `hex_map` maps each key back to its index. The key set is exactly those fifteen strings. |
| Coordinates.HexMapInjective | src/gomoku/utils/coordinate.py:8-10 | `hex_map` has 15 entries, and no two keys share an index. |
| Coordinates.ToIndexValues | src/gomoku/utils/coordinate.py:12-14 | '1'..'9' give 0..8, and 'a'..'f' in either case give 9..14. |
| Coordinates.ToIndexCaseInsensitive | src/gomoku/utils/coordinate.py:12-22 | `to_index` and `is_valid_coordinate` do not distinguish a string from its lower-case form. |
| Coordinates.IndexRoundTrip | src/gomoku/utils/coordinate.py:12-18 | `to_coordinate` succeeds exactly on 0..14, and `to_index` of its result gives the index back. |
| Coordinates.CoordinateRoundTrip | src/gomoku/utils/coordinate.py:12-18 | For a valid coordinate, `to_coordinate(to_index(s))` is `s.lower()`. |
| Coordinates.ValidCoordinateIff | src/gomoku/utils/coordinate.py:12-22 | A string is a valid coordinate exactly when `to_index` succeeds, which is exactly when it is one character among 1-9, a-f and A-F. |
| Formatter.Coord | src/gomoku/utils/formatter.py:17-18 | A label is `to_coordinate` of its index: the single-character key of that index. |
| Formatter.Pad2 | src/gomoku/utils/formatter.py:23 | `f'{s:2}'` left-aligns in a field of two: a shorter string is followed by spaces up to width two, and a longer one is unchanged. |
| Formatter.HeaderShape | src/gomoku/utils/formatter.py:16-19 | The header is three spaces, then the labels 1..9 and a..f separated by single spaces. |
| Formatter.RowShape | src/gomoku/utils/formatter.py:21-28 | Row i is its label, two spaces (padding and separator), then one symbol per cell separated by spaces. A cell's symbol is the empty symbol on 0, Black's symbol on 1 and White's on 2. |
| Formatter.LinesShape | src/gomoku/utils/formatter.py:14-28 | There are N + 1 lines: the header first, then row i as line i + 1. |
| Formatter.RenderLines | src/gomoku/utils/formatter.py:12-30 | Splitting the rendering on newlines gives back the header and the N row lines, when the empty symbol has no newline. |
| Formatter.FormatMove | src/gomoku/utils/formatter.py:32-34 | `format_move` succeeds exactly for on-board cells, with three characters whose middle one is a space. |
| Formatter.FormatMoveRoundTrip | src/gomoku/utils/formatter.py:32-34 | `format_move` succeeds exactly for on-board cells. Its text is three characters, and splitting it on the space and reading each part with `to_index` gives the cell back. |
| BoardFormatters.BoardFormatter.constructor | src/gomoku/utils/formatter.py:8-10 | The formatter keeps the board it was given. |
| BoardFormatters.BoardFormatter.FormatBoard | src/gomoku/utils/formatter.py:12-30 | The lines built row by row, joined with newlines, are the rendering of the board's current grid with U+00C2 U+00B7 on empty cells. |
| BoardFormatters.BoardFormatter.FormatRows | src/gomoku/utils/formatter.py:21-28 | The row loop of `format_board` yields the lines of rows 0..14 in order, as the rendering defines them. |
| BoardFormatters.BoardFormatter.FormatRow | src/gomoku/utils/formatter.py:22-28 | Row i, built cell by cell from `get_piece_at`, is the padded label followed by each cell's symbol, joined with spaces. |
| Grids.EmptyCellsInExact | src/gomoku/ai/rules.py:60-62 | The comprehension over a row and column range lists exactly the empty cells of that rectangle, each once, in row-major order. |
| Grids.AllCellsExact | src/gomoku/ai/rules.py:49-51 | The whole-board comprehension lists exactly the empty cells of the board, in row-major order. |
| Grids.PlaceUndo | src/gomoku/ai/search.py:37-39 | Writing back the value a cell held before a move restores the grid exactly. |
| Boards.Board.constructor | src/gomoku/board/board.py:7-16 | A new board has every cell empty, an empty history and Black to move. History and stones agree. |
| Boards.Board.IsValidMove | src/gomoku/board/board.py:39-43 | A move is valid exactly when it is on the board and `get_piece_at` finds no player there. |
| Boards.Board.MakeMove | src/gomoku/board/board.py:26-43 | Success is exactly `is_valid_move`. A valid move writes the mover's value into that one cell, appends (row, col, mover) and passes the turn. An invalid one changes nothing. It preserves the history/stones agreement (one entry per stone, Black on an even count). |
| Boards.Board.GetPieceAt | src/gomoku/board/board.py:45-50 | None exactly on an empty cell; otherwise the side whose value the cell holds. |
| Boards.Board.CheckWin | src/gomoku/board/board.py:52-57 | True exactly when the cell is occupied and the win checker finds five through it for the cell's owner. |
| Boards.Board.Display | src/gomoku/board/board.py:64-81 | `display` returns the rendering of the current grid with U+00B7 on empty cells: the header, then one line per row, joined with newlines. |
| Boards.Board.DisplayRows | src/gomoku/board/board.py:71-79 | The row loop of `display` yields the lines of rows 0..14 in order, as the rendering defines them. |
| Boards.Board.DisplayRow | src/gomoku/board/board.py:72-79 | Row i, built cell by cell from `get_piece_at`, is the padded label followed by each cell's symbol, joined with spaces. |
| Boards.BoardCoordinateRoundTrip | src/gomoku/board/board.py:12-24 | `format_coordinate` succeeds exactly on 0..14 and `parse_coordinate` inverts it. A string `parse_coordinate` accepts comes back from `format_coordinate` as its lower-case form. |
| Boards.Board.GetValidMoves | src/gomoku/board/board.py:59-62 | `get_valid_moves` lists exactly the on-board empty cells, in row-major order. |
| Boards.Board.ParseCoordinate | src/gomoku/board/board.py:18-20 | `parse_coordinate` succeeds exactly on valid coordinates, with an index in 0..14. |
| Boards.Board.FormatCoordinate | src/gomoku/board/board.py:22-24 | `format_coordinate` succeeds exactly on 0..14, with a one-character label. |
| Boards.SameCellTwice | tests/test_board.py:14-17 | On a new board the first move at (7, 7) succeeds and fills the cell, and a second move there fails. |
| Boards.ValidMovesExact | src/gomoku/board/board.py:59-62 | `get_valid_moves` lists exactly the cells `is_valid_move` accepts, each once, in row-major order. |
| Boards.StoneCountPlace | src/gomoku/board/board.py:32 | A stone on an empty cell adds exactly one to the stone count. |
| WinCheck.ScanDirection | src/gomoku/board/win_checker.py:26-34 | The forward loop counts the run of the player's stones from step 1: at most four steps, stopping at the edge or the first other cell. |
| WinCheck.RunIsContiguous | src/gomoku/board/win_checker.py:26-44 | A run has at most 5 - i steps. Every counted step holds the player's stone, and a scan that stopped before the cap stopped at a cell that does not hold it. |
| WinCheck.CheckWin | src/gomoku/board/win_checker.py:11-47 | True exactly when some direction has 1 + the forward run + the backward run at least 5. |
| WinCheck.WinsLocal | src/gomoku/board/win_checker.py:23-47 | Only the cells one to four steps from the anchor on its four lines decide the verdict. |
| WinCheck.AnchorIgnored | src/gomoku/board/win_checker.py:24 | The anchor counts as one stone whatever it holds. |
| WinCheck.FiveInRowWins | tests/test_board.py:19-23 | Five black stones at (7,0)..(7,4), checked at (7,4), win. |
| Evaluator.Tier | src/gomoku/ai/evaluator.py:56-73 | The win tier 100000 is scored exactly for runs of five or more. Runs of one, and runs shorter than five with both ends closed, score 0. An open four scores 10000. |
| Evaluator.WalkIsRun | src/gomoku/ai/evaluator.py:27-54 | A half-scan counts the same run as the win checker. It is closed at most once, and exactly when it stopped before the cap at an off-board or occupied cell. |
| Evaluator.LineCounts | src/gomoku/ai/evaluator.py:23-58 | The count a line's tier is chosen by is 1 to 9, and its closed-end tally is 0 to 2. |
| Evaluator.WinTierIffLineWins | src/gomoku/ai/evaluator.py:56-58 | A line through a stone scores the win tier exactly when the win checker sees five on it. |
| Evaluator.WinnerReachesWinTier | src/gomoku/ai/evaluator.py:8-75 | If a stone completes five in a row, its owner's total is at least 100000. |
| Evaluator.EmptyBoardScoresZero | src/gomoku/ai/evaluator.py:8-75 | A fresh board evaluates to 0. |
| Evaluator.OneSidedSign | src/gomoku/ai/evaluator.py:14-15 | With no Black stone the score is never negative, and with no White stone it is never positive. |
| Evaluator.ScoreSwap | src/gomoku/ai/evaluator.py:8-75 | Exchanging the colour of every stone negates the score. |
| Evaluator.PositionEvaluator.constructor | src/gomoku/ai/evaluator.py:5-6 | The evaluator reads the board it was given. |
| Evaluator.PositionEvaluator.ScanHalf | src/gomoku/ai/evaluator.py:27-54 | One `range(1, 5)` scan adds to count and blocked exactly what the half-scan finds. |
| Evaluator.PositionEvaluator.AddStone | src/gomoku/ai/evaluator.py:20-73 | The direction loop adds the stone's four line tiers, with the player's sign. |
| Evaluator.PositionEvaluator.AddRow | src/gomoku/ai/evaluator.py:18-73 | The column loop adds the signed contribution of every stone of the player in the row. |
| Evaluator.PositionEvaluator.Evaluate | src/gomoku/ai/evaluator.py:8-75 | `evaluate` returns `Score`: over every stone and each of the four directions, the tier of its line, White's positive and Black's negative. |
| Rules.ScanBoxTight | src/gomoku/ai/rules.py:33-45 | The bounds scan finds None exactly when no stone has been passed. Otherwise it finds the bounds of the passed stones, with each side attained by a stone. |
| Rules.NearIffInGrown | src/gomoku/ai/rules.py:53-57 | A cell lies within two rows and two columns of the stones exactly when it is inside their bounding box grown by two and clipped. |
| Rules.ConstrainedMovesExact | src/gomoku/ai/rules.py:30-62 | On a board without stones the result is every empty cell (N*N of them). Otherwise it is exactly the empty cells near the stones. Either way each cell appears once, in row-major order. |
| Rules.MovesNearStones | src/gomoku/ai/rules.py:53-62 | With stones on the board, the result lists exactly the empty cells near them, in row-major order. |
| Rules.MovesWithoutStones | src/gomoku/ai/rules.py:47-51 | With no stones, the result lists exactly the empty cells, in row-major order. |
| Rules.EmptyBoardAllCells | src/gomoku/ai/rules.py:47-51 | On a board without stones all 225 cells are listed. |
| Rules.EmptyAmong | src/gomoku/ai/rules.py:21-25 | The White opening keeps exactly the empty candidates, in order. |
| Rules.GameRules.constructor | src/gomoku/ai/rules.py:5-8 | Both opening flags start false. |
| Rules.GameRules.GetConstrainedMoves | src/gomoku/ai/rules.py:30-62 | The scan-then-comprehension code returns the constrained move list. |
| Rules.GameRules.GetValidMovesFor | src/gomoku/ai/rules.py:10-28 | The branches are taken in the source's order. An operand equal to 1 with its flag clear gives `[(7, 7)]` and sets that flag. An operand equal to 2 with the White flag clear gives the empty openings among (7,8) and (8,8), and sets that flag. Anything else gives the constrained moves and keeps both flags. |
| Rules.GameRules.GetValidMoves | src/gomoku/ai/rules.py:10-28 | With the board's `Player` as operand: always the constrained moves, with both flags unchanged. |
| ExtInts.MaxE | src/gomoku/ai/search.py:43 | `max` returns one of its operands, and that operand bounds both. |
| ExtInts.MinE | src/gomoku/ai/search.py:61 | `min` returns one of its operands, and that operand is bounded by both. |
| Search.CandidatesPlayable | src/gomoku/ai/search.py:31-35 | Every candidate is an empty cell on the board, so each `make_move` of the search succeeds. |
| Search.GameTreeNode | src/gomoku/ai/search.py:20-27 | At depth >= 1 the position is a node for the side to move, with one branch per candidate. |
| Search.GameTreeMoves | src/gomoku/ai/search.py:24-31 | A node's branches carry the generator's moves, in order. |
| Search.BranchTree | src/gomoku/ai/search.py:31-36 | Branch k's move is an empty cell. Its subtree is the tree of the position after the side to move plays it, one level down, with the other side to move. |
| Search.AlphaBetaSound | src/gomoku/ai/search.py:18-64 | Each call with a non-empty window is fail-soft with respect to plain minimax: exact inside the window, an upper bound at or below alpha, a lower bound at or above beta. |
| Search.MaxLoopSound | src/gomoku/ai/search.py:29-46 | The maximising loop returns a fail-soft value. Its best move is preceded only by strictly worse children, and is exact when the value is inside the window. |
| Search.MinLoopSound | src/gomoku/ai/search.py:47-64 | The same for the minimising loop. |
| Search.SearchIsMinimax | src/gomoku/ai/search.py:13-16 | With the full window the search returns the plain minimax value. |
| Search.RootBestIsFirstOptimal | src/gomoku/ai/search.py:29-46 | At a root with candidates, the best move is the first branch, in generator order, that attains the root's minimax value. Every earlier branch is strictly worse, which is the strict `>` tie-break. |
| Search.HistoryNotRestored | src/gomoku/ai/search.py:33-39 | A leaf or an empty node leaves no history entry and no best move. A node with candidates leaves at least one entry: the first candidate, played by the side to move. |
| Search.MinimaxSearch.constructor | src/gomoku/ai/search.py:6-11 | The search keeps the board, evaluator and depth. It starts with 0 nodes and a fresh generator on the same board, both flags clear. |
| Search.MinimaxSearch.Minimax | src/gomoku/ai/search.py:18-64 | Returns the value and best move of `AlphaBeta` on the current position's tree. Cells and side to move are put back. The history grows by the outcome's entries, and the node counters by its leaves. |
| Search.MinimaxSearch.Candidates | src/gomoku/ai/search.py:24 | The generator's list is the list of the tree's branch moves. It leaves the opening flags alone. |
| Search.MinimaxSearch.Explore | src/gomoku/ai/search.py:31-39 | Play, recurse, undo: the child's value, the board put back, the move's entry and the child's entries appended. |
| Search.MinimaxSearch.Descend | src/gomoku/ai/search.py:35-36 | After `make_move` and the recursive call, the board holds the move and the other side is to move. History and counters are grown. |
| Search.MinimaxSearch.Undo | src/gomoku/ai/search.py:37-39 | Writes 0 into the cell and restores the saved side to move. The history stays as it is. |
| Search.MinimaxSearch.MaxPass | src/gomoku/ai/search.py:31-45 | One pass of the maximising loop leaves what `MaxLoop` says remains: the outcome on a cut-off, else the loop from the next branch. |
| Search.MinimaxSearch.MinPass | src/gomoku/ai/search.py:49-63 | The same for the minimising loop. |
| Search.MinimaxSearch.MaximizeOver | src/gomoku/ai/search.py:28-46 | The maximising loop computes `AlphaBeta`'s value, best move, history and leaf count. |
| Search.MinimaxSearch.MinimizeOver | src/gomoku/ai/search.py:47-64 | The minimising loop computes `AlphaBeta`'s value, best move, history and leaf count. |
| Search.MinimaxSearch.Search | src/gomoku/ai/search.py:13-16 | Returns the plain minimax value of the position's tree and the pruned search's best move. Cells, side to move and flags are as before. History and counters grow as the search dictates. |
| Progress.ProgressTracker.constructor | src/gomoku/ai/progress.py:5-12 | Every counter is 0, there is no best move, and the best score is minus infinity. |
| Progress.ProgressTracker.Start | src/gomoku/ai/progress.py:14-23 | Every counter is reset, the total is recorded and the start time is `now`. |
| Progress.ProgressTracker.Update | src/gomoku/ai/progress.py:25-30 | Records the move index, depth, best move and score, and nothing else. |
| Progress.ProgressTracker.IncrementNodes | src/gomoku/ai/progress.py:32-34 | One more node, and nothing else changes. |
| AIPlayers.ChoiceIsFirstOptimal | src/gomoku/ai/player.py:35-40 | The centre is answered when the depth is 0 or the generator is empty. Otherwise the answer is an empty cell: the first candidate whose minimax value is the root's value. |
| AIPlayers.AIPlayer.constructor | src/gomoku/ai/player.py:9-14 | Keeps board and depth, plays White, and has a fresh evaluator on the board and a fresh tracker at 0. |
| AIPlayers.AIPlayer.MakeMove | src/gomoku/ai/player.py:16-40 | Answers the search's choice on the position as it was. The grid and side to move are as before. The tracker has counted the search's leaves, and the history holds the search's entries. |
| AIPlayers.AIPlayer.StartTracker | src/gomoku/ai/player.py:18-19 | The tracker restarts at `now` with its node counter at 0. |
| AIPlayers.AIPlayer.SearchOnce | src/gomoku/ai/player.py:21-35 | One search whose leaves count on the tracker: its best move, with the board put back. |
| TimeManagers.TimeManager.constructor | src/gomoku/game/time_manager.py:8-15 | Both players are at the limit, Black is on move, and the turn starts at `now`. |
| TimeManagers.TimeManager.SwitchPlayer | src/gomoku/game/time_manager.py:17-25 | Switching to the player on move changes nothing. On a real switch the outgoing player's stored time becomes what `get_time_remaining` showed at `now`, and the turn restarts at `now` and is handed over. The other entry is kept. No stored time grows when the limit is at least 0 and the clock does not go back. |
| TimeManagers.TimeManager.GetTimeRemaining | src/gomoku/game/time_manager.py:27-36 | The player on move reads never below 0: it is the stored time less the elapsed seconds when those do not exceed it, and never above a stored time of at least 0. The other player reads the stored time. Once the running turn has used up the stored time, the mover reads 0. |
| TimeManagers.TimeManager.GetTimeState | src/gomoku/game/time_manager.py:38-43 | The player not on move reads the stored time, and the player on move never reads below 0. |
| TimeManagers.TimeManager.Reset | src/gomoku/game/time_manager.py:45-52 | Both players are back at the limit, Black is on move, and the turn starts at `now`. |

## Left out

- Console and web I/O are not modelled. That covers `print` in the tracker and in the computer player, and `get_progress_message` and `finish`, which only format text.
- The source files game.py, config.py, main.py, webapp.py and static/js/game.js are not part of this model.
- Wall-clock readings are the integer parameter `now`. `time.time()` is a float, and its `int(elapsed)` truncation is not modelled, so `now` is taken as whole seconds already.
- TimeManagers.TimeManager.GetTimeState: uses one reading `now` for both players, whereas the source reads the clock once per player.
- TimeManagers.TimeManager.GetTimeRemaining: the "never above the stored time" clause assumes a clock that does not run backwards and a stored time of at least 0. A negative time limit is accepted and the model carries it through.
- TimeManagers.TimeManager.SwitchPlayer: the "no stored time grows" clause assumes a time limit of at least 0.
- AIPlayers.AIPlayer.StartTracker: does not state that the tracker's total is the number of empty cells. Stating it ties the method to the full board scan and makes the proof too costly.
- AIPlayers.AIPlayer.SearchOnce: the `lambda: self.evaluator.evaluate()` and the wrapped evaluator that bumps the tracker are a nullable tracker reference on the search object, not a replaceable function. The search bumps that tracker at each leaf, before it evaluates.
- Search.MinimaxSearch.Minimax: the depth is a natural number. A negative depth is not modelled. In the source it never reaches 0, so the search goes on playing moves until the board is full.
- The board size is fixed at 15. `Board(size)` with another size is not modelled, since every board in the program uses the default.
- Grid cells hold only 0, 1 and 2. The core only ever writes 0 or a player's value into the array.
- Numpy's negative indexing is not modelled. Every index the core uses is checked to be on the board first.
- Coordinates.Lower: folds only ASCII A-Z, not the full Unicode lower-casing of `str.lower`. Only the single characters whose lower-case form is a key matter to the codec, and the model takes those to be A-F.
- Float scores and `float('inf')` are integers extended with two infinities (`ExtInts.ExtInt`). Move scores are always integers.
- `Board.display` and `format_board` are loops whose results are stated as the shared rendering `Formatter.Render`. The properties of the text (its lines, the header, each row) are lemmas about that function.
- The board's own `hex_map` and `reverse_hex_map` are not separate tables. They hold the same entries as those of `CoordinateConverter`, so `Board.ParseCoordinate` and `Board.FormatCoordinate` use the `Coordinates` tables.
