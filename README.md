# Four-in-a-row engine, modelled and proved in Dafny

`HW4.py` is a small game engine for four-in-a-row on a 5 x 6 grid. Two players, X and O, take turns. A mark may only go on a blank cell next to an existing mark. Four equal marks in a row, column or diagonal win. The class `FourInARow` has five parts:
- it keeps the board;
- it detects a winner (`check_winner`, `check_direction`);
- it generates moves sorted by (column, row) (`get_available_moves`);
- it scores positions by counting open runs of two and three (`count_patterns`, `evaluate_board`);
- it picks a move by depth-limited minimax with alpha-beta pruning (`minimax`).

The model has two layers.

- **Specification functions on board values**, one module per part:
  - `Board`: cells, players, the grid value, `is_valid_move` and `make_move` as a function, and mark counts.
  - `WinCheck`: the row-major winner scan.
  - `MoveGen`: the column-then-row move scan and the stable sort by (column, row).
  - `Patterns`: the run length, its open ends, the four tallies and the heuristic.
  - `Search`: the pruned search `AlphaBeta` (`MaxLoop`/`MinLoop` are its move loops) and the unpruned reference `PlainMinimax`.
  - `SearchProofs`: what the search promises.
- **The class `Game.FourInARow`**:
  - It holds the board as an `array2<Cell>` that `MakeMove` writes in place.
  - A ghost field `cells` holds the same board as a grid value, and `Valid()` ties the two together.
  - Every method is proved, with its loop invariants, to compute a specification function on `cells`:
    - `IsValidMove` computes `ValidMove`, and `MakeMove` computes `ApplyMove`;
    - `CheckDirection` computes `FourInRow`, and `CheckWinner` computes `Winner`;
    - `AnyOccupiedAround` computes `HasOccupiedNeighbour`, and `GetAvailableMoves` computes `AvailableMoves`;
    - `RunCount` computes `RunLength`, and `IsOpen` computes `OpenEnd`;
    - `CountDirection` adds `Hit(Classify(...), k)`, `CountAnchor` adds `CellCount`, and `CountPatterns` computes `Count`;
    - `EvaluateBoard` computes `Evaluate`;
    - `Minimax` and `SearchChild` compute `AlphaBeta`, and `MaxSearch`/`MinSearch` compute `MaxLoop`/`MinLoop`.
  - Only `MakeMove` has a `modifies` clause. So `CountPatterns`, `EvaluateBoard`, `Minimax` and the scanners provably leave the receiver's board alone; the search works on fresh copies.

The two infinities that `minimax` uses for alpha, beta and the running best are the datatype `ExtInt = NegInf | Fin(n) | PosInf`.

A run whose cell just before the anchor is off the board, for example a horizontal run starting in column 0, is at most single-open (HW4.py:127-131, 140-144). `Patterns.TopRowThree` states this for X on (0, 0) to (0, 2) with (0, 3) blank.

## Model

| member | source | states |
|---|---|---|
| Board.Opponent | HW4.py:155 | The opponent of a player is the other player. |
| Board.InitialGrid | HW4.py:42-44 | The starting grid is blank everywhere except X at row 3, column 4. |
| Board.ApplyMove | HW4.py:47-54 | A move succeeds exactly when the cell is on the board and blank. On success only that cell changes, to the mover's mark. On failure the grid is unchanged. |
| Board.ApplyMoveOccurrences | HW4.py:50-54 | A successful move leaves one blank fewer and one more mark for the mover. The other player's marks stay the same. |
| Board.NoOccurrences | HW4.py:111-114 | A mark's count is zero exactly when no cell of the grid holds it. |
| WinCheck.WinnerFromNone | HW4.py:67-75 | The scan from a cell on finds nothing exactly when no anchor at or after that cell wins. |
| WinCheck.WinnerFromSome | HW4.py:67-75 | When the scan from a cell on finds a mark, the mark comes from a winning anchor at or after that cell, and no earlier anchor in that range wins. |
| WinCheck.WinnerIsFirstWinningAnchor | HW4.py:65-88 | A reported winner holds an occupied anchor with four equal marks down, right, down-right or down-left. That anchor is the first winning one in row-major order. |
| WinCheck.NoWinnerIff | HW4.py:65-88 | check_winner returns None exactly when no anchor wins. |
| WinCheck.RowTwoWins | HW4.py:65-88 | Four X marks on row 2, columns 1 to 4, make check_winner report a winner, whatever else is on the board. With no O on the board, that winner is X. |
| MoveGen.MovesFromCorrect | HW4.py:93-100 | From a (column, row) position on, the scan reports exactly the legal adjacent cells that are not before it in (column, row) order, in strictly increasing order. |
| MoveGen.AvailableMovesSoundComplete | HW4.py:90-100 | A cell is among the moves exactly when it is on the board, blank, and some cell of its edge-clipped 3 x 3 block is occupied. |
| MoveGen.AvailableMovesSorted | HW4.py:93-100 | The moves are strictly increasing in (column, row), so they have no repeats. |
| MoveGen.InsertByKeyCorrect | HW4.py:102 | Inserting a move into a list ordered by (column, row) gives an ordered list holding exactly the old elements plus that move. |
| MoveGen.SortByColumnRowCorrect | HW4.py:102 | The sort by (column, row) returns an ordered permutation of its input. |
| MoveGen.SortKeepsSorted | HW4.py:102 | The stable sort by (column, row) returns a strictly increasing list unchanged, so the sort in get_available_moves changes nothing. |
| MoveGen.AvailableMoveSucceeds | HW4.py:90-100 | make_move succeeds for every offered move, whoever plays it. |
| Patterns.Extend | HW4.py:118-124 | From step i on, the run continues at most 4 - i more cells. |
| Patterns.RunLength | HW4.py:117-124 | The forward run length `count` lies between 1 and 4. |
| Patterns.ExtendMeaning | HW4.py:118-124 | The cells counted from step i on all hold the player's mark. The first cell not counted, if it is before step 4, does not (the `break`). |
| Patterns.RunLengthMeaning | HW4.py:117-124 | Steps 1 to count - 1 hold the player's mark. When count < 4, step count is off the board or holds something else. |
| Patterns.OverlappingSubRun | HW4.py:111-124 | A run of exactly 3 has a mark at its second cell, and the run from there is exactly 2. So one physical run is scanned from two anchors. |
| Patterns.ClassifyIff | HW4.py:126-149 | Each of the four tallies, in both directions. A double-open 3 or 2 has forward length exactly 3 or 2 and both the cell before and the cell after on the board and blank. A single-open one has the same length and exactly one of those two cells open. |
| Patterns.DirsUpToBound | HW4.py:115-149 | An anchor tallies at most one run in each of the directions scanned, of one kind. |
| Patterns.CountFromBound | HW4.py:111-149 | The four tallies over the anchors from a cell on add up to at most four times the player's marks in that range. |
| Patterns.PatternsBound | HW4.py:105-151 | The four counters add up to at most four per mark of the player. |
| Patterns.NoMarksNoPatterns | HW4.py:111-114 | A player with no marks on the board gets (0, 0, 0, 0). |
| Patterns.EvaluateBounds | HW4.py:153-169 | The heuristic is at most 800 per own mark and at least -320 per opposing mark. So it is never negative when the opponent has no marks, and never positive when the player has none. |
| Patterns.TopRowThree | HW4.py:126-136 | X on (0, 0), (0, 1) and (0, 2) with (0, 3) blank is a single-open run of 3 from (0, 0). |
| Search.MaxLoop | HW4.py:186-198 | The maximizing loop never ends at +inf. Its running best is a real score once it has seen a move. |
| Search.MinLoop | HW4.py:199-211 | The minimizing loop never ends at -inf. Its running best is a real score once it has seen a move. |
| Search.PlainMax | HW4.py:186-194 | The unpruned maximizing loop never ends at +inf. Its running best is a real score once it has seen a move. |
| Search.PlainMin | HW4.py:199-207 | The unpruned minimizing loop never ends at -inf. Its running best is a real score once it has seen a move. |
| SearchProofs.AlphaBetaClamp | HW4.py:171-211 | For any window alpha < beta, the pruned score and the unpruned minimax score agree once clamped into [alpha, beta]. |
| SearchProofs.MaxLoopClamp | HW4.py:186-198 | The maximizing loop with pruning and the one without agree once clamped into the caller's window, as long as their running bests do. |
| SearchProofs.MinLoopClamp | HW4.py:199-211 | The minimizing loop with pruning and the one without agree once clamped into the caller's window, as long as their running bests do. |
| SearchProofs.MaxLoopFullWindow | HW4.py:186-198 | With beta = +inf and alpha equal to the running best, the maximizing loop returns what the unpruned loop returns: the same best and the same move. |
| SearchProofs.MinLoopFullWindow | HW4.py:199-211 | With alpha = -inf and beta equal to the running best, the minimizing loop returns what the unpruned loop returns: the same best and the same move. |
| SearchProofs.FullWindowIsMinimax | HW4.py:171-211 | With alpha = -inf and beta = +inf, the search returns exactly the score and move of plain minimax. |
| SearchProofs.LeafScores | HW4.py:178-183 | A win for the root player scores (1000, None) and a win for the opponent scores (-1000, None), at any depth, level or window. Otherwise, at the ply limit or with no moves, the result is (evaluate_board(player), None). |
| SearchProofs.MaxLoopMove | HW4.py:186-198 | The maximizing loop's move is the one it started with or one of the moves it looped over. It has a move once it has seen one from -inf. |
| SearchProofs.MinLoopMove | HW4.py:199-211 | The minimizing loop's move is the one it started with or one of the moves it looped over. It has a move once it has seen one from +inf. |
| SearchProofs.SearchMoveIsAvailable | HW4.py:185-211 | Whenever the search branches, for any window, it returns a move. The move is in get_available_moves, and make_move with it succeeds. |
| SearchProofs.PlainMaxFirstBest | HW4.py:188-194 | The unpruned maximizing loop ends with the largest child value. If it changed the move at all, the move is the first with that value, and every earlier move scores strictly less. |
| SearchProofs.PlainMinFirstBest | HW4.py:201-207 | The unpruned minimizing loop ends with the smallest child value. If it changed the move at all, the move is the first with that value, and every earlier move scores strictly more. |
| SearchProofs.MinimaxFirstBest | HW4.py:185-211 | At a branching node, plain minimax returns the first move in (column, row) order with the best child value, and that value as its score. Every child is no better, and every earlier child is strictly worse. |
| SearchProofs.SearchFirstBest | HW4.py:185-211 | The same first-best-move property for the pruned search with the full window. |
| Game.FourInARow.constructor | HW4.py:42-45 | Builds a fresh board that is blank except X at (3, 4), with O to move. |
| Game.FourInARow.Copy | HW4.py:189 | copy.deepcopy: a fresh board of its own with the same cells and the same player to move. |
| Game.FourInARow.IsValidMove | HW4.py:47-48 | True exactly when the cell is on the board and blank. |
| Game.FourInARow.MakeMove | HW4.py:50-54 | The success flag and the new board are those of ApplyMove on the old board. The array and the player to move stay the same. |
| Game.FourInARow.CheckDirection | HW4.py:77-88 | True exactly when the four cells from the anchor along the direction are on the board and hold the anchor's mark. |
| Game.FourInARow.CheckWinner | HW4.py:65-75 | Returns the winner of the board, the first winning anchor's mark in row-major order. |
| Game.FourInARow.AnyOccupiedAround | HW4.py:97-99 | True exactly when some cell of the edge-clipped 3 x 3 block is occupied. |
| Game.FourInARow.GetAvailableMoves | HW4.py:90-103 | Returns the available moves of the board, in (column, row) order. |
| Game.FourInARow.RunCount | HW4.py:117-124 | `count` is the forward run length of the player from the anchor. |
| Game.FourInARow.IsOpen | HW4.py:131-132 | True exactly when the cell is an open end: on the board and blank. |
| Game.FourInARow.CountDirection | HW4.py:115-149 | Adds one to the counter of the run's kind, in one direction, and leaves the other three counters alone. |
| Game.FourInARow.CountAnchor | HW4.py:112-149 | Adds the anchor's runs of each kind, over the four directions, to the counters. A cell not holding the player adds nothing. |
| Game.FourInARow.CountPatterns | HW4.py:105-151 | Each counter is the board's tally of that kind for the player. |
| Game.FourInARow.EvaluateBoard | HW4.py:153-169 | Returns the heuristic of the board for the player. |
| Game.FourInARow.Minimax | HW4.py:171-211 | Returns the score and move of the pruned search on the board, for the given depth, level, window, root player and ply limit. |
| Game.FourInARow.MaxSearch | HW4.py:186-198 | max_eval and best_move are those of the maximizing loop over the moves, from -inf and no move. |
| Game.FourInARow.MinSearch | HW4.py:199-211 | min_eval and best_move are those of the minimizing loop over the moves, from +inf and no move. |
| Game.FourInARow.SearchChild | HW4.py:189-191 | The score of minimax one level deeper, on a copy of the board with the move made by the mover. |

## Left out

- `print_board` (HW4.py:56-63) and `play_game` (HW4.py:213 on): console output, the `time.time()` timing and the driver loop. The ply limit is a parameter of the search.
- The class-level `nodesGenerated` counter (HW4.py:40, HW4.py:176) only counts calls and is not modelled.
- The unused `numpy` import and the `time` import are left out.
- Floating-point infinities are not modelled. `-float('inf')` and `float('inf')` become `NegInf` and `PosInf` of `ExtInt`, and a move loop that has seen a move returns a real score.
- `copy.deepcopy` becomes the constructor `Copy`, which allocates a fresh array with the same cells. Aliasing between the copy and the original is excluded because the copy is fresh.
- `DIRECTIONS` (HW4.py:33-38) becomes the functions `DirRow` and `DirCol` on the index 0 to 3, in the same order.
- The program's `' '`, `'X'` and `'O'` strings are the datatype `Cell`. Players are the two non-blank cells, so the methods do not take other values as players.
- `player_turn` is set by the constructor and copied by `Copy`. It is read only by the driver, which is not modelled.
- Game.FourInARow.Minimax: requires `depth <= plyLimit`, a precondition the program does not state. With a larger depth the Python search goes on until a win or a full board. The driver always starts at depth 0 with a ply limit of 2 or 4.
- The helper methods `AnyOccupiedAround`, `RunCount`, `IsOpen`, `CountDirection`, `CountAnchor`, `MaxSearch`, `MinSearch` and `SearchChild` split inline code of the source into methods of their own. The order and the tests of each step are unchanged.
