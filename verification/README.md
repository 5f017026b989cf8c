# 2048 game engine, modelled in Dafny

This project models the game engine of a 2048 puzzle. The engine is in
`exam/exam_game_2048.py`. It has four parts:

- A 4×4 board whose cells are empty (`None`) or hold an integer, plus a score
  (`GameLogic`).
- A move engine:
  - `merge_row` drops the gaps in a row, merges equal neighbours in one
    left-to-right pass, adds the merged values to the score and pads the row
    with empty cells.
  - `move_left` applies `merge_row` to every row.
  - `rotate` turns the board a quarter clockwise.
  - `GameView.on_move` builds Right, Up and Down out of quarter turns around
    one `move_left`.
- The end-of-game test `can_move`, the tile spawn `place_new_tile` and `reset`.
- The best-score ledger: at most five scores, highest first (`save_result`,
  `load_best_scores`).

Files:

- `merge.dfy` (module `RowMerge`): `merge_row` as functions over a row, with
  its properties as lemmas.
- `board.dfy` (module `Board`): the board, the quarter turn, the move to the
  left over all rows, the four directions exactly as `on_move` composes them,
  and the `can_move` test. Lemmas state what each direction does to every line
  and what happens on a board with no move left.
- `ledger.dfy` (module `Ledger`): the sort-highest-first-and-keep-five
  normalisation shared by loading and saving, with its properties.
- `game.dfy` (module `Game`): the classes `GameLogic` and `GameView`. Their
  methods change `board`, `score` and `bestScores` in place, with loops as in
  the source. Each method is proved against the functions above.

The model follows the code where it differs from classic 2048:

- `on_move` places a new tile after every move, even one that changed nothing
  (`exam/exam_game_2048.py:175`). The flag that `move_left` returns is ignored.
- `reset_game` only clears the board and the score. It places no tiles
  (`exam/exam_game_2048.py:49-51`, `181-183`). Only the main window's start-up
  places the first two tiles.
- After the game is over, every further key press still runs `on_move`. No
  tile is placed, the end-of-game test fails again and `save_result` appends
  the same final score once more (`exam/exam_game_2048.py:175-179`), so one
  game's score can fill the ledger (`StuckMoveRepeats`).
- Loading the best scores tolerates only a missing file. Other unreadable
  content raises an error (`exam/exam_game_2048.py:111-117`).
- Nothing forces tile values to be powers of two, so the board holds arbitrary
  integers. That tiles stay powers of two of at least 2 (`TilesValid`) is proved
  as a preserved property. It is not assumed.

The random choice in `place_new_tile` is modelled as a free choice among the
empty cells (`:|`). Every proved property therefore holds whichever cell is
chosen.

## Model

| member | source | states |
|---|---|---|
| `RowMerge.Values` | exam/exam_game_2048.py:60 | the compacted list `temp` is no longer than the row |
| `RowMerge.Merged` | exam/exam_game_2048.py:61-70 | the single merge pass keeps between half and all of its input's values |
| `RowMerge.Gain` | exam/exam_game_2048.py:63-70 | definition of what the pass adds to the score (`self.score += temp[i] * 2`); `MergedIsBlockwise` proves it is the sum of the doubled outputs |
| `RowMerge.MergedIsBlockwise` | exam/exam_game_2048.py:61-70 | the pass cuts its input front to back into blocks: output k is a value kept alone (it differs from its right neighbour or is last) or twice a value equal to its right neighbour, and the next block starts one or two further on; so no value is in two merges, and the score gain is the sum of the doubled outputs |
| `RowMerge.BlockwiseIsMerged` | exam/exam_game_2048.py:61-70 | conversely, any output that meets that block description with some cutting is the pass's output, cut where it cuts |
| `RowMerge.MergedRow` | exam/exam_game_2048.py:59-71 | the row `merge_row` returns is exactly as long as its input |
| `RowMerge.MergedRowShape` | exam/exam_game_2048.py:60-71 | the merged row is left-packed (every empty cell after every tile); its tiles are the merge pass over the input's tiles; it keeps between half and all of them |
| `RowMerge.MergedRowKeepsTotal` | exam/exam_game_2048.py:63-71 | merging keeps the sum of the tile values |
| `RowMerge.MergedUnchangedIff` | exam/exam_game_2048.py:63-70 | the merge pass returns its input exactly when no two neighbours are equal |
| `RowMerge.GainReflectsMerges` | exam/exam_game_2048.py:64-66 | on positive values the score gain is non-negative, and positive exactly when two neighbouring values are equal |
| `RowMerge.NoMergeNoGain` | exam/exam_game_2048.py:64-70 | a pass with no equal neighbours adds nothing to the score, for any integers |
| `RowMerge.MergedRowKeepsTiles` | exam/exam_game_2048.py:63-71 | powers of two of at least 2 stay so after merging, and the gain is non-negative and positive exactly when a merge happens |
| `RowMerge.MergedRowUnchangedIff` | exam/exam_game_2048.py:59-71 | `merge_row` returns its input unchanged exactly when the row is left-packed and no two neighbouring tiles are equal |
| `RowMerge.FullRowUnchanged` | exam/exam_game_2048.py:59-71 | a gap-free row with no equal neighbours is returned unchanged and scores nothing |
| `RowMerge.MergePairExample` | exam/exam_game_2048.py:59-71 | `[2,2,4,None]` gives `[4,4,None,None]` and +4: the pair merges once and the new 4 does not merge with the old one |
| `RowMerge.MergeFourExample` | exam/exam_game_2048.py:59-71 | `[2,2,2,2]` gives `[4,4,None,None]` and +8, not a chained 8 |
| `RowMerge.MergeRunExample` | exam/exam_game_2048.py:59-71 | the values `[2,2,4,5,5,5]` merge to `[4,4,10,5]`, not a cascaded `[8,10,5]` |
| `Board.EmptyBoard` | exam/exam_game_2048.py:46 | definition of the 4×4 board of empty cells that a new game and a reset start from |
| `Board.Rotated` | exam/exam_game_2048.py:83-89 | a quarter turn keeps a 4×4 board and moves the cell at (i, j) to (j, 3−i) |
| `Board.TurnedRows` | exam/exam_game_2048.py:83-89 | after one turn the rows are the columns read bottom to top; after two, the rows reversed in reverse order; after three, the columns in reverse order |
| `Board.RotateFourTimes` | exam/exam_game_2048.py:83-89 | four quarter turns give back the original board |
| `Board.MoveLeftBoard` | exam/exam_game_2048.py:73-81 | replacing every row by its merged row keeps a 4×4 board |
| `Board.BoardGain` | exam/exam_game_2048.py:73-81 | definition of what a move to the left adds to the score: the rows' gains; `MoveLeft` proves its loop adds exactly this, `BoardGainNonNegative` bounds it |
| `Board.BoardGainNonNegative` | exam/exam_game_2048.py:73-81 | on a board of powers of two, a move to the left never lowers the score |
| `Board.RotatedKeepsTiles` | exam/exam_game_2048.py:83-89 | a quarter turn keeps every tile a power of two of at least 2 |
| `Board.SomeRowMerges` | exam/exam_game_2048.py:74-81 | definition of the `changed` flag after the first `i` rows: some row among them merged into a different row; `SomeRowMergesIff` proves it is exactly the existence of such a row |
| `Board.RowwiseMoveLeft` | exam/exam_game_2048.py:74-81 | replacing each row by its merged row yields the move to the left, and `changed` is set exactly when the board differs from the one before |
| `Board.MoveLeftKeepsTiles` | exam/exam_game_2048.py:73-81 | a move to the left keeps every tile a power of two of at least 2 |
| `Board.ShiftKeepsTiles` | exam/exam_game_2048.py:154-174 | every direction keeps a 4×4 board of powers of two and adds a non-negative amount to the score |
| `Board.Shifted` | exam/exam_game_2048.py:154-174 | definition of the board after a move: the quarter turns and the one move to the left that each direction uses; `ShiftedSlidesEveryLine` states what it does to each line |
| `Board.ShiftGain` | exam/exam_game_2048.py:154-174 | definition of what a move adds to the score; `ShiftGainByLines` states it as the sum of the lines' gains |
| `Board.ShiftRightSlidesRows` | exam/exam_game_2048.py:157-162 | two turns, a move left and two turns merge every row toward its right end |
| `Board.ShiftUpSlidesColumns` | exam/exam_game_2048.py:163-168 | three turns, a move left and one turn merge every column toward the top |
| `Board.ShiftDownSlidesColumns` | exam/exam_game_2048.py:169-174 | one turn, a move left and three turns merge every column toward the bottom |
| `Board.ShiftedSlidesEveryLine` | exam/exam_game_2048.py:154-174 | every direction merges each line (row or column) toward its own side, and the board ends in its original orientation |
| `Board.ShiftGainByLines` | exam/exam_game_2048.py:154-174 | what a move in any direction adds to the score is the sum over its lines of each line's gain, read from the side it merges toward |
| `Board.Movable` | exam/exam_game_2048.py:91-99 | definition of the `can_move` test (some cell empty or equal to the one above or to its left); `MovableIff` gives its meaning, `CanMove` computes it |
| `Board.MovableIff` | exam/exam_game_2048.py:91-99 | checking only the cells above and to the left is enough: the test holds exactly when a cell is empty or two adjacent tiles in any direction are equal |
| `Board.StuckLineUnchanged` | exam/exam_game_2048.py:91-99 | on a board the test rejects, merging any line in either direction leaves it as it is |
| `Board.StuckBoardUnchanged` | exam/exam_game_2048.py:91-99 | on a board the test rejects, no direction changes the board |
| `Board.UnchangedRowsScoreNothing` | exam/exam_game_2048.py:73-81 | a move to the left that changes no row adds nothing to the score |
| `Board.UnchangedMoveScoresNothing` | exam/exam_game_2048.py:154-174 | a move in any direction that leaves the board as it was adds nothing to the score |
| `Board.StuckBoardScoresNothing` | exam/exam_game_2048.py:91-99 | on a board the test rejects, no direction changes the board or the score |
| `Board.StuckMoveRepeats` | exam/exam_game_2048.py:175-179 | once no move is left, a further move changes neither the board nor the score, places no tile and leaves the board stuck, so the same final score is recorded again |
| `Board.Spawned` | exam/exam_game_2048.py:53-57 | definition of what `place_new_tile` may do: one empty cell becomes 2 and nothing else changes, or nothing changes when no cell is empty; `PlaceNewTile` is proved to meet it |
| `Ledger.Insert` | exam/exam_game_2048.py:196 | inserting a score adds exactly that score to the entries |
| `Ledger.InsertDescending` | exam/exam_game_2048.py:196 | inserting into a highest-first list keeps it highest first |
| `Ledger.SortDescending` | exam/exam_game_2048.py:196 | `sort(reverse=True)` gives a highest-first permutation of the list |
| `Ledger.SortDescendingOfDescending` | exam/exam_game_2048.py:196 | sorting a list that is already highest first changes nothing |
| `Ledger.Top` | exam/exam_game_2048.py:197 | definition of the cut to the first five entries (`[:5]`); `Normalized` states the resulting length |
| `Ledger.Normalized` | exam/exam_game_2048.py:115 | sorting highest first and keeping five gives a sorted list of at most five entries, drawn from the input, and as long as possible |
| `Ledger.NormalizedKeepsHighest` | exam/exam_game_2048.py:115 | every dropped entry is at most every kept one, so the five highest scores are kept |
| `Ledger.NormalizedIdempotent` | exam/exam_game_2048.py:115 | normalising a ledger changes nothing, so normalising twice equals normalising once |
| `Ledger.Record` | exam/exam_game_2048.py:192-197 | definition of the ledger after `save_result`: a score of at most 0 is not recorded, a positive one is appended, sorted and cut; `RecordInsertsScore` and `RecordNewBest` give its meaning |
| `Ledger.RecordInsertsScore` | exam/exam_game_2048.py:194-197 | recording a positive score gives the old top five plus the new score, highest first and cut to five |
| `Ledger.RecordNewBest` | exam/exam_game_2048.py:194-197 | a new highest score goes to the front, and the ledger grows by one until it holds five |
| `Game.GameLogic.constructor` | exam/exam_game_2048.py:45-47 | a new game has an empty 4×4 board and a score of 0 |
| `Game.GameLogic.Reset` | exam/exam_game_2048.py:49-51 | after a reset the board is empty and the score is 0 |
| `Game.GameLogic.PlaceNewTile` | exam/exam_game_2048.py:53-57 | one cell that was empty becomes 2 and every other cell is unchanged; a full board is left as it is; powers of two stay powers of two |
| `Game.GameLogic.MergeRow` | exam/exam_game_2048.py:59-71 | the while loop returns the merged row and raises the score by exactly the merged values |
| `Game.GameLogic.MoveLeft` | exam/exam_game_2048.py:73-81 | every row is replaced by its merged row; the score rises by the rows' gains and never drops on powers of two; the result is true exactly when the board changed |
| `Game.GameLogic.Rotate` | exam/exam_game_2048.py:83-89 | the nested loops build the quarter-turned board |
| `Game.GameLogic.CanMove` | exam/exam_game_2048.py:91-99 | the nested loops with early returns decide the test `Movable` |
| `Game.GameView.constructor` | exam/exam_game_2048.py:104-107 | the view starts with an empty best-score list |
| `Game.GameView.Open` | exam/exam_game_2048.py:104-108 | building the view loads the score file: a missing file leaves the list empty, a stored list is normalised, and unreadable content raises, so no view is built |
| `Game.GameView.LoadBestScores` | exam/exam_game_2048.py:111-117 | a missing file keeps the list; a stored list is normalised as when saving; unreadable content raises and leaves the list as it was |
| `Game.GameView.SaveResult` | exam/exam_game_2048.py:192-198 | a score of at most 0 leaves the list unchanged; a positive one gives the normalised old list plus the score, and the list stays a ledger |
| `Game.GameView.Slide` | exam/exam_game_2048.py:154-174 | the quarter turns and the move to the left for each direction leave exactly the direction's board and raise the score by exactly its gain |
| `Game.GameView.MoveRight` | exam/exam_game_2048.py:157-162 | two turns, a move to the left and two turns leave exactly the Right board and add exactly its gain |
| `Game.GameView.MoveUp` | exam/exam_game_2048.py:163-168 | three turns, a move to the left and one turn leave exactly the Up board and add exactly its gain |
| `Game.GameView.MoveDown` | exam/exam_game_2048.py:169-174 | one turn, a move to the left and three turns leave exactly the Down board and add exactly its gain |
| `Game.GameView.FinishMove` | exam/exam_game_2048.py:175-179 | a tile is placed whether or not the board changed (one empty cell becomes 2, or nothing changes when none is empty), tiles stay powers of two, and the score is recorded exactly when no move is left |
| `Game.GameView.OnMove` | exam/exam_game_2048.py:154-179 | the board is the direction's result, then `place_new_tile` runs whether or not the board changed: one empty cell becomes 2, or nothing changes when none is empty; the score rises by the direction's gain and never drops on powers of two; when no move is left the score is recorded |
| `Game.GameView.ResetGame` | exam/exam_game_2048.py:181-183 | a new game clears the board and the score and keeps the best scores |

## Left out

- The `Tile` widget and its colours (`exam/exam_game_2048.py:10-40`): Qt presentation.
- `init_ui`, `update_view`, `show_best_scores`, the game-over message box, `MainWindow` and `keyPressEvent`: Qt layout and input wiring. The main window's start-up places two tiles with two calls of the modelled `PlaceNewTile`. The view's construction calls `init_ui` after loading the scores; `Game.GameView.Open` stops after the load.
- `save_best_scores` (`exam/exam_game_2048.py:119-122`): writing JSON is file I/O. The model keeps the list in memory; what would be written is `bestScores`.
- JSON parsing in `load_best_scores`: the file's content is a parameter (`ScoreFile`). Any failure other than a missing file is one case, `Unreadable`.
- Stored score lists whose entries are not integers (floats, or strings) are not modelled: `ScoreFile.Stored` holds integers only. The source sorts such a list without error. A list that mixes numbers and strings raises, which falls under `Unreadable`.
- Game.GameLogic.PlaceNewTile: the uniform distribution of `random.choice` is not modelled, only the fact that some empty cell is chosen.
- Game.GameView.OnMove: `Direction` has exactly four values, the four strings the key handler sends. Any other string would skip the move but still spawn a tile; that case is not modelled.
- All of `PySide_lab_2/` and `PySide_lab_3/`: widget layouts, signal logging, window settings, polling threads and an HTTP weather client. They are UI glue, concurrency and network access with no game logic.
