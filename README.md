# Sudoku core in Dafny

This project models the logic under the UI and database layers of a pygame
Sudoku game, and proves properties of it. The logic covers:

- the rule checker (`SudokuValidator`): legality of one move, validity of the
  whole board, completeness;
- the game board (`SudokuBoard` with its `EmptyCellSelectorStrategy`): 81 cells
  with values, givens, validity flags and notes, a solution and a hint quota;
- the grid and score helpers: coordinate lists, `mm:ss` formatting, and the
  integer score formula;
- the statistics service (`GameRecordService`): leaderboard truncation and
  personal statistics over stored game records.

Modules follow the program's files:

- `Config`: `config.py`;
- `Models`: the `Difficulty` enumeration and the `Cell` record;
- `Helpers`: `utils/helpers.py`;
- `Validator`: `core/validator.py`;
- `Board`: `core/board.py`;
- `Services`: `database/services.py`;
- `Wrappers`: the Option and Result types.

The validator works on the digits of a grid (`seq<seq<int>>`). The board keeps
its cells in a `seq<seq<Cell>>` field and hands `ValuesOf(grid)` to the
validator, which reads only `cell.value`. Validator functions take the grid by
value, so no check can change the grid.

The source's loops appear as methods with loop invariants:

- the three whole-board scans;
- the block move scan;
- `initialize`;
- `auto_notes`;
- the per-difficulty loop of `get_personal_stats`.

The `ensures` of each such method give its result or its new state in full,
either cell by cell or as a function of the inputs or the old state. The
whole-board check is also proved equivalent to a reference definition,
"no two cells of a row, column or 3x3 block hold the same non-zero digit"
(`Validator.NoConflicts`).

The difficulty values are those in the code: EASY = 40, MEDIUM = 25, HARD = 20
(`sudoku/models/difficulty.py:9-11`).

## Model

| member | source | states |
|---|---|---|
| Models.AllDifficultiesListsEachOnce | sudoku/models/difficulty.py:7-11 | iterating the enumeration visits each of the three levels exactly once, in declaration order |
| Models.NamesAndValuesAreInjective | sudoku/models/difficulty.py:9-11 | distinct levels have distinct names and distinct values |
| Models.EmptyCell | sudoku/core/board.py:51 | a new cell keeps its position and is empty, editable, valid and without notes |
| Models.ToggledNotes | sudoku/core/board.py:86-88 | toggling a note flips exactly that digit's membership and leaves every other digit as it was |
| Models.ToggleTwiceRestores | sudoku/core/board.py:86-88 | toggling the same note twice gives back the original note set |
| Helpers.GetBlockCoordinates | sudoku/utils/helpers.py:8-25 | 9 distinct coordinates, including (row, col); a position is listed iff it has the same row/3 and col/3; for a board position all of them lie on the board |
| Helpers.BlockListInRange | sudoku/utils/helpers.py:21-25 | the comprehension lists the nine cells of the 3x3 square at the start position, each once, and nothing else |
| Helpers.SameBlockIffInRange | sudoku/utils/helpers.py:18-19 | y/3 == x/3 iff y lies in the three values starting at x - x%3 |
| Helpers.GetRowCoordinates | sudoku/utils/helpers.py:28-30 | (row, 0) … (row, 8) in this order, and nothing else |
| Helpers.GetColCoordinates | sudoku/utils/helpers.py:33-35 | (0, col) … (8, col) in this order, and nothing else |
| Helpers.IsValidCoordinate | sudoku/utils/helpers.py:38-40 | definition of `is_valid_coordinate`: both coordinates in 0..8; `Helpers.ValidCoordinateIffInRowAndColumn` relates it to the row and column lists |
| Helpers.ValidCoordinateIffInRowAndColumn | sudoku/utils/helpers.py:38-40 | a position is on the board iff it appears in its own row list and its own column list |
| Helpers.NatToString | sudoku/utils/helpers.py:47 | decimal text is non-empty and all digits, one digit exactly for numbers below 10, no leading zero |
| Helpers.ZeroPad | sudoku/utils/helpers.py:47 | zero filling yields the larger of the text's length and the width |
| Helpers.ZeroPadIsZerosThenText | sudoku/utils/helpers.py:47 | the filled text is only '0' characters followed by the original text, unchanged |
| Helpers.PadTwo | sudoku/utils/helpers.py:47 | definition of `{n:02d}`: zero fill to width 2, the sign counted in the width; its properties are stated by `Helpers.PadTwoReadsBack` |
| Helpers.FormatTime | sudoku/utils/helpers.py:43-47 | definition of `format_time`: `{minutes:02d}:{seconds:02d}` of `seconds // 60` and `seconds % 60`; its properties are stated by `Helpers.FormatTimeFields` and `Helpers.FormatTimeRoundTrip` |
| Helpers.ParseNatToString | sudoku/utils/helpers.py:47 | decimal text reads back as the number it was made from |
| Helpers.PadTwoReadsBack | sudoku/utils/helpers.py:47 | `{n:02d}` of a non-negative number has at least two digits, exactly two below 100, and reads back as n |
| Helpers.FormatTimeFields | sudoku/utils/helpers.py:43-47 | for seconds >= 0 the text is a minutes field of at least two digits, ':', and a two-digit seconds field; the fields equal seconds/60 and seconds%60, and the latter is below 60 |
| Helpers.FormatTimeRoundTrip | sudoku/utils/helpers.py:43-47 | reading minutes*60 + seconds back from the text gives the input |
| Helpers.Upper | sudoku/utils/helpers.py:67 | upper-casing keeps the length and maps each character on its own |
| Helpers.BaseScore | sudoku/utils/helpers.py:61-70 | the upper-cased name selects 100/200/300; any other name scores as EASY |
| Helpers.TimePenalty | sudoku/utils/helpers.py:72 | the time penalty is `min(minutes, base // 2)`: it is one of the two and at most either; non-negative for non-negative inputs |
| Helpers.CalculateDifficultyScore | sudoku/utils/helpers.py:50-76 | the score is never negative and never above the base for non-negative time and hints; without hints it is exactly the base minus `TimePenalty`, so at least half the base; with `Helpers.EachHintCostsTwenty` each further hint subtracts 20 down to the clamp at 0 |
| Helpers.ScoreIgnoresCase | sudoku/utils/helpers.py:67 | names that upper-case alike score alike |
| Helpers.ScoreIsAntitone | sudoku/utils/helpers.py:72-75 | more time or more hints never raise the score |
| Helpers.EachHintCostsTwenty | sudoku/utils/helpers.py:73-75 | one more hint lowers the score by exactly 20 unless it hits the clamp at 0, and by at most 20 in any case |
| Validator.EmptyGrid | sudoku/core/board.py:51 | the digits of a fresh board form a 9x9 grid of zeros |
| Validator.ValidMove | sudoku/core/validator.py:13-22 | definition of the intended move check: 0 is legal, a digit must not appear in another cell of its column, row or block; `Validator.IsValidMove` computes it and `Validator.LegalMoveIffStaysConflictFree` ties it to conflict-freedom |
| Validator.IsValidMoveAsWritten | sudoku/core/validator.py:18-22 | definition of the move check as written: `True` for 0, AttributeError for any digit; `Validator.AsWrittenRaisesOnLegalMove` exhibits the failure |
| Validator.IsRowValidMove | sudoku/core/validator.py:20 | true iff no other cell of the row holds the value (the helper is absent from the source; modelled on the block scan) |
| Validator.IsColumnValidMove | sudoku/core/validator.py:19 | true iff no other cell of the column holds the value (the helper is absent from the source; modelled on the block scan) |
| Validator.IsBlockValidMove | sudoku/core/validator.py:54-63 | true iff no cell of the block starting at (row - row%3, col - col%3), other than (row, col), holds the value |
| Validator.IsValidMove | sudoku/core/validator.py:13-22 | 0 is always legal, at any position; a digit is legal iff its column, row and block checks all pass |
| Validator.AsWrittenRaisesOnLegalMove | sudoku/core/validator.py:18-22 | placing 5 at (0, 0) of an empty grid is legal, but the method as written raises AttributeError instead |
| Validator.NonZero | sudoku/core/validator.py:68-76 | the filtered lists of lines 68 and 76 hold exactly the non-zero entries and are no longer than the input |
| Validator.HasUniqueValues | sudoku/core/validator.py:38-40 | definition: the list is as long as the set of its elements; `Validator.HasUniqueValuesIffDistinct` states what it means |
| Validator.DistinctSnoc | sudoku/core/validator.py:39-40 | appending keeps a list repetition-free iff the new element is new |
| Validator.DistinctNonZeroSnoc | sudoku/core/validator.py:68-69 | appending keeps the non-zero entries repetition-free iff a new non-zero element is new |
| Validator.HasUniqueValuesIffDistinct | sudoku/core/validator.py:38-40 | `len(values) == len(set(values))` holds iff no element repeats; the set is never larger than the list |
| Validator.NonZeroDistinctIff | sudoku/core/validator.py:68-69 | the filtered list is repetition-free iff no non-zero digit repeats in the unit; zeros are ignored |
| Validator.UniqueNonZeroIff | sudoku/core/validator.py:68-69 | the unique-values test on the filtered list holds iff no non-zero digit repeats in the unit |
| Validator.BlockAt | sudoku/core/validator.py:86-89 | position 3i+j of a block's cell list is cell (start row + i, start col + j) |
| Validator.BlockCell | sudoku/core/validator.py:86-89 | cell (r, c) of a block is entry 3(r - start row) + (c - start col) of its list |
| Validator.RowsValid | sudoku/core/validator.py:48-52 | definition: every row's non-zero digits pass the unique-values test; `Validator.RowsValidIff` ties it to the reference definition |
| Validator.ColumnsValid | sudoku/core/validator.py:42-46 | definition: every column's non-zero digits pass the unique-values test; `Validator.ColumnsValidIff` ties it to the reference definition |
| Validator.BoardValid | sudoku/core/validator.py:24-31 | definition: rows, columns and blocks all pass; `Validator.BoardValidIffNoConflicts` ties it to the reference definition |
| Validator.RowsValidIff | sudoku/core/validator.py:73-79 | every row passes the unique-values test iff no two cells of a row share a non-zero digit |
| Validator.ColumnsValidIff | sudoku/core/validator.py:65-71 | every column passes the unique-values test iff no two cells of a column share a non-zero digit |
| Validator.BlockPairAt | sudoku/core/validator.py:81-92 | two distinct cells with the same row/3 and col/3 sit at two distinct positions of one block's cell list |
| Validator.BlockPositionsAreCells | sudoku/core/validator.py:81-92 | two distinct positions of a block's cell list are two distinct cells of the same 3x3 block |
| Validator.BlocksValidOnlyIf | sudoku/core/validator.py:81-92 | if every block passes the unique-values test, no two cells of a block share a non-zero digit |
| Validator.BlocksValidIf | sudoku/core/validator.py:81-92 | if no two cells of a block share a non-zero digit, every block passes the unique-values test |
| Validator.BlocksValidIff | sudoku/core/validator.py:81-92 | the blocks pass iff no 3x3 block holds a non-zero digit twice |
| Validator.BoardValidIffNoConflicts | sudoku/core/validator.py:24-31 | the source's unit-by-unit board check holds iff no row, column or block holds a non-zero digit twice |
| Validator.IsRowValidBoard | sudoku/core/validator.py:73-79 | the live row loop returns true iff every row's non-zero digits are unique |
| Validator.IsColumnValidBoard | sudoku/core/validator.py:65-71 | the live column loop returns true iff every column's non-zero digits are unique |
| Validator.NonZeroPrefixStep | sudoku/core/validator.py:88-89 | extending the scanned prefix by one cell appends that cell's digit iff it is non-zero |
| Validator.CollectBlockValues | sudoku/core/validator.py:85-89 | the nested scan collects exactly the block's non-zero digits, in row-major order |
| Validator.BlocksValid | sudoku/core/validator.py:81-92 | definition: the non-zero digits of every 3x3 block pass the unique-values test; `Validator.BlocksValidIff` ties it to the reference definition |
| Validator.IsBlockValidBoard | sudoku/core/validator.py:81-92 | the block loop returns true iff every 3x3 block's non-zero digits are unique |
| Validator.IsBoardValid | sudoku/core/validator.py:24-31 | the board check holds iff rows, columns and blocks all pass, which is exactly when no unit holds a non-zero digit twice |
| Validator.EmptyGridValidNotComplete | sudoku/core/validator.py:33-36 | the all-zero grid is valid but not complete |
| Validator.PlaceKeepsRows | sudoku/core/validator.py:16-20 | writing 0, or a digit new to its row, keeps every row free of repeated digits |
| Validator.PlaceKeepsColumns | sudoku/core/validator.py:16-19 | writing 0, or a digit new to its column, keeps every column free of repeated digits |
| Validator.PlaceKeepsBlocks | sudoku/core/validator.py:16-21 | writing 0, or a digit new to its block, keeps every block free of repeated digits |
| Validator.ConflictFreePlaceIsLegal | sudoku/core/validator.py:13-22 | if a written digit leaves no repeats, the move check accepts it |
| Validator.LegalMoveIffStaysConflictFree | sudoku/core/validator.py:13-22 | on a conflict-free grid, a move is legal iff the grid stays conflict-free after placing it |
| Validator.IsBoardComplete | sudoku/core/validator.py:33-36 | definition of `is_board_complete`: no cell holds 0; `Board.EmptyCells` and `Validator.EmptyGridValidNotComplete` state its consequences |
| Validator.FirstRowExample | sudoku/core/validator.py:13-22 | with row 0 = 5 3 0 0 7 0 0 0 0, writing 5 at (0, 2) is illegal and writing 4 is legal |
| Board.FreshCells | sudoku/core/board.py:51 | a fresh grid is 9x9 and every cell is `Cell(r, c)` at its own position: 0, editable, valid and without notes |
| Board.EmptyInRow | sudoku/core/board.py:39-44 | lists exactly the empty cells of a row from a column on |
| Board.EmptyFromRow | sudoku/core/board.py:39-44 | lists exactly the empty cells of the rows from a row on |
| Board.FullRowHasNoEmptyCell | sudoku/core/board.py:39-44 | a row segment without a 0 contributes nothing |
| Board.FullRowsHaveNoEmptyCell | sudoku/core/board.py:39-44 | rows without a 0 contribute nothing |
| Board.EmptyCellIsListed | sudoku/core/board.py:39-44 | any 0 in the scanned rows makes the list non-empty |
| Board.NoEmptyCellIffFull | sudoku/core/board.py:39-44 | the rows from r on list no empty cell iff none of their cells is 0 |
| Board.EmptyCells | sudoku/core/board.py:39-44 | a position is listed iff it is on the board and empty; the list is empty iff the board is complete |
| Board.SelectEmptyCell | sudoku/core/board.py:36-45 | None iff the board is complete, otherwise some empty board position |
| Board.WithAutoNotes | sudoku/core/board.py:113-122 | only notes change, and no value changes; a filled or given cell is untouched; an empty, editable cell's notes are exactly the digits 1-9 legal there |
| Board.AutoNotesIdempotent | sudoku/core/board.py:113-122 | a second `auto_notes` changes nothing |
| Board.CandidatesKeepBoardConflictFree | sudoku/core/board.py:118-122 | on a conflict-free board, a digit becomes a note iff placing it keeps the board conflict-free |
| Board.SudokuBoard.constructor | sudoku/core/board.py:49-56 | fresh empty cells, no solution, no hints used, quota MAX_HINTS |
| Board.SudokuBoard.Initialize | sudoku/core/board.py:58-70 | every cell holds the puzzle digit and is fixed iff that digit is non-zero, valid and without notes; the digits equal the puzzle; the solution is stored, hints restart at 0 and the quota is kept |
| Board.SudokuBoard.SetValue | sudoku/core/board.py:72-84 | a given refuses with false and nothing changes; otherwise true, the value is written with `isValid` computed on the board before the write, and every other cell is unchanged |
| Board.SudokuBoard.ToggleNote | sudoku/core/board.py:86-88 | only the chosen cell's notes change, by toggling the digit |
| Board.SudokuBoard.ClearCell | sudoku/core/board.py:90-92 | a given refuses; otherwise the cell becomes 0 and valid, and nothing else changes |
| Board.SudokuBoard.IsComplete | sudoku/core/board.py:94-97 | true iff every cell is filled and the board check passes, equivalently no unit holds a digit twice |
| Board.SudokuBoard.GetHint | sudoku/core/board.py:99-111 | None iff the quota is used up or no cell is empty, and then nothing changes; otherwise an empty cell, its solution digit, one more hint used; the grid is unchanged and hints never exceed the quota |
| Board.SudokuBoard.AutoNotes | sudoku/core/board.py:113-122 | the new cells are `WithAutoNotes` of the old ones |
| Services.NewGameRecord | sudoku/database/services.py:20-31 | the record keeps level, time and hints; its score is the helper's score for the level's name, between 0 and the level's base for non-negative inputs, at least half the base without hints |
| Services.LevelBaseIsBaseScore | sudoku/utils/helpers.py:61-67 | a level's own name scores with base 100, 200 or 300 |
| Services.FasterGamesScoreAtLeastAsHigh | sudoku/database/services.py:22 | a stored score never rises with more time or more hints |
| Services.Take | sudoku/database/services.py:39 | `s[:limit]` is a prefix of s, of length min(limit, len) for limit >= 0; a negative limit counts back from the end |
| Services.TakeTake | sudoku/database/services.py:39 | slicing twice keeps the shorter prefix |
| Services.GetLeaderboard | sudoku/database/services.py:35-41 | with a level, an in-order prefix of the level's records of length min(limit, n); without one, exactly the top-scores query for that limit |
| Services.LeaderboardGrowsWithLimit | sudoku/database/services.py:35-39 | a larger limit extends the same leaderboard, and the default limit 10 gives at most ten rows |
| Services.RecordsOf | sudoku/database/services.py:66 | exactly the records of the level, no more than all records |
| Services.RecordsOfCounts | sudoku/database/services.py:66 | each record of the level is kept as often as it occurs, any other record not at all |
| Services.LevelCountIsNumberOfGames | sudoku/database/services.py:66-74 | the filtered list has one entry per position of all records holding a game of the level |
| Services.BestIndex | sudoku/database/services.py:68 | a record with the highest score, and the first such one |
| Services.BestEntry | sudoku/database/services.py:68-73 | definition: score, time and hints of the record `Services.BestIndex` picks |
| Services.BestPosition | sudoku/database/services.py:66-73 | a position in all records holding a game of the level with the highest score among the level's games, and the earliest such position |
| Services.BestEntryIsBestPosition | sudoku/database/services.py:66-73 | `max` over the filtered list picks the game at `Services.BestPosition`, so ties go to the earliest record |
| Services.CountsSumToTotal | sudoku/database/services.py:66-74 | the three per-level counts add up to the number of records |
| Services.TotalTime | sudoku/database/services.py:58 | definition of the summed completion times; `Services.TotalTimeNonNegative` bounds it |
| Services.TotalTimeNonNegative | sudoku/database/services.py:58 | non-negative completion times give a non-negative total |
| Services.GetPersonalStats | sudoku/database/services.py:43-76 | all zeros and empty maps without records; otherwise count, summed time and floor average; a level has entries iff it has records; its entry is the game at `Services.BestPosition`, the earliest top-scoring game of the level among all records, and its count is the number of positions holding a game of the level |

## Left out

- The pygame UI, game states, rendering, timer, pause and records screen: UI and input handling.
- The SQLite repositories and the repository interface. Stored records are a sequence. The two ordered queries are functions supplied by the caller, so their SQL ordering is not modelled.
- `save_game_record`'s call to the repository and the identifier it returns, plus `delete_record`: they delegate to the database. The record is modelled up to its hand-over (`Services.NewGameRecord`).
- `datetime.now()` for the completion date: it reads the clock.
- The console warning printed for an unknown difficulty name: output only.
- `random.choice` in the cell selector: modelled as an arbitrary choice of an empty cell, not a probability distribution.
- A custom selector passed to the board's constructor: only the default strategy is modelled.
- The puzzle generator is not part of this model. `Initialize` takes the puzzle and the solution it would return as two 9x9 grids, with no link assumed between them.
- The `Cell` class is not part of this model. It is a record with value 0, not fixed, valid and no notes when new. Its `set_value` writes the value and succeeds for an editable cell, and `toggle_note` flips one digit.
- Board.SudokuBoard.SetValue: an in-place write to a shared `Cell` object is modelled as replacing that cell in the grid value. Aliasing of cells is not modelled.
- Board.SudokuBoard.GetHint: it requires a stored solution whenever a hint would be produced. Before `initialize` the source raises TypeError there.
- Board.SudokuBoard.Initialize: it keeps the existing quota. The facade's override of `max_hints` from a database setting is wiring outside the core.
- Board.SudokuBoard.SetValue, Board.SudokuBoard.AutoNotes: both use the corrected move check `Validator.IsValidMove`. As written (see "## Findings"), `set_value` with a digit on an editable cell raises AttributeError at `sudoku/core/board.py:79` before anything is written, and so does the hint path that goes through it. `auto_notes` first clears the notes of the first empty editable cell (`sudoku/core/board.py:119`) and then raises at its first move check (line 121), leaving that one cell's notes emptied. Clearing a cell (`set_value` with 0) works as written. The model states the intended behaviour and does not model these crashes or the partial update.
- Validator.IsValidMove: for a non-zero digit it requires a position on the board. The source would index with Python's negative-index wrap or raise IndexError; the board only passes board positions.
- Helpers.Upper: it upper-cases ASCII letters plus the two non-ASCII letters whose upper case is ASCII. Other Unicode case mappings cannot reach a table key and are not modelled.
- Services.GetPersonalStats: its two maps are keyed by the level rather than by its name. Names and levels correspond one to one (`Models.NamesAndValuesAreInjective`).

## Findings

| source | as written | input that shows it | evidently intended | confidence | as-written member | corrected member |
|---|---|---|---|---|---|---|
| sudoku/core/validator.py:18-22 | `is_valid_move` calls `__is_column_valid_move` and `__is_row_valid_move`, which the class never defines, so every non-zero digit raises AttributeError; `set_value` with a digit and `auto_notes` on a board with an empty editable cell inherit the crash | `is_valid_move(empty grid, 0, 0, 5)` | scan the column and the row for another cell with the value, as the block check at lines 55-63 does | not executed | Validator.AsWrittenRaisesOnLegalMove | Validator.IsValidMove |
