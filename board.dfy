/**
 * The game board (sudoku/core/board.py): 81 cells, the generated solution and
 * the hint quota, with the player's edits, notes and hints.
 */
module Board {
  import opened Config
  import opened Wrappers
  import opened Models
  import opened Helpers
  import opened Validator

  /** The board's cells, row by row. */
  type CellGrid = seq<seq<Cell>>

  /** 9x9 cells, each knowing its own position. */
  ghost predicate IsCellGrid(cells: CellGrid) {
    |cells| == GRID_SIZE &&
    forall r :: 0 <= r < GRID_SIZE ==>
      |cells[r]| == GRID_SIZE && forall c :: 0 <= c < GRID_SIZE ==> cells[r][c].row == r && cells[r][c].col == c
  }

  /** The digits the validator sees: each cell's `value`. */
  function ValuesOf(cells: CellGrid): (g: Grid)
    ensures |g| == |cells|
    ensures forall r :: 0 <= r < |cells| ==> |g[r]| == |cells[r]|
    ensures forall r, c :: 0 <= r < |cells| && 0 <= c < |cells[r]| ==> g[r][c] == cells[r][c].value
    ensures IsCellGrid(cells) ==> IsGrid(g)
  {
    seq(|cells|, r requires 0 <= r < |cells| => seq(|cells[r]|, c requires 0 <= c < |cells[r]| => cells[r][c].value))
  }

  lemma GridExt(a: Grid, b: Grid)
    requires IsGrid(a) && IsGrid(b)
    requires forall r, c :: 0 <= r < GRID_SIZE && 0 <= c < GRID_SIZE ==> a[r][c] == b[r][c]
    ensures a == b
  {
    forall r | 0 <= r < GRID_SIZE ensures a[r] == b[r] {
    }
  }

  lemma CellGridExt(a: CellGrid, b: CellGrid)
    requires IsCellGrid(a) && IsCellGrid(b)
    requires forall r, c :: 0 <= r < GRID_SIZE && 0 <= c < GRID_SIZE ==> a[r][c] == b[r][c]
    ensures a == b
  {
    forall r | 0 <= r < GRID_SIZE ensures a[r] == b[r] {
    }
  }

  /** The cells of a fresh board: all empty, editable, valid and without notes. */
  function FreshCells(): (cells: CellGrid)
    ensures IsCellGrid(cells)
    ensures ValuesOf(cells) == EmptyGrid()
    ensures forall r, c :: 0 <= r < GRID_SIZE && 0 <= c < GRID_SIZE ==> cells[r][c] == EmptyCell(r, c)
  {
    var cells := seq(GRID_SIZE, r => seq(GRID_SIZE, c => EmptyCell(r, c)));
    GridExt(ValuesOf(cells), EmptyGrid());
    cells
  }

  // ---------------------------------------------------------------------------
  // EmptyCellSelectorStrategy

  /** The empty cells of row `r` from column `c` on, left to right. */
  function EmptyInRow(g: Grid, r: int, c: int): (cells: seq<Coord>)
    requires IsGrid(g) && 0 <= r < GRID_SIZE && 0 <= c <= GRID_SIZE
    ensures forall p :: p in cells <==> p.0 == r && c <= p.1 < GRID_SIZE && g[r][p.1] == 0
    decreases GRID_SIZE - c
  {
    if c == GRID_SIZE then []
    else (if g[r][c] == 0 then [(r, c)] else []) + EmptyInRow(g, r, c + 1)
  }

  /** The empty cells of rows `r` to 8, row by row. */
  function EmptyFromRow(g: Grid, r: int): (cells: seq<Coord>)
    requires IsGrid(g) && 0 <= r <= GRID_SIZE
    ensures forall p :: p in cells <==> r <= p.0 < GRID_SIZE && 0 <= p.1 < GRID_SIZE && g[p.0][p.1] == 0
    decreases GRID_SIZE - r
  {
    if r == GRID_SIZE then [] else EmptyInRow(g, r, 0) + EmptyFromRow(g, r + 1)
  }

  /** The comprehension of lines 39-44: the empty cells of the board. */
  function EmptyCells(g: Grid): (cells: seq<Coord>)
    requires IsGrid(g)
    ensures forall p :: p in cells <==> IsValidCoordinate(p.0, p.1) && g[p.0][p.1] == 0
    ensures cells == [] <==> IsBoardComplete(g)
  {
    NoEmptyCellIffFull(g, 0);
    EmptyFromRow(g, 0)
  }

  /** Rows `r` to 8 list no empty cell exactly when none of their cells is 0. */
  lemma NoEmptyCellIffFull(g: Grid, r: int)
    requires IsGrid(g) && 0 <= r <= GRID_SIZE
    ensures EmptyFromRow(g, r) == [] <==> forall i, k :: r <= i < GRID_SIZE && 0 <= k < GRID_SIZE ==> g[i][k] != 0
  {
    if forall i, k :: r <= i < GRID_SIZE && 0 <= k < GRID_SIZE ==> g[i][k] != 0 {
      FullRowsHaveNoEmptyCell(g, r);
    } else {
      var i, k :| r <= i < GRID_SIZE && 0 <= k < GRID_SIZE && g[i][k] == 0;
      EmptyCellIsListed(g, r, i, k);
    }
  }

  lemma {:induction false} FullRowHasNoEmptyCell(g: Grid, r: int, c: int)
    requires IsGrid(g) && 0 <= r < GRID_SIZE && 0 <= c <= GRID_SIZE
    requires forall k :: c <= k < GRID_SIZE ==> g[r][k] != 0
    ensures EmptyInRow(g, r, c) == []
    decreases GRID_SIZE - c
  {
    if c < GRID_SIZE {
      FullRowHasNoEmptyCell(g, r, c + 1);
    }
  }

  lemma {:induction false} FullRowsHaveNoEmptyCell(g: Grid, r: int)
    requires IsGrid(g) && 0 <= r <= GRID_SIZE
    requires forall i, k :: r <= i < GRID_SIZE && 0 <= k < GRID_SIZE ==> g[i][k] != 0
    ensures EmptyFromRow(g, r) == []
    decreases GRID_SIZE - r
  {
    if r < GRID_SIZE {
      FullRowHasNoEmptyCell(g, r, 0);
      FullRowsHaveNoEmptyCell(g, r + 1);
    }
  }

  lemma EmptyCellIsListed(g: Grid, r: int, i: int, k: int)
    requires IsGrid(g) && 0 <= r <= i < GRID_SIZE && 0 <= k < GRID_SIZE && g[i][k] == 0
    ensures EmptyFromRow(g, r) != []
  {
    assert (i, k) in EmptyFromRow(g, r);
  }

  /** `EmptyCellSelectorStrategy.select`: some empty cell, chosen freely, or None on a full grid. */
  method SelectEmptyCell(g: Grid) returns (selected: Option<Coord>)
    requires IsGrid(g)
    ensures selected.None? <==> IsBoardComplete(g)
    ensures selected.Some? ==> IsValidCoordinate(selected.value.0, selected.value.1) && g[selected.value.0][selected.value.1] == 0
  {
    var emptyCells := EmptyCells(g);
    if emptyCells == [] {
      return None;
    }
    var k :| 0 <= k < |emptyCells|;
    var cell := emptyCells[k];
    assert cell in emptyCells;
    return Some(cell);
  }

  // ---------------------------------------------------------------------------
  // Automatic notes

  /** The digits 1 to 9 that `is_valid_move` accepts at (row, col). */
  function Candidates(g: Grid, row: int, col: int): set<int>
    requires IsGrid(g) && IsValidCoordinate(row, col)
  {
    set n | 1 <= n <= GRID_SIZE && ValidMove(g, row, col, n)
  }

  /** An empty, editable cell gets the candidates as its notes; any other cell is kept. */
  function NotedCell(cell: Cell, g: Grid, row: int, col: int): Cell
    requires IsGrid(g) && IsValidCoordinate(row, col)
  {
    if cell.value == 0 && !cell.isFixed then cell.(notes := Candidates(g, row, col)) else cell
  }

  /** The board's cells after `auto_notes`. */
  function WithAutoNotes(cells: CellGrid): (noted: CellGrid)
    requires IsCellGrid(cells)
    ensures IsCellGrid(noted)
    ensures ValuesOf(noted) == ValuesOf(cells)
    ensures forall r, c :: 0 <= r < GRID_SIZE && 0 <= c < GRID_SIZE ==>
      noted[r][c].(notes := cells[r][c].notes) == cells[r][c]
    ensures forall r, c :: 0 <= r < GRID_SIZE && 0 <= c < GRID_SIZE && (cells[r][c].value != 0 || cells[r][c].isFixed) ==>
      noted[r][c] == cells[r][c]
    ensures forall r, c, n :: 0 <= r < GRID_SIZE && 0 <= c < GRID_SIZE && cells[r][c].value == 0 && !cells[r][c].isFixed ==>
      (n in noted[r][c].notes <==> 1 <= n <= GRID_SIZE && ValidMove(ValuesOf(cells), r, c, n))
  {
    var g := ValuesOf(cells);
    var noted := seq(GRID_SIZE, r requires 0 <= r < GRID_SIZE => seq(GRID_SIZE, c requires 0 <= c < GRID_SIZE => NotedCell(cells[r][c], g, r, c)));
    GridExt(ValuesOf(noted), g);
    noted
  }

  /** Running `auto_notes` a second time changes nothing. */
  lemma AutoNotesIdempotent(cells: CellGrid)
    requires IsCellGrid(cells)
    ensures WithAutoNotes(WithAutoNotes(cells)) == WithAutoNotes(cells)
  {
    var once := WithAutoNotes(cells);
    var twice := WithAutoNotes(once);
    forall r, c | 0 <= r < GRID_SIZE && 0 <= c < GRID_SIZE ensures twice[r][c] == once[r][c] {
      if cells[r][c].value == 0 && !cells[r][c].isFixed {
        assert once[r][c].notes == twice[r][c].notes;
      }
    }
    CellGridExt(twice, once);
  }

  /** On a conflict-free board the automatic notes are the digits that keep it conflict-free. */
  lemma CandidatesKeepBoardConflictFree(g: Grid, row: int, col: int, n: int)
    requires IsGrid(g) && IsValidCoordinate(row, col) && NoConflicts(g) && 1 <= n <= GRID_SIZE
    ensures n in Candidates(g, row, col) <==> NoConflicts(Place(g, row, col, n))
  {
    LegalMoveIffStaysConflictFree(g, row, col, n);
  }

  // ---------------------------------------------------------------------------
  // SudokuBoard

  class SudokuBoard {
    var grid: CellGrid
    /** None until the first `Initialize`. */
    var solution: Option<Grid>
    var hintsUsed: int
    var maxHints: int

    ghost predicate Valid()
      reads this
    {
      IsCellGrid(grid) && (solution.Some? ==> IsGrid(solution.value)) && 0 <= hintsUsed <= maxHints
    }

    /** The digits currently on the board. */
    function Values(): (g: Grid)
      reads this
      requires Valid()
      ensures IsGrid(g)
    {
      ValuesOf(grid)
    }

    /** `SudokuBoard(generator)`: an uninitialised board of empty cells and the default quota. */
    constructor ()
      ensures Valid()
      ensures grid == FreshCells() && solution == None
      ensures hintsUsed == 0 && maxHints == MAX_HINTS
    {
      grid := FreshCells();
      solution := None;
      hintsUsed := 0;
      maxHints := MAX_HINTS;
    }

    /**
     * `initialize`: `puzzle` and `generated` are the pair the generator
     * returned. Every cell is rebuilt from the puzzle, a non-zero digit making
     * it a given, and the hint count restarts.
     */
    method Initialize(puzzle: Grid, generated: Grid)
      requires Valid() && IsGrid(puzzle) && IsGrid(generated)
      modifies this
      ensures Valid()
      ensures forall r, c :: 0 <= r < GRID_SIZE && 0 <= c < GRID_SIZE ==>
        grid[r][c] == Cell(r, c, puzzle[r][c], puzzle[r][c] != 0, true, {})
      ensures Values() == puzzle
      ensures solution == Some(generated)
      ensures hintsUsed == 0 && maxHints == old(maxHints)
    {
      solution := Some(generated);
      var cells := FreshCells();
      for row := 0 to GRID_SIZE
        invariant IsCellGrid(cells)
        invariant forall r, c :: 0 <= r < row && 0 <= c < GRID_SIZE ==>
          cells[r][c] == Cell(r, c, puzzle[r][c], puzzle[r][c] != 0, true, {})
        invariant forall r, c :: row <= r < GRID_SIZE && 0 <= c < GRID_SIZE ==> cells[r][c] == EmptyCell(r, c)
      {
        for col := 0 to GRID_SIZE
          invariant IsCellGrid(cells)
          invariant forall r, c :: 0 <= r < row && 0 <= c < GRID_SIZE ==>
            cells[r][c] == Cell(r, c, puzzle[r][c], puzzle[r][c] != 0, true, {})
          invariant forall c :: 0 <= c < col ==> cells[row][c] == Cell(row, c, puzzle[row][c], puzzle[row][c] != 0, true, {})
          invariant forall c :: col <= c < GRID_SIZE ==> cells[row][c] == EmptyCell(row, c)
          invariant forall r, c :: row < r < GRID_SIZE && 0 <= c < GRID_SIZE ==> cells[r][c] == EmptyCell(r, c)
        {
          var value := puzzle[row][col];
          var cell := cells[row][col].(value := value, isFixed := value != 0);
          cells := cells[row := cells[row][col := cell]];
        }
      }
      grid := cells;
      hintsUsed := 0;
      GridExt(Values(), puzzle);
    }

    /**
     * `set_value`: a given is refused and nothing changes; any other cell takes
     * the value and records whether the move was legal on the board as it
     * was before the write.
     */
    method SetValue(row: int, col: int, value: int) returns (ok: bool)
      requires Valid() && IsValidCoordinate(row, col)
      modifies this`grid
      ensures Valid()
      ensures ok == !old(grid[row][col].isFixed)
      ensures ok ==> grid == old(grid)[row := old(grid)[row][col :=
        old(grid[row][col]).(value := value, isValid := ValidMove(old(Values()), row, col, value))]]
      ensures !ok ==> grid == old(grid)
    {
      var cell := grid[row][col];
      if cell.isFixed {
        return false;
      }
      var isValid := IsValidMove(Values(), row, col, value);
      grid := grid[row := grid[row][col := cell.(value := value, isValid := isValid)]];
      return true;
    }

    /** `toggle_note`: the digit joins or leaves the cell's notes; givens are not exempt. */
    method ToggleNote(row: int, col: int, value: int)
      requires Valid() && IsValidCoordinate(row, col)
      modifies this`grid
      ensures Valid()
      ensures grid == old(grid)[row := old(grid)[row][col :=
        old(grid[row][col]).(notes := ToggledNotes(old(grid[row][col].notes), value))]]
    {
      var cell := grid[row][col];
      grid := grid[row := grid[row][col := cell.(notes := ToggledNotes(cell.notes, value))]];
    }

    /** `clear_cell`: an editable cell becomes empty and valid; a given is refused. */
    method ClearCell(row: int, col: int) returns (ok: bool)
      requires Valid() && IsValidCoordinate(row, col)
      modifies this`grid
      ensures Valid()
      ensures ok == !old(grid[row][col].isFixed)
      ensures ok ==> grid == old(grid)[row := old(grid)[row][col := old(grid[row][col]).(value := 0, isValid := true)]]
      ensures !ok ==> grid == old(grid)
    {
      ok := SetValue(row, col, 0);
    }

    /** `is_complete`: every cell filled and no unit repeats a digit. */
    method IsComplete() returns (complete: bool)
      requires Valid()
      ensures complete == (IsBoardComplete(Values()) && BoardValid(Values()))
      ensures complete <==> IsBoardComplete(Values()) && NoConflicts(Values())
    {
      var g := Values();
      complete := IsBoardComplete(g);
      if complete {
        complete := IsBoardValid(g);
      }
    }

    /**
     * `get_hint`: nothing once the quota is used up or when no cell is empty;
     * otherwise an empty cell with its digit from the solution, counting one
     * hint. The grid is left as it is. The source raises a TypeError when it
     * would read the solution of a board never initialised, so callers must
     * not ask for a hint that would need it.
     */
    method GetHint() returns (hint: Option<(int, int, int)>)
      requires Valid()
      requires solution.Some? || hintsUsed >= maxHints || IsBoardComplete(Values())
      modifies this`hintsUsed
      ensures Valid()
      ensures grid == old(grid) && solution == old(solution) && maxHints == old(maxHints)
      ensures old(hintsUsed) >= maxHints || IsBoardComplete(Values()) <==> hint.None?
      ensures hint.None? ==> hintsUsed == old(hintsUsed)
      ensures hint.Some? ==> (hintsUsed == old(hintsUsed) + 1 && solution.Some? &&
        var (r, c, v) := hint.value;
        IsValidCoordinate(r, c) && grid[r][c].value == 0 && v == solution.value[r][c])
    {
      if hintsUsed >= maxHints {
        return None;
      }
      var selected := SelectEmptyCell(Values());
      if selected.None? {
        return None;
      }
      var (row, col) := selected.value;
      var correctValue := solution.value[row][col];
      hintsUsed := hintsUsed + 1;
      return Some((row, col, correctValue));
    }

    /**
     * `auto_notes`: every empty, editable cell's notes are replaced by the
     * digits 1 to 9 that are legal there; values and other notes stay.
     * The legality checks read the digits once, which is the same as reading
     * them per check because only notes change during the loop.
     */
    method AutoNotes()
      requires Valid()
      modifies this`grid
      ensures Valid()
      ensures grid == WithAutoNotes(old(grid))
    {
      ghost var before := grid;
      var g := Values();
      var cells := grid;
      for row := 0 to GRID_SIZE
        invariant IsCellGrid(cells)
        invariant forall r, c :: 0 <= r < row && 0 <= c < GRID_SIZE ==> cells[r][c] == NotedCell(before[r][c], g, r, c)
        invariant forall r, c :: row <= r < GRID_SIZE && 0 <= c < GRID_SIZE ==> cells[r][c] == before[r][c]
      {
        for col := 0 to GRID_SIZE
          invariant IsCellGrid(cells)
          invariant forall r, c :: 0 <= r < row && 0 <= c < GRID_SIZE ==> cells[r][c] == NotedCell(before[r][c], g, r, c)
          invariant forall c :: 0 <= c < col ==> cells[row][c] == NotedCell(before[row][c], g, row, c)
          invariant forall c :: col <= c < GRID_SIZE ==> cells[row][c] == before[row][c]
          invariant forall r, c :: row < r < GRID_SIZE && 0 <= c < GRID_SIZE ==> cells[r][c] == before[r][c]
        {
          var cell := cells[row][col];
          if cell.value == 0 && !cell.isFixed {
            var notes: set<int> := {};
            for num := 1 to GRID_SIZE + 1
              invariant notes == set n | 1 <= n < num && ValidMove(g, row, col, n)
            {
              var legal := IsValidMove(g, row, col, num);
              if legal {
                notes := notes + {num};
              }
            }
            cells := cells[row := cells[row][col := cell.(notes := notes)]];
          }
        }
      }
      grid := cells;
      CellGridExt(grid, WithAutoNotes(before));
    }
  }
}
