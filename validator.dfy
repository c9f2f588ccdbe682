/**
 * The rule checker (sudoku/core/validator.py): per-move legality for a row,
 * a column and a 3x3 block, whole-board uniqueness of the placed digits, and
 * completeness. Every check only reads the grid, which is a value here, so no
 * check can change it.
 */
module Validator {
  import opened Config
  import opened Wrappers
  import opened Helpers

  /** The digits of a board, row by row; 0 is an empty cell. */
  type Grid = seq<seq<int>>

  predicate IsGrid(g: Grid) {
    |g| == GRID_SIZE && forall r :: 0 <= r < |g| ==> |g[r]| == GRID_SIZE
  }

  /** The all-zero grid of a fresh board. */
  function EmptyGrid(): (g: Grid)
    ensures IsGrid(g)
    ensures forall r, c :: 0 <= r < GRID_SIZE && 0 <= c < GRID_SIZE ==> g[r][c] == 0
  {
    seq(GRID_SIZE, r => seq(GRID_SIZE, c => 0))
  }

  // ---------------------------------------------------------------------------
  // Legality of one move

  /** No other cell of the row holds `value`. */
  predicate RowMoveOk(g: Grid, row: int, col: int, value: int)
    requires IsGrid(g) && IsValidCoordinate(row, col)
  {
    forall c :: 0 <= c < GRID_SIZE && c != col ==> g[row][c] != value
  }

  /** No other cell of the column holds `value`. */
  predicate ColumnMoveOk(g: Grid, row: int, col: int, value: int)
    requires IsGrid(g) && IsValidCoordinate(row, col)
  {
    forall r :: 0 <= r < GRID_SIZE && r != row ==> g[r][col] != value
  }

  /** No other cell of the 3x3 block starting at (row - row % 3, col - col % 3) holds `value`. */
  predicate BlockMoveOk(g: Grid, row: int, col: int, value: int)
    requires IsGrid(g) && IsValidCoordinate(row, col)
  {
    var startRow := row - row % 3;
    var startCol := col - col % 3;
    forall r, c :: startRow <= r < startRow + SUB_GRID_SIZE && startCol <= c < startCol + SUB_GRID_SIZE && (r != row || c != col) ==>
      g[r][c] != value
  }

  /** `is_valid_move`: clearing is always legal; a digit must be new to its column, row and block. */
  predicate ValidMove(g: Grid, row: int, col: int, value: int)
    requires IsGrid(g) && (value != 0 ==> IsValidCoordinate(row, col))
  {
    value == 0 || (ColumnMoveOk(g, row, col, value) && RowMoveOk(g, row, col, value) && BlockMoveOk(g, row, col, value))
  }

  /** The row scan that the source calls but does not define, written like the block scan. */
  method IsRowValidMove(g: Grid, row: int, col: int, value: int) returns (ok: bool)
    requires IsGrid(g) && IsValidCoordinate(row, col)
    ensures ok == RowMoveOk(g, row, col, value)
  {
    for c := 0 to GRID_SIZE
      invariant forall c' :: 0 <= c' < c && c' != col ==> g[row][c'] != value
    {
      if c != col && g[row][c] == value {
        return false;
      }
    }
    return true;
  }

  /** The column scan that the source calls but does not define, written like the block scan. */
  method IsColumnValidMove(g: Grid, row: int, col: int, value: int) returns (ok: bool)
    requires IsGrid(g) && IsValidCoordinate(row, col)
    ensures ok == ColumnMoveOk(g, row, col, value)
  {
    for r := 0 to GRID_SIZE
      invariant forall r' :: 0 <= r' < r && r' != row ==> g[r'][col] != value
    {
      if r != row && g[r][col] == value {
        return false;
      }
    }
    return true;
  }

  method IsBlockValidMove(g: Grid, row: int, col: int, value: int) returns (ok: bool)
    requires IsGrid(g) && IsValidCoordinate(row, col)
    ensures ok == BlockMoveOk(g, row, col, value)
  {
    var startRow := row - row % 3;
    var startCol := col - col % 3;
    for i := 0 to SUB_GRID_SIZE
      invariant forall r, c :: startRow <= r < startRow + i && startCol <= c < startCol + SUB_GRID_SIZE && (r != row || c != col) ==>
        g[r][c] != value
    {
      var r := startRow + i;
      for j := 0 to SUB_GRID_SIZE
        invariant forall r, c :: startRow <= r < startRow + i && startCol <= c < startCol + SUB_GRID_SIZE && (r != row || c != col) ==>
          g[r][c] != value
        invariant forall c :: startCol <= c < startCol + j && (r != row || c != col) ==> g[r][c] != value
      {
        var c := startCol + j;
        if (r != row || c != col) && g[r][c] == value {
          return false;
        }
      }
    }
    return true;
  }

  /** `is_valid_move`. Clearing needs no lookup, so any position is accepted for 0. */
  method IsValidMove(g: Grid, row: int, col: int, value: int) returns (ok: bool)
    requires IsGrid(g) && (value != 0 ==> IsValidCoordinate(row, col))
    ensures ok == ValidMove(g, row, col, value)
    ensures value == 0 ==> ok
  {
    if value == 0 {
      return true;
    }
    var columnOk := IsColumnValidMove(g, row, col, value);
    var rowOk := IsRowValidMove(g, row, col, value);
    var blockOk := IsBlockValidMove(g, row, col, value);
    ok := columnOk && rowOk && blockOk;
  }

  // ---------------------------------------------------------------------------
  // The move check as the source has it: lines 19-20 name two helpers the
  // class never defines, so Python raises AttributeError for every digit.

  datatype PyError = AttributeError(name: string)

  function IsValidMoveAsWritten(g: Grid, row: int, col: int, value: int): Result<bool, PyError>
    requires IsGrid(g)
  {
    if value == 0 then Success(true)
    else Failure(AttributeError("_SudokuValidator__is_column_valid_move"))
  }

  /** Placing 5 on an empty board is legal, yet the check as written raises instead of answering. */
  lemma AsWrittenRaisesOnLegalMove()
    ensures ValidMove(EmptyGrid(), 0, 0, 5)
    ensures IsValidMoveAsWritten(EmptyGrid(), 0, 0, 5).Failure?
  {
  }

  // ---------------------------------------------------------------------------
  // Whole-board checks

  /** The non-zero entries of a unit, in order (the source's filtered comprehensions and appends). */
  function NonZero(s: seq<int>): (r: seq<int>)
    ensures |r| <= |s|
    ensures forall x :: x in r <==> x in s && x != 0
  {
    if s == [] then []
    else NonZero(s[..|s| - 1]) + (if s[|s| - 1] != 0 then [s[|s| - 1]] else [])
  }

  function ToSet(values: seq<int>): set<int> {
    set x | x in values
  }

  /** `__has_unique_values`: the list is as long as the set of its elements. */
  predicate HasUniqueValues(values: seq<int>) {
    |values| == |ToSet(values)|
  }

  /** No two positions of the list hold the same element. */
  ghost predicate Distinct(values: seq<int>) {
    forall i, j :: 0 <= i < |values| && 0 <= j < |values| && i != j ==> values[i] != values[j]
  }

  /** No two positions of the unit hold the same non-zero digit. */
  ghost predicate DistinctNonZero(s: seq<int>) {
    forall i, j :: 0 <= i < |s| && 0 <= j < |s| && i != j && s[i] != 0 ==> s[i] != s[j]
  }

  lemma DistinctSnoc(v: seq<int>, a: int)
    ensures Distinct(v + [a]) <==> Distinct(v) && a !in v
  {
    var w := v + [a];
    if a in v {
      var i :| 0 <= i < |v| && v[i] == a;
      assert w[i] == w[|v|];
    }
    if !Distinct(v) {
      var i, j :| 0 <= i < |v| && 0 <= j < |v| && i != j && v[i] == v[j];
      assert w[i] == w[j];
    }
  }

  lemma DistinctNonZeroSnoc(v: seq<int>, a: int)
    ensures DistinctNonZero(v + [a]) <==> DistinctNonZero(v) && (a != 0 ==> a !in v)
  {
    var w := v + [a];
    if a != 0 && a in v {
      var i :| 0 <= i < |v| && v[i] == a;
      assert w[|v|] == w[i];
    }
    if !DistinctNonZero(v) {
      var i, j :| 0 <= i < |v| && 0 <= j < |v| && i != j && v[i] != 0 && v[i] == v[j];
      assert w[i] == w[j];
    }
  }

  /** `len(values) == len(set(values))` holds exactly when no element repeats. */
  lemma {:induction false} HasUniqueValuesIffDistinct(values: seq<int>)
    ensures |ToSet(values)| <= |values|
    ensures HasUniqueValues(values) <==> Distinct(values)
  {
    if values != [] {
      var p, a := values[..|values| - 1], values[|values| - 1];
      assert values == p + [a];
      HasUniqueValuesIffDistinct(p);
      DistinctSnoc(p, a);
      assert ToSet(values) == ToSet(p) + {a};
      if a in p {
        assert ToSet(values) == ToSet(p);
      } else {
        assert a !in ToSet(p);
      }
    }
  }

  /** Dropping the zeros and then asking for distinct elements is asking for distinct non-zero digits. */
  lemma {:induction false} NonZeroDistinctIff(s: seq<int>)
    ensures Distinct(NonZero(s)) <==> DistinctNonZero(s)
  {
    if s != [] {
      var p, a := s[..|s| - 1], s[|s| - 1];
      assert s == p + [a];
      NonZeroDistinctIff(p);
      DistinctNonZeroSnoc(p, a);
      assert NonZero(s) == NonZero(p) + (if a != 0 then [a] else []);
      if a != 0 {
        DistinctSnoc(NonZero(p), a);
        assert a in NonZero(p) <==> a in p;
      } else {
        assert NonZero(s) == NonZero(p);
      }
    }
  }

  lemma UniqueNonZeroIff(s: seq<int>)
    ensures HasUniqueValues(NonZero(s)) <==> DistinctNonZero(s)
  {
    HasUniqueValuesIffDistinct(NonZero(s));
    NonZeroDistinctIff(s);
  }

  function Column(g: Grid, col: int): (s: seq<int>)
    requires IsGrid(g) && 0 <= col < GRID_SIZE
  {
    seq(GRID_SIZE, r requires 0 <= r < GRID_SIZE => g[r][col])
  }

  /** A top or left edge of a 3x3 block: 0, 3 or 6. */
  predicate IsBlockStart(x: int) {
    x == 0 || x == 3 || x == 6
  }

  /** The nine digits of the block with top-left cell (startRow, startCol), row by row. */
  function Block(g: Grid, startRow: int, startCol: int): (s: seq<int>)
    requires IsGrid(g) && IsBlockStart(startRow) && IsBlockStart(startCol)
  {
    seq(9,
        k requires 0 <= k < 9 => g[startRow + k / 3][startCol + k % 3])
  }

  lemma BlockAt(g: Grid, startRow: int, startCol: int, i: int, j: int)
    requires IsGrid(g) && IsBlockStart(startRow) && IsBlockStart(startCol)
    requires 0 <= i < SUB_GRID_SIZE && 0 <= j < SUB_GRID_SIZE
    ensures Block(g, startRow, startCol)[3 * i + j] == g[startRow + i][startCol + j]
  {
    var k := 3 * i + j;
    assert k / 3 == i && k % 3 == j;
  }

  /** Cell (r, c) of the block at (startRow, startCol) is entry k of its list, k counting row by row. */
  lemma BlockCell(g: Grid, startRow: int, startCol: int, r: int, c: int, k: int)
    requires IsGrid(g) && IsBlockStart(startRow) && IsBlockStart(startCol)
    requires startRow <= r < startRow + 3 && startCol <= c < startCol + 3 && k == 3 * (r - startRow) + (c - startCol)
    ensures 0 <= k < 9 && Block(g, startRow, startCol)[k] == g[r][c]
  {
    BlockAt(g, startRow, startCol, r - startRow, c - startCol);
  }

  /** The comprehension form of the row check (lines 48-52). */
  ghost predicate RowsValid(g: Grid)
    requires IsGrid(g)
  {
    forall row :: 0 <= row < GRID_SIZE ==> HasUniqueValues(NonZero(g[row]))
  }

  /** The comprehension form of the column check (lines 42-46). */
  ghost predicate ColumnsValid(g: Grid)
    requires IsGrid(g)
  {
    forall col :: 0 <= col < GRID_SIZE ==> HasUniqueValues(NonZero(Column(g, col)))
  }

  ghost predicate BlocksValid(g: Grid)
    requires IsGrid(g)
  {
    forall startRow, startCol :: IsBlockStart(startRow) && IsBlockStart(startCol) ==>
      HasUniqueValues(NonZero(Block(g, startRow, startCol)))
  }

  /** `is_board_valid` as the source composes it. */
  ghost predicate BoardValid(g: Grid)
    requires IsGrid(g)
  {
    RowsValid(g) && ColumnsValid(g) && BlocksValid(g)
  }

  // Reference definition: no two different cells of one unit hold the same non-zero digit.

  ghost predicate NoRowConflict(g: Grid)
    requires IsGrid(g)
  {
    forall r, c1, c2 :: 0 <= r < GRID_SIZE && 0 <= c1 < GRID_SIZE && 0 <= c2 < GRID_SIZE && c1 != c2 && g[r][c1] != 0 ==>
      g[r][c1] != g[r][c2]
  }

  ghost predicate NoColumnConflict(g: Grid)
    requires IsGrid(g)
  {
    forall r1, r2, c :: 0 <= r1 < GRID_SIZE && 0 <= r2 < GRID_SIZE && 0 <= c < GRID_SIZE && r1 != r2 && g[r1][c] != 0 ==>
      g[r1][c] != g[r2][c]
  }

  ghost predicate NoBlockConflict(g: Grid)
    requires IsGrid(g)
  {
    forall r1, c1, r2, c2 ::
      IsValidCoordinate(r1, c1) && IsValidCoordinate(r2, c2) &&
      r1 / 3 == r2 / 3 && c1 / 3 == c2 / 3 &&
      (r1 != r2 || c1 != c2) && g[r1][c1] != 0 ==>
      g[r1][c1] != g[r2][c2]
  }

  ghost predicate NoConflicts(g: Grid)
    requires IsGrid(g)
  {
    NoRowConflict(g) && NoColumnConflict(g) && NoBlockConflict(g)
  }

  lemma RowsValidIff(g: Grid)
    requires IsGrid(g)
    ensures RowsValid(g) <==> NoRowConflict(g)
  {
    forall r | 0 <= r < GRID_SIZE {
      UniqueNonZeroIff(g[r]);
    }
  }

  lemma ColumnsValidIff(g: Grid)
    requires IsGrid(g)
    ensures ColumnsValid(g) <==> NoColumnConflict(g)
  {
    forall c | 0 <= c < GRID_SIZE {
      UniqueNonZeroIff(Column(g, c));
    }
    if ColumnsValid(g) {
      forall r1, r2, c | 0 <= r1 < GRID_SIZE && 0 <= r2 < GRID_SIZE && 0 <= c < GRID_SIZE && r1 != r2 && g[r1][c] != 0
        ensures g[r1][c] != g[r2][c]
      {
        assert Column(g, c)[r1] == g[r1][c] && Column(g, c)[r2] == g[r2][c];
      }
    }
  }

  /** Two different cells of one block sit at two different positions of that block's list. */
  lemma BlockPairAt(g: Grid, r1: int, c1: int, r2: int, c2: int) returns (sr: int, sc: int, k1: int, k2: int)
    requires IsGrid(g) && IsValidCoordinate(r1, c1) && IsValidCoordinate(r2, c2)
    requires r1 / 3 == r2 / 3 && c1 / 3 == c2 / 3 && (r1 != r2 || c1 != c2)
    ensures IsBlockStart(sr) && IsBlockStart(sc)
    ensures 0 <= k1 < 9 && 0 <= k2 < 9 && k1 != k2
    ensures Block(g, sr, sc)[k1] == g[r1][c1] && Block(g, sr, sc)[k2] == g[r2][c2]
  {
    sr, sc := r1 - r1 % 3, c1 - c1 % 3;
    var i1, j1, i2, j2 := r1 % 3, c1 % 3, r2 - sr, c2 - sc;
    assert 0 <= i2 < 3 && 0 <= j2 < 3;
    BlockAt(g, sr, sc, i1, j1);
    BlockAt(g, sr, sc, i2, j2);
    k1, k2 := 3 * i1 + j1, 3 * i2 + j2;
  }

  /** Two different positions of a block's list are two different cells of that block. */
  lemma BlockPositionsAreCells(g: Grid, sr: int, sc: int, i: int, j: int)
    requires IsGrid(g) && IsBlockStart(sr) && IsBlockStart(sc) && 0 <= i < 9 && 0 <= j < 9 && i != j
    ensures var r1, c1, r2, c2 := sr + i / 3, sc + i % 3, sr + j / 3, sc + j % 3;
      IsValidCoordinate(r1, c1) && IsValidCoordinate(r2, c2) &&
      r1 / 3 == r2 / 3 && c1 / 3 == c2 / 3 && (r1 != r2 || c1 != c2) &&
      Block(g, sr, sc)[i] == g[r1][c1] && Block(g, sr, sc)[j] == g[r2][c2]
  {
    var i1, i2, j1, j2 := i / 3, i % 3, j / 3, j % 3;
    BlockIndex(i);
    BlockIndex(j);
    BlockOffset(sr, i1);
    BlockOffset(sr, j1);
    BlockOffset(sc, i2);
    BlockOffset(sc, j2);
    BlockAt(g, sr, sc, i1, i2);
    BlockAt(g, sr, sc, j1, j2);
  }

  /** A position in a block's list splits into a row offset and a column offset. */
  lemma BlockIndex(k: int)
    requires 0 <= k < 9
    ensures k == 3 * (k / 3) + k % 3 && 0 <= k / 3 < 3 && 0 <= k % 3 < 3
  {
  }

  /** Every cell within a block lies on the board and shares the block's row/3. */
  lemma BlockOffset(start: int, d: int)
    requires IsBlockStart(start) && 0 <= d < 3
    ensures 0 <= start + d < GRID_SIZE && (start + d) / 3 == start / 3
  {
  }

  lemma BlocksValidOnlyIf(g: Grid)
    requires IsGrid(g) && BlocksValid(g)
    ensures NoBlockConflict(g)
  {
    forall r1, c1, r2, c2 |
      IsValidCoordinate(r1, c1) && IsValidCoordinate(r2, c2) &&
      r1 / 3 == r2 / 3 && c1 / 3 == c2 / 3 &&
      (r1 != r2 || c1 != c2) && g[r1][c1] != 0
      ensures g[r1][c1] != g[r2][c2]
    {
      var sr, sc, k1, k2 := BlockPairAt(g, r1, c1, r2, c2);
      UniqueNonZeroIff(Block(g, sr, sc));
      assert DistinctNonZero(Block(g, sr, sc));
    }
  }

  lemma BlocksValidIf(g: Grid)
    requires IsGrid(g) && NoBlockConflict(g)
    ensures BlocksValid(g)
  {
    forall sr, sc | IsBlockStart(sr) && IsBlockStart(sc)
      ensures HasUniqueValues(NonZero(Block(g, sr, sc)))
    {
      var b := Block(g, sr, sc);
      forall i, j | 0 <= i < |b| && 0 <= j < |b| && i != j && b[i] != 0
        ensures b[i] != b[j]
      {
        BlockPositionsAreCells(g, sr, sc, i, j);
      }
      UniqueNonZeroIff(b);
    }
  }

  lemma BlocksValidIff(g: Grid)
    requires IsGrid(g)
    ensures BlocksValid(g) <==> NoBlockConflict(g)
  {
    if BlocksValid(g) {
      BlocksValidOnlyIf(g);
    }
    if NoBlockConflict(g) {
      BlocksValidIf(g);
    }
  }

  /** The source's row, column and block checks agree with the reference definition. */
  lemma BoardValidIffNoConflicts(g: Grid)
    requires IsGrid(g)
    ensures BoardValid(g) <==> NoConflicts(g)
  {
    RowsValidIff(g);
    ColumnsValidIff(g);
    BlocksValidIff(g);
  }

  /** `__is_row_valid_board`, the loop form Python keeps (lines 73-79). */
  method IsRowValidBoard(g: Grid) returns (ok: bool)
    requires IsGrid(g)
    ensures ok == RowsValid(g)
  {
    for row := 0 to GRID_SIZE
      invariant forall r :: 0 <= r < row ==> HasUniqueValues(NonZero(g[r]))
    {
      var values := NonZero(g[row]);
      if |values| != |ToSet(values)| {
        return false;
      }
    }
    return true;
  }

  /** `__is_column_valid_board`, the loop form Python keeps (lines 65-71). */
  method IsColumnValidBoard(g: Grid) returns (ok: bool)
    requires IsGrid(g)
    ensures ok == ColumnsValid(g)
  {
    for col := 0 to GRID_SIZE
      invariant forall c :: 0 <= c < col ==> HasUniqueValues(NonZero(Column(g, c)))
    {
      var values := NonZero(Column(g, col));
      if |values| != |ToSet(values)| {
        return false;
      }
    }
    return true;
  }

  /** Appending the next entry of a unit extends its non-zero list by that entry when it is non-zero. */
  lemma NonZeroPrefixStep(s: seq<int>, k: int)
    requires 0 <= k < |s|
    ensures NonZero(s[..k + 1]) == NonZero(s[..k]) + (if s[k] != 0 then [s[k]] else [])
  {
    assert s[..k + 1][..k] == s[..k];
  }

  /** Lines 85-89: the non-zero digits of one block, gathered row by row with `append`. */
  method CollectBlockValues(g: Grid, blockRow: int, blockCol: int) returns (values: seq<int>)
    requires IsGrid(g) && IsBlockStart(blockRow) && IsBlockStart(blockCol)
    ensures values == NonZero(Block(g, blockRow, blockCol))
  {
    assert blockRow <= 6 && blockCol <= 6;
    ghost var b := Block(g, blockRow, blockCol);
    ghost var k := 0;  // cells visited so far
    values := [];
    for row := blockRow to blockRow + SUB_GRID_SIZE
      invariant k == 3 * (row - blockRow)
      invariant values == NonZero(b[..k])
    {
      for col := blockCol to blockCol + SUB_GRID_SIZE
        invariant k == 3 * (row - blockRow) + (col - blockCol)
        invariant values == NonZero(b[..k])
      {
        BlockCell(g, blockRow, blockCol, row, col, k);
        NonZeroPrefixStep(b, k);
        if g[row][col] != 0 {
          values := values + [g[row][col]];
        }
        k := k + 1;
      }
    }
    assert b[..|b|] == b;
  }

  method IsBlockValidBoard(g: Grid) returns (ok: bool)
    requires IsGrid(g)
    ensures ok == BlocksValid(g)
  {
    var blockRow := 0;
    while blockRow < GRID_SIZE
      invariant IsBlockStart(blockRow) || blockRow == GRID_SIZE
      invariant forall sr, sc :: IsBlockStart(sr) && IsBlockStart(sc) && sr < blockRow ==>
        HasUniqueValues(NonZero(Block(g, sr, sc)))
    {
      var blockCol := 0;
      while blockCol < GRID_SIZE
        invariant IsBlockStart(blockCol) || blockCol == GRID_SIZE
        invariant forall sr, sc :: IsBlockStart(sr) && IsBlockStart(sc) && (sr < blockRow || (sr == blockRow && sc < blockCol)) ==>
          HasUniqueValues(NonZero(Block(g, sr, sc)))
      {
        var values := CollectBlockValues(g, blockRow, blockCol);
        if |values| != |ToSet(values)| {
          return false;
        }
        blockCol := blockCol + SUB_GRID_SIZE;
      }
      blockRow := blockRow + SUB_GRID_SIZE;
    }
    return true;
  }

  /** `is_board_valid`: true exactly when no unit holds a non-zero digit twice; zeros are ignored. */
  method IsBoardValid(g: Grid) returns (ok: bool)
    requires IsGrid(g)
    ensures ok == BoardValid(g)
    ensures ok <==> NoConflicts(g)
  {
    var rowsOk := IsRowValidBoard(g);
    var columnsOk := IsColumnValidBoard(g);
    var blocksOk := IsBlockValidBoard(g);
    ok := rowsOk && columnsOk && blocksOk;
    BoardValidIffNoConflicts(g);
  }

  /** `is_board_complete`: no cell is 0. */
  predicate IsBoardComplete(g: Grid)
    requires IsGrid(g)
  {
    forall r, c :: 0 <= r < GRID_SIZE && 0 <= c < GRID_SIZE ==> g[r][c] != 0
  }

  /** The empty board is valid but not complete. */
  lemma EmptyGridValidNotComplete()
    ensures BoardValid(EmptyGrid()) && NoConflicts(EmptyGrid())
    ensures !IsBoardComplete(EmptyGrid())
  {
    var g := EmptyGrid();
    assert g[0][0] == 0;
    assert NoRowConflict(g) && NoColumnConflict(g);
    assert NoBlockConflict(g);
    BoardValidIffNoConflicts(g);
  }

  // ---------------------------------------------------------------------------
  // How a move relates to the board check

  /** The grid after writing `value` at (row, col). */
  function Place(g: Grid, row: int, col: int, value: int): (h: Grid)
    requires IsGrid(g) && IsValidCoordinate(row, col)
    ensures IsGrid(h)
  {
    g[row := g[row][col := value]]
  }

  /** A digit new to its row, or a 0, keeps the rows free of repeats. */
  lemma PlaceKeepsRows(g: Grid, row: int, col: int, value: int)
    requires IsGrid(g) && IsValidCoordinate(row, col) && NoRowConflict(g)
    requires value != 0 ==> RowMoveOk(g, row, col, value)
    ensures NoRowConflict(Place(g, row, col, value))
  {
    var h := Place(g, row, col, value);
    forall r, c1, c2 | 0 <= r < GRID_SIZE && 0 <= c1 < GRID_SIZE && 0 <= c2 < GRID_SIZE && c1 != c2 && h[r][c1] != 0
      ensures h[r][c1] != h[r][c2]
    {
    }
  }

  /** A digit new to its column, or a 0, keeps the columns free of repeats. */
  lemma PlaceKeepsColumns(g: Grid, row: int, col: int, value: int)
    requires IsGrid(g) && IsValidCoordinate(row, col) && NoColumnConflict(g)
    requires value != 0 ==> ColumnMoveOk(g, row, col, value)
    ensures NoColumnConflict(Place(g, row, col, value))
  {
    var h := Place(g, row, col, value);
    forall r1, r2, c | 0 <= r1 < GRID_SIZE && 0 <= r2 < GRID_SIZE && 0 <= c < GRID_SIZE && r1 != r2 && h[r1][c] != 0
      ensures h[r1][c] != h[r2][c]
    {
    }
  }

  /** A digit new to its block, or a 0, keeps the blocks free of repeats. */
  lemma PlaceKeepsBlocks(g: Grid, row: int, col: int, value: int)
    requires IsGrid(g) && IsValidCoordinate(row, col) && NoBlockConflict(g)
    requires value != 0 ==> BlockMoveOk(g, row, col, value)
    ensures NoBlockConflict(Place(g, row, col, value))
  {
    var h := Place(g, row, col, value);
    SameBlockIffInRange(row);
    SameBlockIffInRange(col);
    forall r1, c1, r2, c2 |
      IsValidCoordinate(r1, c1) && IsValidCoordinate(r2, c2) &&
      r1 / 3 == r2 / 3 && c1 / 3 == c2 / 3 &&
      (r1 != r2 || c1 != c2) && h[r1][c1] != 0
      ensures h[r1][c1] != h[r2][c2]
    {
      if (r1, c1) == (row, col) {
        assert g[r2][c2] != value && h[r2][c2] == g[r2][c2];
      } else if (r2, c2) == (row, col) {
        assert g[r1][c1] != value && h[r1][c1] == g[r1][c1];
      } else {
        assert h[r1][c1] == g[r1][c1] && h[r2][c2] == g[r2][c2];
      }
    }
  }

  /** If writing a digit leaves no repeats, the digit was new to its row, column and block. */
  lemma ConflictFreePlaceIsLegal(g: Grid, row: int, col: int, value: int)
    requires IsGrid(g) && IsValidCoordinate(row, col) && value != 0
    requires NoConflicts(Place(g, row, col, value))
    ensures ValidMove(g, row, col, value)
  {
    var h := Place(g, row, col, value);
    assert h[row][col] == value;
    assert RowMoveOk(g, row, col, value) by {
      forall c | 0 <= c < GRID_SIZE && c != col ensures g[row][c] != value {
        assert h[row][c] == g[row][c];
      }
    }
    assert ColumnMoveOk(g, row, col, value) by {
      forall r | 0 <= r < GRID_SIZE && r != row ensures g[r][col] != value {
        assert h[r][col] == g[r][col];
      }
    }
    assert BlockMoveOk(g, row, col, value) by {
      SameBlockIffInRange(row);
      SameBlockIffInRange(col);
      var startRow, startCol := row - row % 3, col - col % 3;
      forall r, c | startRow <= r < startRow + SUB_GRID_SIZE && startCol <= c < startCol + SUB_GRID_SIZE && (r != row || c != col)
        ensures g[r][c] != value
      {
        assert h[r][c] == g[r][c];
      }
    }
  }

  /** On a conflict-free board a move is legal exactly when writing it keeps the board conflict-free. */
  lemma LegalMoveIffStaysConflictFree(g: Grid, row: int, col: int, value: int)
    requires IsGrid(g) && IsValidCoordinate(row, col) && NoConflicts(g)
    ensures ValidMove(g, row, col, value) <==> NoConflicts(Place(g, row, col, value))
  {
    if ValidMove(g, row, col, value) {
      PlaceKeepsRows(g, row, col, value);
      PlaceKeepsColumns(g, row, col, value);
      PlaceKeepsBlocks(g, row, col, value);
    }
    if NoConflicts(Place(g, row, col, value)) && value != 0 {
      ConflictFreePlaceIsLegal(g, row, col, value);
    }
  }

  /** A first row 5 3 _ _ 7 _ _ _ _ on an otherwise empty board: 5 repeats the row, 4 does not. */
  lemma FirstRowExample()
    ensures var g := EmptyGrid()[0 := [5, 3, 0, 0, 7, 0, 0, 0, 0]];
      IsGrid(g) && !ValidMove(g, 0, 2, 5) && ValidMove(g, 0, 2, 4)
  {
    var g := EmptyGrid()[0 := [5, 3, 0, 0, 7, 0, 0, 0, 0]];
    assert g[0][0] == 5;
  }
}
