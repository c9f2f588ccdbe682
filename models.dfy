/**
 * The value types of the game: the difficulty levels (sudoku/models/difficulty.py)
 * and the cell record held by the board.
 */
module Models {

  /** The three difficulty levels, in the order the enumeration declares them. */
  datatype Difficulty = EASY | MEDIUM | HARD {

    /** The enumeration value. */
    function Value(): int {
      match this
      case EASY => 40
      case MEDIUM => 25
      case HARD => 20
    }

    /** The member's `name`, as stored in records and looked up by the scorer. */
    function Name(): string {
      match this
      case EASY => "EASY"
      case MEDIUM => "MEDIUM"
      case HARD => "HARD"
    }
  }

  /** Iteration order of `for difficulty in Difficulty`. */
  const AllDifficulties: seq<Difficulty> := [EASY, MEDIUM, HARD]

  lemma AllDifficultiesListsEachOnce(d: Difficulty)
    ensures d in AllDifficulties
    ensures |AllDifficulties| == 3
    ensures forall i, j :: 0 <= i < j < 3 ==> AllDifficulties[i] != AllDifficulties[j]
  {
  }

  /** Distinct levels have distinct names and distinct values. */
  lemma NamesAndValuesAreInjective(d: Difficulty, e: Difficulty)
    ensures d.Name() == e.Name() ==> d == e
    ensures d.Value() == e.Value() ==> d == e
  {
  }

  /**
   * One grid position. `row` and `col` are its identity; `value` is 0 for an
   * empty cell; `isFixed` marks a given; `isValid` caches the legality of the
   * last value the player wrote; `notes` are the player's candidate digits.
   */
  datatype Cell = Cell(row: int, col: int, value: int, isFixed: bool, isValid: bool, notes: set<int>)

  /** A freshly created cell: empty, editable, valid, without notes. */
  function EmptyCell(row: int, col: int): (cell: Cell)
    ensures cell.row == row && cell.col == col
    ensures cell.value == 0 && !cell.isFixed && cell.isValid && cell.notes == {}
  {
    Cell(row, col, 0, false, true, {})
  }

  /** The cell's note set after `toggle_note(value)`: `value` flips membership, nothing else changes. */
  function ToggledNotes(notes: set<int>, value: int): (r: set<int>)
    ensures value in r <==> value !in notes
    ensures forall n :: n != value ==> (n in r <==> n in notes)
  {
    if value in notes then notes - {value} else notes + {value}
  }

  /** Toggling the same note twice restores the note set. */
  lemma ToggleTwiceRestores(notes: set<int>, value: int)
    ensures ToggledNotes(ToggledNotes(notes, value), value) == notes
  {
  }
}
