/** Game-wide constants of the Sudoku game (sudoku/config.py). */
module Config {
  /** Side of the square grid. */
  const GRID_SIZE: int := 9
  /**
   * Side of one 3x3 block. Divisions and remainders by the block side are
   * written with the literal 3 elsewhere, which keeps that arithmetic linear
   * for the verifier.
   */
  const SUB_GRID_SIZE: int := 3
  /** Hint quota a fresh board starts with. */
  const MAX_HINTS: int := 3
}
