/** What the engine takes from `constants/game`, a file that is not part of this
    model: the side of the square board and the game phases. */
module GameConstants {

  /** The board side: its value is not known here, only that a 3x3 block fits. */
  type GridSide = n: int | 3 <= n witness 3

  /** GRID_SIZE, left unspecified apart from GRID_SIZE >= 3. */
  const GRID_SIZE: GridSide

  /** The phases the game moves through (the values the source compares against). */
  datatype GamePhase = Idle | PartA | TransitionAB | PartB | TransitionBA | Complete
}
