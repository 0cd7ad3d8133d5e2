/** Error results standing in for the exceptions the engine and the players throw. */
module Wrappers {

  datatype Option<+T> = None | Some(value: T)

  /** One constructor per exception condition of the modelled code. */
  datatype Error =
    | IllegalPosition        // index outside the board
    | CellNotEmpty           // target cell already holds X or O
    | IllegalCellValue       // asked to declare EMPTY the winner
    | SymmetriesExhausted    // symmetry cursor advanced past its last view
    | IndexOutOfBounds       // an array or list index past its end
    | GameFinishedAlready    // a player asked to move on a full board
    | GameNotFound           // no tree state matches the live board
    | GameNotFinished        // game result reported while still playing
    | UnexpectedOutcome      // a child state without a WIN/LOSE/DRAW outcome

  datatype Result<+T> = Ok(value: T) | Err(error: Error)
}
