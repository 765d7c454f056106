/** Option and Result values, and the error conditions the game raises. */
module Wrappers {

  datatype Option<+T> = None | Some(value: T)

  /** The conditions the game reports by raising an exception. */
  datatype Error =
    | InvalidRange      // a negative bound passed to the uniform draw
    | EmptyDie          // a die built from no faces
    | TooFewDice        // a game started with fewer than three dice
    | NoDiceAvailable   // the computer asked to pick from an empty pool
    | EndOfInput        // the input ran out before a valid answer was read

  datatype Result<+T> = Ok(value: T) | Err(error: Error)
}
