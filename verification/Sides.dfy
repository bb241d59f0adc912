/** The sides of a binary tree. */
module Sides {
  datatype Direction = Left | Right

  function Opposite(d: Direction): Direction {
    if d == Left then Right else Left
  }
}
