/** The data model shared by the whole game: the mark in one square, a
    board of nine squares, and the mark of the player to move. */
module Marks {

  datatype Option<+T> = None | Some(value: T)

  /** The content of one square. The source stores null, 'X' or 'O';
      `Empty` stands for null. */
  datatype Cell = Empty | X | O

  /** An index of a square, row-major: 0-2 top row, 3-5 middle, 6-8 bottom. */
  type Index = i: nat | i < 9

  /** The starting board, `Array(9).fill(null)`. */
  const EmptySquares: seq<Cell> := [Empty, Empty, Empty, Empty, Empty, Empty, Empty, Empty, Empty]

  /** A board snapshot: always exactly nine squares. */
  type Squares = s: seq<Cell> | |s| == 9 witness EmptySquares

  /** The mark the player to move writes: X when `xIsNext`, O otherwise. */
  function Mark(xIsNext: bool): (m: Cell)
    ensures m != Empty && (m == X <==> xIsNext)
  {
    if xIsNext then X else O
  }

  /** The text the source shows for a mark; an empty square shows nothing. */
  function MarkText(m: Cell): string {
    match m
    case X => "X"
    case O => "O"
    case Empty => ""
  }
}
