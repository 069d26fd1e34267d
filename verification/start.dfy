/** The start position `Restart` lays out (logic.cpp): the two loops that
    blank the board and place the pieces. */
module StartPosition {
  import opened Coordinates
  import opened Types

  /** The back rank from column 0 to column 7. */
  const BackRank := [Rook, Knight, Bishop, Dame, King, Bishop, Knight, Rook]

  /** The start position square by square: Black's back rank on row 0 and
      pawns on row 1, White's pawns on row 6 and back rank on row 7, every
      other square empty; rows 2 to 5 touched, no flags. */
  function StartSquare(p: XY): Square
    requires InRange8(p)
  {
    Square(
      if p.y <= 1 then Black else if p.y >= 6 then White else Nobody,
      if p.y == 0 || p.y == 7 then BackRank[p.x] else if p.y == 1 || p.y == 6 then Pawn else NoPiece,
      2 <= p.y <= 5,
      false,
      false)
  }

  /** The first loop of `Restart`: every square of the board is emptied
      and unflagged, and rows 2 to 5 are touched. */
  function BlankBoard(b: Board): Board
  {
    seq(64, i requires 0 <= i < 64 =>
      b[i].(touched := !(Cell(i).y <= 1 || Cell(i).y >= 6), enPassantTarget := false, castlingTarget := false,
            piece := NoPiece, owner := Nobody))
  }

  /** One square after the first loop of `Restart`. */
  function BlankSquare(p: XY): Square
  {
    Square(Nobody, NoPiece, !(p.y <= 1 || p.y >= 6), false, false)
  }

  /** The row of owner `o`'s back rank, `(o - 1) * 7`. */
  function BackRow(o: int): (y: int)
    requires o == Black || o == White
    ensures y == (if o == Black then 0 else 7)
  {
    (o - 1) * 7
  }

  /** The row of owner `o`'s pawns, `(o - 1) * 7 + 1 - (o - 1) * 2`. */
  function PawnRow(o: int): (y: int)
    requires o == Black || o == White
    ensures y == (if o == Black then 1 else 6)
  {
    (o - 1) * 7 + 1 - (o - 1) * 2
  }

  /** What the placing loop for owner `o` makes of the square `s` at `p`:
      the back-rank piece of column `p.x` on row `(o - 1) * 7`, a pawn on
      row `(o - 1) * 7 + 1 - (o - 1) * 2`, anything else unchanged. */
  function Placed(s: Square, o: int, p: XY): Square
    requires o == Black || o == White
    requires InRange8(p)
  {
    if p.y == BackRow(o) then s.(owner := o, piece := BackRank[p.x])
    else if p.y == PawnRow(o) then s.(owner := o, piece := Pawn)
    else s
  }

  /** One pass of the second loop of `Restart`, for owner `o`, over all
      eight columns. */
  function Populate(b: Board, o: int): Board
    requires o == Black || o == White
  {
    seq(64, i requires 0 <= i < 64 => Placed(b[i], o, Cell(i)))
  }

  /** The board `Restart` makes of `b`, before the castling update. */
  function StartBoard(b: Board): Board
  {
    Populate(Populate(BlankBoard(b), Black), White)
  }

  /** Both passes of the placing loop turn a blank square into the start
      square. */
  lemma PlacedTwice(p: XY)
    requires InRange8(p)
    ensures Placed(Placed(BlankSquare(p), Black, p), White, p) == StartSquare(p)
  {
  }

  /** Each square of `StartBoard` is the start square, whatever the board
      was before. */
  lemma StartBoardAt(b: Board, p: XY)
    requires InRange8(p)
    ensures StartBoard(b)[Idx(p)] == StartSquare(p)
  {
    IdxCellInverse(p, Idx(p));
    PlacedTwice(p);
  }
}
