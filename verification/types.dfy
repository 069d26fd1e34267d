/** The data types of the engine (alderchess.hpp): player and piece codes,
    one board square, the board, the pending promotion and the game state,
    with the default values the header gives them. */
module Types {
  import opened Coordinates

  // PlayerType. The engine stores players as plain integers, and a loaded
  // save can hold the otherwise unused 2-bit value 3.
  const Nobody := 0
  const Black := 1
  const White := 2

  // PieceType. A loaded save can hold the unused 3-bit value 7.
  const NoPiece := 0
  const Pawn := 1
  const Knight := 2
  const Bishop := 3
  const Rook := 4
  const Dame := 5
  const King := 6

  /** `BoardPiece`: one square and what stands on it. */
  datatype Square = Square(
    owner: int,
    piece: int,
    touched: bool,
    enPassantTarget: bool,
    castlingTarget: bool)

  /** The member initialisers of `BoardPiece`. */
  const DefaultSquare := Square(Nobody, NoPiece, false, false, false)

  /** `Matrix<BoardPiece, 8, 8>`, row-major. */
  type Board = b: seq<Square> | |b| == 64 witness seq(64, _ => DefaultSquare)

  /** The `Promotion` member of `GameLogic`. */
  datatype Promotion = Promotion(pending: bool, location: XY)

  /** The member initialiser of `Promotion`. */
  const DefaultPromotion := Promotion(false, NoSquare)

  /** The member initialiser of `Turn`. */
  const DefaultTurn := White

  /** The state of `GameLogic`. */
  datatype Game = Game(board: Board, promotion: Promotion, turn: int)

  /** The save format gives the owner two bits and the piece three. */
  predicate Encodable(s: Square)
  {
    0 <= s.owner < 4 && 0 <= s.piece < 8
  }

  /** Every `PlayerType` and `PieceType` value fits its field of a save byte,
      and the default square holds neither owner nor piece. */
  lemma CodesFitSaveFields(owner: int, piece: int, t: bool, e: bool, c: bool)
    requires owner in {Nobody, Black, White}
    requires piece in {NoPiece, Pawn, Knight, Bishop, Rook, Dame, King}
    ensures Encodable(Square(owner, piece, t, e, c))
    ensures DefaultSquare.owner == Nobody && DefaultSquare.piece == NoPiece
    ensures !DefaultSquare.touched && !DefaultSquare.enPassantTarget && !DefaultSquare.castlingTarget
    ensures !DefaultPromotion.pending && DefaultPromotion.location == XY(-1, -1)
    ensures DefaultTurn == White
  {
  }

  /** The square at an on-board coordinate: `Board[p.y][p.x]`. */
  function At(b: Board, p: XY): Square
    requires InRange8(p)
  {
    b[Idx(p)]
  }

  /** `Opponent`: Black and White swap, anything else has no opponent. */
  function Opponent(player: int): (r: int)
    ensures r == White <==> player == Black
    ensures r == Black <==> player == White
    ensures r == Nobody <==> player != Black && player != White
  {
    if player == Black then White
    else if player == White then Black
    else Nobody
  }

  /** The opponent of the opponent of a real player is the player. */
  lemma OpponentInvolution(player: int)
    requires player == Black || player == White
    ensures Opponent(Opponent(player)) == player
    ensures Opponent(player) != player
  {
  }

  /** `CanSelect`: the player owns the square. */
  function CanSelect(b: Board, player: int, p: XY): (r: bool)
    requires InRange8(p)
  {
    At(b, p).owner == player
  }
}
