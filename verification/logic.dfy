/** The state-changing operations of `GameLogic` (logic.cpp): `Restart`,
    `Move` with its special moves, the promotion request, `ChangeTurn` and
    the debug setters. Every operation maps a `Game` to a new `Game`. */
module Logic {
  import opened Coordinates
  import opened Types
  import opened TravelMaps
  import opened Rules
  import opened Castling
  import opened StartPosition

  // ---------------------------------------------------------------- Restart

  /** `Restart` (the constructor only calls it): whatever the game was, the
      start position, White to move, no promotion pending at location
      (0,0), and castling recomputed for White. */
  function Restart(g: Game): (r: Game)
    ensures r.turn == White && r.promotion == Promotion(false, XY(0, 0))
    ensures forall i :: 0 <= i < 64 ==>
      r.board[i] == StartSquare(Cell(i)).(castlingTarget := r.board[i].castlingTarget)
  {
    var s := StartBoard(g.board);
    forall i | 0 <= i < 64
      ensures s[i] == StartSquare(Cell(i))
    {
      IdxCellInverse(Cell(i), i);
      StartBoardAt(g.board, Cell(i));
    }
    Game(UpdateCastling(s, White), Promotion(false, XY(0, 0)), White)
  }

  /** On a board with White's only king on (4,7) in the last two rows and
      White pieces on (1,7) and (5,7), White has no castling right on
      either side. */
  lemma NoCastlingRightBehindPieces(s: Board)
    requires IsKingOf(At(s, XY(4, 7)), White)
    requires !IsKingOf(At(s, XY(5, 7)), White) && !IsKingOf(At(s, XY(6, 7)), White) && !IsKingOf(At(s, XY(7, 7)), White)
    requires At(s, XY(1, 7)).owner == White && At(s, XY(5, 7)).owner == White
    ensures !CastlingRight(s, White, 0) && !CastlingRight(s, White, 7)
  {
    var c := ClearCastling(s);
    var k := FindKing(c, White);
    assert IsKingOf(c[Idx(XY(4, 7))], White);
    if InRange8(k) {
      assert Idx(k) >= 60;
      assert !IsKingOf(c[Idx(XY(5, 7))], White) && !IsKingOf(c[Idx(XY(6, 7))], White) && !IsKingOf(c[Idx(XY(7, 7))], White);
      assert Idx(k) == Idx(XY(4, 7));
      IdxInjective(k, XY(4, 7));
      assert At(c, XY(1, 7)).owner == White;
      assert At(c, XY(5, 7)).owner == White;
    }
  }

  /** After `Restart` no castling flag is set: the knights and bishops stand
      between the kings and the rooks. */
  lemma RestartNoCastling(g: Game)
    ensures forall i :: 0 <= i < 64 ==> !Restart(g).board[i].castlingTarget
  {
    var s := StartBoard(g.board);
    StartBoardAt(g.board, XY(1, 7));
    StartBoardAt(g.board, XY(4, 7));
    StartBoardAt(g.board, XY(5, 7));
    StartBoardAt(g.board, XY(6, 7));
    StartBoardAt(g.board, XY(7, 7));
    NoCastlingRightBehindPieces(s);
    CastlingMeaning(s, White);
    assert Restart(g).board == UpdateCastling(s, White);
  }

  /** The row `UpdateCastlingInformation` looks at for castling is the row
      on which `Restart` lays out the player's back rank. */
  lemma HomeRowIsBackRow(player: int)
    requires player == Black || player == White
    ensures HomeRow(player) == BackRow(player)
    ensures StartSquare(XY(4, HomeRow(player))) == Square(player, King, false, false, false)
    ensures StartSquare(XY(0, HomeRow(player))).piece == Rook && StartSquare(XY(7, HomeRow(player))).piece == Rook
  {
  }

  /** The layout after `Restart`, square by square. */
  lemma RestartLayout(g: Game, x: int, y: int)
    requires 0 <= x < 8 && 0 <= y < 8
    ensures At(Restart(g).board, XY(x, y)).owner == (if y <= 1 then Black else if y >= 6 then White else Nobody)
    ensures At(Restart(g).board, XY(x, y)).piece ==
      (if y == 0 || y == 7 then BackRank[x] else if y == 1 || y == 6 then Pawn else NoPiece)
    ensures At(Restart(g).board, XY(x, y)).touched <==> 2 <= y <= 5
    ensures !At(Restart(g).board, XY(x, y)).enPassantTarget && !At(Restart(g).board, XY(x, y)).castlingTarget
  {
    RestartNoCastling(g);
    IdxCellInverse(XY(x, y), Idx(XY(x, y)));
  }

  // ------------------------------------------------------------------- Move

  /** The assignments of "move the piece": `to` takes the owner and piece
      of `from`, then `from` becomes empty and touched. Flags stay put. */
  function Relocate(b: Board, from: XY, to: XY): (r: Board)
    requires InRange8(from) && InRange8(to)
    ensures forall i :: 0 <= i < 64 && i != Idx(from) && i != Idx(to) ==> r[i] == b[i]
    ensures At(r, from) == At(b, from).(owner := Nobody, piece := NoPiece, touched := true)
    ensures from != to ==> At(r, to) == At(b, to).(owner := At(b, from).owner, piece := At(b, from).piece)
    ensures forall i :: 0 <= i < 64 ==> r[i].castlingTarget == b[i].castlingTarget
  {
    IdxInjective(from, to);
    var b1 := b[Idx(to) := At(b, to).(owner := At(b, from).owner, piece := At(b, from).piece)];
    b1[Idx(from) := b1[Idx(from)].(owner := Nobody, piece := NoPiece, touched := true)]
  }

  /** The corner a castling rook leaves: column 7 when the king moved right,
      column 0 otherwise, on the king's destination row. */
  function RookSource(s: XY, d: XY): XY
  {
    if d.x > s.x then XY(7, d.y) else XY(0, d.y)
  }

  /** Where the castling rook lands: column 5 when the king moved right,
      column 3 otherwise. */
  function RookDestination(s: XY, d: XY): XY
  {
    if d.x > s.x then XY(5, d.y) else XY(3, d.y)
  }

  /** A king that landed on a castling target brings the rook along. */
  function CastleRook(b: Board, s: XY, d: XY): (r: Board)
    requires InRange8(s) && InRange8(d)
    ensures forall i :: 0 <= i < 64 ==> r[i].castlingTarget == b[i].castlingTarget
  {
    if At(b, d).piece == King && At(b, d).castlingTarget then
      Relocate(b, RookSource(s, d), RookDestination(s, d))
    else b
  }

  /** The square an en-passant capture empties: one row back from `d` in
      the direction of the side to move (`Turn`, not the mover), or `d`
      itself when the turn is neither Black nor White. */
  function CapturedSquare(turn: int, d: XY): XY
  {
    if turn == Black then XY(d.x, d.y - 1)
    else if turn == White then XY(d.x, d.y + 1)
    else d
  }

  /** A pawn that landed on an en-passant target empties the captured
      square, when that square is on the board. */
  function CaptureEnPassant(b: Board, turn: int, d: XY): (r: Board)
    requires InRange8(d)
    ensures forall i :: 0 <= i < 64 ==> r[i].castlingTarget == b[i].castlingTarget
  {
    var c := CapturedSquare(turn, d);
    if At(b, d).piece == Pawn && At(b, d).enPassantTarget && InRange8(c) then
      b[Idx(c) := At(b, c).(owner := Nobody, piece := NoPiece)]
    else b
  }

  /** Every en-passant flag cleared. */
  function ClearEnPassant(b: Board): (r: Board)
    ensures forall i :: 0 <= i < 64 ==> r[i] == b[i].(enPassantTarget := false)
  {
    seq(64, i requires 0 <= i < 64 => b[i].(enPassantTarget := false))
  }

  /** The square behind a pawn on `d`, as seen from its owner now standing
      there; no square for a piece of neither player. */
  function PassedOver(b: Board, d: XY): XY
    requires InRange8(d)
  {
    if At(b, d).owner == Black then XY(d.x, d.y - 1)
    else if At(b, d).owner == White then XY(d.x, d.y + 1)
    else NoSquare
  }

  /** A pawn that moved two rows leaves the en-passant flag on the square
      it passed over. */
  function MarkPassedOver(b: Board, s: XY, d: XY): (r: Board)
    requires InRange8(d)
    ensures forall i :: 0 <= i < 64 ==> r[i].castlingTarget == b[i].castlingTarget
    ensures (forall i :: 0 <= i < 64 ==> !b[i].enPassantTarget) ==>
      forall i, j :: 0 <= i < 64 && 0 <= j < 64 && r[i].enPassantTarget && r[j].enPassantTarget ==> i == j
  {
    var m := PassedOver(b, d);
    if At(b, d).piece == Pawn && Abs(d.y - s.y) == 2 && InRange8(m) then
      b[Idx(m) := At(b, m).(enPassantTarget := true)]
    else b
  }

  /** The last row for a pawn of the owner standing on `d`: row 7 for Black,
      row 0 for White. */
  predicate PromotionDue(b: Board, d: XY)
    requires InRange8(d)
  {
    At(b, d).piece == Pawn && ((At(b, d).owner == Black && d.y == 7) || (At(b, d).owner == White && d.y == 0))
  }

  /** The board after a successful `Move`, before the promotion check. */
  function MovedBoard(b: Board, turn: int, s: XY, d: XY): (r: Board)
    requires InRange8(s) && InRange8(d)
    ensures forall i :: 0 <= i < 64 ==> r[i].castlingTarget == b[i].castlingTarget
    ensures forall i, j :: 0 <= i < 64 && 0 <= j < 64 && r[i].enPassantTarget && r[j].enPassantTarget ==> i == j
  {
    var b1 := Relocate(b, s, d);
    var b2 := CastleRook(b1, s, d);
    var b3 := CaptureEnPassant(b2, turn, d);
    MarkPassedOver(ClearEnPassant(b3), s, d)
  }

  /** What `Move` reports, with the game it leaves behind. */
  datatype Outcome = Outcome(moved: bool, game: Game)

  /** `Move`: the move succeeds exactly when the legal-move map of the
      piece on `s` (for its own owner, whoever's turn it is) marks `d`.
      A failed move changes nothing; no move changes the turn or a
      castling flag. */
  function Move(g: Game, s: XY, d: XY): (r: Outcome)
    requires InRange8(s) && InRange8(d)
    ensures r.moved <==> PieceMap(g.board, At(g.board, s).owner, s, LegalMoves)[Idx(d)] == 1
    ensures !r.moved ==> r.game == g
    ensures r.game.turn == g.turn
    ensures forall i :: 0 <= i < 64 ==> r.game.board[i].castlingTarget == g.board[i].castlingTarget
    ensures r.game.promotion == g.promotion || r.game.promotion == Promotion(true, d)
    ensures r.moved ==> forall i, j :: 0 <= i < 64 && 0 <= j < 64 && r.game.board[i].enPassantTarget && r.game.board[j].enPassantTarget ==> i == j
  {
    var b := g.board;
    if !CanSelect(b, At(b, s).owner, s) then Outcome(false, g)
    else if PieceMap(b, At(b, s).owner, s, LegalMoves)[Idx(d)] > 0 then
      var nb := MovedBoard(b, g.turn, s, d);
      Outcome(true, Game(nb, if PromotionDue(nb, d) then Promotion(true, d) else g.promotion, g.turn))
    else Outcome(false, g)
  }

  /** `Move` succeeds exactly when the piece's candidate map marks `d`, a
      king's `d` is not attacked by the opponent, and, if the mover's king
      is in check, the simulated swap onto `d` leaves it out of check. */
  lemma MoveMeaning(g: Game, s: XY, d: XY)
    requires InRange8(s) && InRange8(d)
    ensures var b := g.board; var o := At(b, s).owner;
      Move(g, s, d).moved <==>
        && CandidateMap(b, o, s, LegalMoves)[Idx(d)] == 1
        && (At(b, s).piece == King ==> AttackMap(b, Opponent(o))[Idx(d)] == 0)
        && (KingInCheck(b, o) ==> !KingInCheck(SwapPieces(b, s, d), o))
  {
    PieceMapMeaning(g.board, At(g.board, s).owner, s, LegalMoves);
    IdxCellInverse(d, Idx(d));
  }

  /** A successful move lands on a square the mover does not own, so the
      piece never stays where it is, except for a king moving onto a
      castling flag (which may lie under the king itself). */
  lemma MoveTargetsOther(g: Game, s: XY, d: XY)
    requires InRange8(s) && InRange8(d) && Move(g, s, d).moved
    requires !(At(g.board, s).piece == King && At(g.board, d).castlingTarget)
    ensures At(g.board, d).owner != At(g.board, s).owner
    ensures s != d
  {
    var b := g.board;
    var o := At(b, s).owner;
    PieceMapWithinCandidates(b, o, s, LegalMoves, Idx(d));
    IdxCellInverse(d, Idx(d));
    var v :| v in Vectors(b, o, s, LegalMoves) && Travel(b, o, s, v, Distance(At(b, s).piece))[Idx(d)] == 1;
  }

  /** A successful "move" of a piece onto its own square empties the
      square: the piece disappears. */
  lemma MoveInPlace(g: Game, s: XY)
    requires InRange8(s) && Move(g, s, s).moved
    ensures At(Move(g, s, s).game.board, s).owner == Nobody
    ensures At(Move(g, s, s).game.board, s).piece == NoPiece
  {
    var b1 := Relocate(g.board, s, s);
    assert CastleRook(b1, s, s) == b1;
    assert CaptureEnPassant(b1, g.turn, s) == b1;
    assert MarkPassedOver(ClearEnPassant(b1), s, s) == ClearEnPassant(b1);
  }

  /** Whatever moves, only the source, the destination, the castling rook's
      two squares and the en-passant capture square can change owner,
      piece or touched flag; elsewhere only en-passant flags change. */
  lemma MoveFrame(g: Game, s: XY, d: XY, i: int)
    requires InRange8(s) && InRange8(d) && 0 <= i < 64
    requires Cell(i) != s && Cell(i) != d && Cell(i) != RookSource(s, d) && Cell(i) != RookDestination(s, d)
    requires Cell(i) != CapturedSquare(g.turn, d)
    ensures Move(g, s, d).game.board[i] == g.board[i].(enPassantTarget := Move(g, s, d).game.board[i].enPassantTarget)
  {
    if Move(g, s, d).moved {
      MovedBoardFrame(g.board, g.turn, s, d, i);
    }
  }

  /** `MoveFrame` for the moved board. */
  lemma MovedBoardFrame(b: Board, turn: int, s: XY, d: XY, i: int)
    requires InRange8(s) && InRange8(d) && 0 <= i < 64
    requires Cell(i) != s && Cell(i) != d && Cell(i) != RookSource(s, d) && Cell(i) != RookDestination(s, d)
    requires Cell(i) != CapturedSquare(turn, d)
    ensures MovedBoard(b, turn, s, d)[i] == b[i].(enPassantTarget := MovedBoard(b, turn, s, d)[i].enPassantTarget)
  {
    IdxCellInverse(s, i);
    IdxCellInverse(d, i);
    IdxCellInverse(RookSource(s, d), i);
    IdxCellInverse(RookDestination(s, d), i);
    var b1 := Relocate(b, s, d);
    var b2 := CastleRook(b1, s, d);
    assert b2[i] == b[i];
    var c := CapturedSquare(turn, d);
    if InRange8(c) {
      IdxCellInverse(c, i);
    }
    var b3 := CaptureEnPassant(b2, turn, d);
    assert b3[i] == b[i];
  }

  /** A successful move of a piece other than a pawn, and other than a
      king onto a castling flag, just moves it: the destination takes the
      mover, the source becomes empty and touched, every en-passant flag is
      cleared, nothing else changes and no promotion is requested. */
  lemma MoveOrdinary(g: Game, s: XY, d: XY)
    requires InRange8(s) && InRange8(d) && Move(g, s, d).moved
    requires At(g.board, s).piece != Pawn
    requires !(At(g.board, s).piece == King && At(g.board, d).castlingTarget)
    ensures At(Move(g, s, d).game.board, d) ==
      At(g.board, d).(owner := At(g.board, s).owner, piece := At(g.board, s).piece, enPassantTarget := false)
    ensures At(Move(g, s, d).game.board, s) ==
      At(g.board, s).(owner := Nobody, piece := NoPiece, touched := true, enPassantTarget := false)
    ensures forall i :: 0 <= i < 64 && i != Idx(s) && i != Idx(d) ==>
      Move(g, s, d).game.board[i] == g.board[i].(enPassantTarget := false)
    ensures Move(g, s, d).game.promotion == g.promotion
  {
    var b := g.board;
    MoveTargetsOther(g, s, d);
    var b1 := Relocate(b, s, d);
    assert CastleRook(b1, s, d) == b1;
    assert CaptureEnPassant(b1, g.turn, d) == b1;
    assert MarkPassedOver(ClearEnPassant(b1), s, d) == ClearEnPassant(b1);
  }

  /** A rook that moves onto an untouched corner of its own home row (the
      first rook there having been captured in place) arrives on a square
      whose touched flag is still clear, so it counts as a rook that has
      never moved. */
  lemma RookOnUntouchedCorner(g: Game, s: XY, rookX: int)
    requires rookX == 0 || rookX == 7
    requires InRange8(s) && At(g.board, s).piece == Rook
    requires At(g.board, s).owner == Black || At(g.board, s).owner == White
    requires !At(g.board, XY(rookX, HomeRow(At(g.board, s).owner))).touched
    requires Move(g, s, XY(rookX, HomeRow(At(g.board, s).owner))).moved
    ensures RookReady(Move(g, s, XY(rookX, HomeRow(At(g.board, s).owner))).game.board,
      At(g.board, s).owner, HomeRow(At(g.board, s).owner), rookX)
  {
    MoveOrdinary(g, s, XY(rookX, HomeRow(At(g.board, s).owner)));
  }

  /** The last row of a pawn of `player`: row 7 for Black, row 0 for
      White. */
  function LastRow(player: int): int
  {
    if player == Black then 7 else 0
  }

  /** A pawn that moves never takes the castling step. */
  lemma PawnSteps(g: Game, s: XY, d: XY)
    requires InRange8(s) && InRange8(d) && Move(g, s, d).moved
    requires At(g.board, s).piece == Pawn
    requires At(g.board, s).owner == g.turn && (g.turn == Black || g.turn == White)
    ensures d.y == s.y + PawnDirection(g.turn) || (d.y == s.y + 2 * PawnDirection(g.turn) && d.x == s.x)
    ensures s != d
    ensures Move(g, s, d).game.board ==
      MarkPassedOver(ClearEnPassant(CaptureEnPassant(Relocate(g.board, s, d), g.turn, d)), s, d)
  {
    PawnMoveShape(g.board, g.turn, s, LegalMoves, d);
    MoveTargetsOther(g, s, d);
    var b1 := Relocate(g.board, s, d);
    assert CastleRook(b1, s, d) == b1;
  }

  /** The board a pawn move of `o` from `s` to `d` leaves, without the
      castling step. */
  function PawnBoard(b: Board, o: int, s: XY, d: XY): Board
    requires InRange8(s) && InRange8(d)
  {
    MarkPassedOver(ClearEnPassant(CaptureEnPassant(Relocate(b, s, d), o, d)), s, d)
  }

  /** The en-passant capture step of a pawn move, on the pawn's two
      squares and on the captured square. */
  lemma PawnCaptureSquares(b: Board, o: int, s: XY, d: XY)
    requires InRange8(s) && InRange8(d) && s != d
    requires At(b, s).piece == Pawn && At(b, s).owner == o && (o == Black || o == White)
    requires d.y == s.y + PawnDirection(o) || (d.y == s.y + 2 * PawnDirection(o) && d.x == s.x)
    ensures At(CaptureEnPassant(Relocate(b, s, d), o, d), d) == At(b, d).(owner := o, piece := Pawn)
    ensures At(CaptureEnPassant(Relocate(b, s, d), o, d), s) ==
      At(b, s).(owner := Nobody, piece := NoPiece, touched := true)
    ensures At(b, d).enPassantTarget ==>
      At(CaptureEnPassant(Relocate(b, s, d), o, d), XY(d.x, d.y - PawnDirection(o))).owner == Nobody &&
      At(CaptureEnPassant(Relocate(b, s, d), o, d), XY(d.x, d.y - PawnDirection(o))).piece == NoPiece
  {
    var b1 := Relocate(b, s, d);
    var c := XY(d.x, d.y - PawnDirection(o));
    assert CapturedSquare(o, d) == c;
    IdxInjective(c, d);
    IdxInjective(c, s);
  }

  /** Marking the passed-over square changes no other square. */
  lemma MarkPassedOverElsewhere(b: Board, s: XY, d: XY, p: XY)
    requires InRange8(d) && InRange8(p) && p != PassedOver(b, d)
    ensures At(MarkPassedOver(b, s, d), p) == At(b, p)
  {
    var m := PassedOver(b, d);
    if InRange8(m) {
      IdxInjective(m, p);
    }
  }

  /** The pawn-move board on the pawn's two squares and on the square an
      en-passant capture empties. */
  lemma PawnBoardSquares(b: Board, o: int, s: XY, d: XY)
    requires InRange8(s) && InRange8(d) && s != d
    requires At(b, s).piece == Pawn && At(b, s).owner == o && (o == Black || o == White)
    requires d.y == s.y + PawnDirection(o) || (d.y == s.y + 2 * PawnDirection(o) && d.x == s.x)
    ensures At(PawnBoard(b, o, s, d), d) == At(b, d).(owner := o, piece := Pawn, enPassantTarget := false)
    ensures At(PawnBoard(b, o, s, d), s) ==
      At(b, s).(owner := Nobody, piece := NoPiece, touched := true, enPassantTarget := false)
    ensures At(b, d).enPassantTarget ==>
      At(PawnBoard(b, o, s, d), XY(d.x, d.y - PawnDirection(o))).owner == Nobody &&
      At(PawnBoard(b, o, s, d), XY(d.x, d.y - PawnDirection(o))).piece == NoPiece
  {
    var c := XY(d.x, d.y - PawnDirection(o));
    var b3 := CaptureEnPassant(Relocate(b, s, d), o, d);
    PawnCaptureSquares(b, o, s, d);
    var b4 := ClearEnPassant(b3);
    assert At(b4, d).owner == o;
    var m := PassedOver(b4, d);
    assert m == c;
    MarkPassedOverElsewhere(b4, s, d, d);
    if Abs(d.y - s.y) == 2 {
      MarkPassedOverElsewhere(b4, s, d, s);
    } else {
      assert MarkPassedOver(b4, s, d) == b4;
    }
  }

  /** A pawn move by the side to move: the pawn leaves its square empty
      and touched and stands on the destination (which keeps its own
      touched flag), and a pawn landing on an en-passant target empties
      the square behind it. */
  lemma MovePawn(g: Game, s: XY, d: XY)
    requires InRange8(s) && InRange8(d) && Move(g, s, d).moved
    requires At(g.board, s).piece == Pawn
    requires At(g.board, s).owner == g.turn && (g.turn == Black || g.turn == White)
    ensures d.y == s.y + PawnDirection(g.turn) || (d.y == s.y + 2 * PawnDirection(g.turn) && d.x == s.x)
    ensures At(Move(g, s, d).game.board, d) ==
      At(g.board, d).(owner := g.turn, piece := Pawn, enPassantTarget := false)
    ensures At(Move(g, s, d).game.board, s) ==
      At(g.board, s).(owner := Nobody, piece := NoPiece, touched := true, enPassantTarget := false)
    ensures At(g.board, d).enPassantTarget ==>
      At(Move(g, s, d).game.board, XY(d.x, d.y - PawnDirection(g.turn))).owner == Nobody &&
      At(Move(g, s, d).game.board, XY(d.x, d.y - PawnDirection(g.turn))).piece == NoPiece
  {
    PawnSteps(g, s, d);
    assert Move(g, s, d).game.board == PawnBoard(g.board, g.turn, s, d);
    PawnBoardSquares(g.board, g.turn, s, d);
  }

  /** On the pawn-move board the only en-passant flag is the square a
      two-row move passed over. */
  lemma PawnBoardEnPassant(b: Board, o: int, s: XY, d: XY)
    requires InRange8(s) && InRange8(d) && s != d
    requires At(b, s).piece == Pawn && At(b, s).owner == o && (o == Black || o == White)
    requires d.y == s.y + PawnDirection(o) || (d.y == s.y + 2 * PawnDirection(o) && d.x == s.x)
    ensures forall i :: 0 <= i < 64 ==>
      (PawnBoard(b, o, s, d)[i].enPassantTarget <==> Abs(d.y - s.y) == 2 && i == Idx(XY(s.x, s.y + PawnDirection(o))))
  {
    var b3 := CaptureEnPassant(Relocate(b, s, d), o, d);
    PawnCaptureSquares(b, o, s, d);
    var b4 := ClearEnPassant(b3);
    assert At(b4, d).owner == o && At(b4, d).piece == Pawn;
    if Abs(d.y - s.y) == 2 {
      assert PassedOver(b4, d) == XY(s.x, s.y + PawnDirection(o));
    }
  }

  /** After a pawn move by the side to move, the square passed over by a
      two-row move is the one en-passant flag on the board; after any other
      pawn move there is none. */
  lemma MovePawnEnPassant(g: Game, s: XY, d: XY)
    requires InRange8(s) && InRange8(d) && Move(g, s, d).moved
    requires At(g.board, s).piece == Pawn
    requires At(g.board, s).owner == g.turn && (g.turn == Black || g.turn == White)
    ensures d.y == s.y + PawnDirection(g.turn) || (d.y == s.y + 2 * PawnDirection(g.turn) && d.x == s.x)
    ensures forall i :: 0 <= i < 64 ==>
      (Move(g, s, d).game.board[i].enPassantTarget <==>
        Abs(d.y - s.y) == 2 && i == Idx(XY(s.x, s.y + PawnDirection(g.turn))))
  {
    PawnSteps(g, s, d);
    assert Move(g, s, d).game.board == PawnBoard(g.board, g.turn, s, d);
    PawnBoardEnPassant(g.board, g.turn, s, d);
  }

  /** A pawn move by the side to move requests a promotion at the
      destination exactly when the pawn reaches its last row; otherwise the
      promotion state stays as it was. */
  lemma MovePromotion(g: Game, s: XY, d: XY)
    requires InRange8(s) && InRange8(d) && Move(g, s, d).moved
    requires At(g.board, s).piece == Pawn
    requires At(g.board, s).owner == g.turn && (g.turn == Black || g.turn == White)
    ensures Move(g, s, d).game.promotion ==
      if d.y == LastRow(g.turn) then Promotion(true, d) else g.promotion
  {
    MovePawn(g, s, d);
  }

  /** A king castling onto flag `(2, row)` or `(6, row)`: the king stands
      on the flag, the corner rook on its side moves next to it (column 3
      or 5) and leaves its corner empty and touched, the king's source is
      empty and touched unless the rook landed there, no en-passant flag
      is left and no promotion is requested. */
  lemma MoveCastles(g: Game, s: XY, d: XY)
    requires InRange8(s) && InRange8(d) && Move(g, s, d).moved
    requires At(g.board, s).piece == King && At(g.board, d).castlingTarget
    requires s != d && (d.x == 2 || d.x == 6)
    ensures At(Move(g, s, d).game.board, d) ==
      At(g.board, d).(owner := At(g.board, s).owner, piece := King, enPassantTarget := false)
    ensures At(Move(g, s, d).game.board, RookDestination(s, d)).owner == At(g.board, RookSource(s, d)).owner
    ensures At(Move(g, s, d).game.board, RookDestination(s, d)).piece == At(g.board, RookSource(s, d)).piece
    ensures At(Move(g, s, d).game.board, RookSource(s, d)) ==
      At(g.board, RookSource(s, d)).(owner := Nobody, piece := NoPiece, touched := true, enPassantTarget := false)
    ensures s != RookDestination(s, d) ==>
      At(Move(g, s, d).game.board, s) == At(g.board, s).(owner := Nobody, piece := NoPiece, touched := true, enPassantTarget := false)
    ensures forall i :: 0 <= i < 64 ==> !Move(g, s, d).game.board[i].enPassantTarget
    ensures Move(g, s, d).game.promotion == g.promotion
  {
    CastleBoardSquares(g.board, g.turn, s, d);
  }

  /** King and rook relocated by castling, before the en-passant flags are
      cleared. */
  function CastledBoard(b: Board, s: XY, d: XY): Board
    requires InRange8(s) && InRange8(d)
  {
    Relocate(Relocate(b, s, d), RookSource(s, d), RookDestination(s, d))
  }

  /** A king moving onto a castling flag: the moved board is the castled
      board with the en-passant flags cleared (no capture or mark
      applies), and the castled board holds king and rook on their new
      squares. */
  lemma CastleBoardSquares(b: Board, turn: int, s: XY, d: XY)
    requires InRange8(s) && InRange8(d) && s != d && (d.x == 2 || d.x == 6)
    requires At(b, s).piece == King && At(b, d).castlingTarget
    ensures MovedBoard(b, turn, s, d) == ClearEnPassant(CastledBoard(b, s, d))
    ensures At(CastledBoard(b, s, d), d) == At(b, d).(owner := At(b, s).owner, piece := King)
    ensures At(CastledBoard(b, s, d), RookDestination(s, d)).owner == At(b, RookSource(s, d)).owner
    ensures At(CastledBoard(b, s, d), RookDestination(s, d)).piece == At(b, RookSource(s, d)).piece
    ensures At(CastledBoard(b, s, d), RookSource(s, d)) ==
      At(b, RookSource(s, d)).(owner := Nobody, piece := NoPiece, touched := true)
    ensures s != RookDestination(s, d) ==>
      At(CastledBoard(b, s, d), s) == At(b, s).(owner := Nobody, piece := NoPiece, touched := true)
  {
    var rs := RookSource(s, d);
    var rd := RookDestination(s, d);
    IdxInjective(s, d);
    IdxInjective(rs, d);
    IdxInjective(rd, d);
    IdxInjective(rs, s);
    IdxInjective(rd, s);
    IdxInjective(rs, rd);
    var b1 := Relocate(b, s, d);
    var b2 := Relocate(b1, rs, rd);
    assert CastleRook(b1, s, d) == b2;
    assert At(b2, d) == At(b1, d);
    assert CaptureEnPassant(b2, turn, d) == b2;
    assert MarkPassedOver(ClearEnPassant(b2), s, d) == ClearEnPassant(b2);
  }

  // ------------------------------------------------------------ Promotion

  /** `PromotionRequested`. */
  function PromotionRequested(g: Game): bool
  {
    g.promotion.pending
  }

  /** `QueryPromotionLocation`: the square waiting for its new piece, or
      (-1,-1) when no promotion is pending. */
  function QueryPromotionLocation(g: Game): (r: XY)
    ensures PromotionRequested(g) ==> r == g.promotion.location
    ensures !PromotionRequested(g) ==> r == NoSquare
  {
    if !g.promotion.pending then NoSquare else g.promotion.location
  }

  /** `SatisfyPromotionRequest`: the piece on the stored location becomes
      `piece` (owner and flags stay) and the request is withdrawn. The
      source writes at the stored location without checking that a
      request is pending. */
  function SatisfyPromotionRequest(g: Game, piece: int): (r: Game)
    requires InRange8(g.promotion.location)
    ensures At(r.board, g.promotion.location) == At(g.board, g.promotion.location).(piece := piece)
    ensures forall i :: 0 <= i < 64 && i != Idx(g.promotion.location) ==> r.board[i] == g.board[i]
    ensures !PromotionRequested(r) && QueryPromotionLocation(r) == NoSquare && r.promotion.location == NoSquare
    ensures r.turn == g.turn
  {
    var p := g.promotion.location;
    Game(g.board[Idx(p) := At(g.board, p).(piece := piece)], Promotion(false, NoSquare), g.turn)
  }

  /** A pawn of the side to move that reaches its last row is reported by
      the promotion accessors, and satisfying the request leaves the
      player's chosen piece on that square with no request pending. */
  lemma PromotionCompletes(g: Game, s: XY, d: XY, piece: int)
    requires InRange8(s) && InRange8(d) && Move(g, s, d).moved
    requires At(g.board, s).piece == Pawn
    requires At(g.board, s).owner == g.turn && (g.turn == Black || g.turn == White)
    requires d.y == LastRow(g.turn)
    ensures PromotionRequested(Move(g, s, d).game) && QueryPromotionLocation(Move(g, s, d).game) == d
    ensures At(SatisfyPromotionRequest(Move(g, s, d).game, piece).board, d).owner == g.turn
    ensures At(SatisfyPromotionRequest(Move(g, s, d).game, piece).board, d).piece == piece
    ensures !PromotionRequested(SatisfyPromotionRequest(Move(g, s, d).game, piece))
  {
    MovePromotion(g, s, d);
    MovePawn(g, s, d);
  }

  // ---------------------------------------------------------- Turn change

  /** `ChangeTurn`: the opponent of the side to move moves next and the
      castling flags are recomputed for it; nothing else changes. */
  function ChangeTurn(g: Game): (r: Game)
    ensures r.turn == Opponent(g.turn) && r.promotion == g.promotion
    ensures forall i :: 0 <= i < 64 ==> r.board[i] == g.board[i].(castlingTarget := r.board[i].castlingTarget)
  {
    Game(UpdateCastling(g.board, Opponent(g.turn)), g.promotion, Opponent(g.turn))
  }

  /** After `ChangeTurn` the castling flags are exactly the ones
      `CastlingRight` grants the new side to move, on its home row. */
  lemma ChangeTurnCastling(g: Game)
    ensures At(ChangeTurn(g).board, XY(2, HomeRow(Opponent(g.turn)))).castlingTarget <==>
      CastlingRight(g.board, Opponent(g.turn), 0)
    ensures At(ChangeTurn(g).board, XY(6, HomeRow(Opponent(g.turn)))).castlingTarget <==>
      CastlingRight(g.board, Opponent(g.turn), 7)
    ensures forall i :: 0 <= i < 64 && ChangeTurn(g).board[i].castlingTarget ==>
      i == Idx(XY(2, HomeRow(Opponent(g.turn)))) || i == Idx(XY(6, HomeRow(Opponent(g.turn))))
  {
    CastlingMeaning(g.board, Opponent(g.turn));
  }

  /** Two turn changes give the move back to the same player with the same
      pieces; a turn that is neither player stays with Nobody. */
  lemma ChangeTurnTwice(g: Game)
    ensures g.turn == Black || g.turn == White ==> ChangeTurn(ChangeTurn(g)).turn == g.turn
    ensures g.turn != Black && g.turn != White ==> ChangeTurn(g).turn == Nobody
    ensures forall i :: 0 <= i < 64 ==>
      ChangeTurn(ChangeTurn(g)).board[i] == g.board[i].(castlingTarget := ChangeTurn(ChangeTurn(g)).board[i].castlingTarget)
  {
    if g.turn == Black || g.turn == White {
      OpponentInvolution(g.turn);
    }
  }

  // ------------------------------------------------------- Debug setters

  /** `SetPieceDebug`: puts `piece` on square `p` and recomputes the
      castling flags for the side to move. */
  function SetPieceDebug(g: Game, p: XY, piece: int): (r: Game)
    requires InRange8(p)
    ensures At(r.board, p) == At(g.board, p).(piece := piece, castlingTarget := At(r.board, p).castlingTarget)
    ensures forall i :: 0 <= i < 64 && i != Idx(p) ==> r.board[i] == g.board[i].(castlingTarget := r.board[i].castlingTarget)
    ensures r.turn == g.turn && r.promotion == g.promotion
    ensures forall i :: 0 <= i < 64 && r.board[i].castlingTarget ==>
      i == Idx(XY(2, HomeRow(g.turn))) || i == Idx(XY(6, HomeRow(g.turn)))
  {
    Game(UpdateCastling(g.board[Idx(p) := At(g.board, p).(piece := piece)], g.turn), g.promotion, g.turn)
  }

  /** After `SetPieceDebug` the castling flags are exactly the ones
      `CastlingRight` grants the side to move on the edited board. */
  lemma SetPieceDebugCastling(g: Game, p: XY, piece: int)
    requires InRange8(p)
    ensures At(SetPieceDebug(g, p, piece).board, XY(2, HomeRow(g.turn))).castlingTarget <==>
      CastlingRight(g.board[Idx(p) := At(g.board, p).(piece := piece)], g.turn, 0)
    ensures At(SetPieceDebug(g, p, piece).board, XY(6, HomeRow(g.turn))).castlingTarget <==>
      CastlingRight(g.board[Idx(p) := At(g.board, p).(piece := piece)], g.turn, 7)
  {
    CastlingMeaning(g.board[Idx(p) := At(g.board, p).(piece := piece)], g.turn);
  }

  /** `SetOwnerDebug`: gives square `p` to `owner` and recomputes the
      castling flags for the side to move. */
  function SetOwnerDebug(g: Game, p: XY, owner: int): (r: Game)
    requires InRange8(p)
    ensures At(r.board, p) == At(g.board, p).(owner := owner, castlingTarget := At(r.board, p).castlingTarget)
    ensures forall i :: 0 <= i < 64 && i != Idx(p) ==> r.board[i] == g.board[i].(castlingTarget := r.board[i].castlingTarget)
    ensures r.turn == g.turn && r.promotion == g.promotion
    ensures forall i :: 0 <= i < 64 && r.board[i].castlingTarget ==>
      i == Idx(XY(2, HomeRow(g.turn))) || i == Idx(XY(6, HomeRow(g.turn)))
  {
    Game(UpdateCastling(g.board[Idx(p) := At(g.board, p).(owner := owner)], g.turn), g.promotion, g.turn)
  }

  /** After `SetOwnerDebug` the castling flags are exactly the ones
      `CastlingRight` grants the side to move on the edited board. */
  lemma SetOwnerDebugCastling(g: Game, p: XY, owner: int)
    requires InRange8(p)
    ensures At(SetOwnerDebug(g, p, owner).board, XY(2, HomeRow(g.turn))).castlingTarget <==>
      CastlingRight(g.board[Idx(p) := At(g.board, p).(owner := owner)], g.turn, 0)
    ensures At(SetOwnerDebug(g, p, owner).board, XY(6, HomeRow(g.turn))).castlingTarget <==>
      CastlingRight(g.board[Idx(p) := At(g.board, p).(owner := owner)], g.turn, 7)
  {
    CastlingMeaning(g.board[Idx(p) := At(g.board, p).(owner := owner)], g.turn);
  }
}
