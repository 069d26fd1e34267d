/** Castling eligibility (logic.cpp, `UpdateCastlingInformation`): which of
    the two squares a king may castle to carry the castling flag. */
module Castling {
  import opened Coordinates
  import opened Matrices
  import opened Types
  import opened Rules

  /** The board with every castling flag cleared. */
  function ClearCastling(b: Board): (r: Board)
    ensures forall i :: 0 <= i < 64 ==> r[i] == b[i].(castlingTarget := false)
  {
    seq(64, i requires 0 <= i < 64 => b[i].(castlingTarget := false))
  }

  /** The home row of a player's pieces: 7 for White, 0 for anyone else. */
  function HomeRow(player: int): (row: int)
    ensures row == 7 <==> player == White
    ensures row == 0 <==> player != White
  {
    if player == White then 7 else 0
  }

  function Min(a: int, b: int): int { if a < b then a else b }
  function Max(a: int, b: int): int { if a < b then b else a }

  /** Square `(x, row)` is empty and not attacked. */
  predicate SquareClear(b: Board, attacked: Matrix, row: int, x: int)
    requires 0 <= row < 8 && 0 <= x < 8
  {
    At(b, XY(x, row)).owner == Nobody && attacked[Idx(XY(x, row))] <= 0
  }

  /** The source's loop over the squares `e..endX-1` of `row` between king
      and rook: the ground stays clear while every such square is. */
  function GroundClear(b: Board, attacked: Matrix, row: int, e: int, endX: int): (r: bool)
    requires 0 <= row < 8 && 0 <= e && endX <= 8
    ensures r <==> forall x :: e <= x < endX ==> SquareClear(b, attacked, row, x)
    decreases endX - e
  {
    if e >= endX then true
    else
      var rest := GroundClear(b, attacked, row, e + 1, endX);
      SquareClear(b, attacked, row, e) && rest
  }

  /** The corner square `(rookX, row)` holds an untouched rook of the player. */
  predicate RookReady(b: Board, player: int, row: int, rookX: int)
    requires 0 <= row < 8 && 0 <= rookX < 8
  {
    var s := At(b, XY(rookX, row));
    s.owner == player && s.piece == Rook && !s.touched
  }

  /** The literal king-has-moved test: it only bails out when the king is
      off column 4 AND off its home row AND its square is touched. */
  predicate KingBails(b: Board, k: XY, row: int)
    requires InRange8(k)
  {
    k.x != 4 && k.y != row && At(b, k).touched
  }

  /** The target square castling with the rook on column `rookX` gives. */
  function CastlingSquare(rookX: int, row: int): XY
  {
    if rookX == 0 then XY(2, row) else XY(6, row)
  }

  /** Whether the loop body for the rook on column `rookX` sets its flag. */
  predicate RookCastles(c: Board, player: int, row: int, k: XY, attacked: Matrix, rookX: int)
    requires 0 <= row < 8 && InRange8(k) && (rookX == 0 || rookX == 7)
  {
    RookReady(c, player, row, rookX) && GroundClear(c, attacked, row, Min(rookX, k.x) + 1, Max(rookX, k.x))
  }

  /** The board `c` with the flags of `(2, row)` and `(6, row)` set as asked. */
  function SetFlags(c: Board, row: int, queenside: bool, kingside: bool): (r: Board)
    requires 0 <= row < 8
    ensures forall i :: 0 <= i < 64 ==> r[i] == c[i].(castlingTarget := r[i].castlingTarget)
    ensures forall i :: 0 <= i < 64 ==>
      (r[i].castlingTarget <==> c[i].castlingTarget || (queenside && i == Idx(XY(2, row))) || (kingside && i == Idx(XY(6, row))))
  {
    seq(64, i requires 0 <= i < 64 =>
      c[i].(castlingTarget := c[i].castlingTarget || (queenside && i == 8 * row + 2) || (kingside && i == 8 * row + 6)))
  }

  /** The early returns of `UpdateCastlingInformation` all pass: the
      player is a real player, not in check, has a king, and the king
      passes the literal has-moved test. */
  predicate Eligible(c: Board, player: int)
  {
    && player != Nobody
    && !KingInCheck(c, player)
    && InRange8(FindKing(c, player))
    && !KingBails(c, FindKing(c, player), HomeRow(player))
  }

  /** The loop over the two corner rooks: on the cleared board `c`, with
      the king on `k` and the opponent's attack map `attacked`, sets the
      flag of each castling square whose rook passes the loop body. */
  function RookLoop(c: Board, player: int, k: XY, attacked: Matrix): Board
    requires InRange8(k)
  {
    var row := HomeRow(player);
    SetFlags(c, row, RookCastles(c, player, row, k, attacked, 0), RookCastles(c, player, row, k, attacked, 7))
  }

  /** `UpdateCastlingInformation`: clears every castling flag, then sets the
      flags the player's king may castle to. */
  function UpdateCastling(b: Board, player: int): (r: Board)
    ensures forall i :: 0 <= i < 64 ==> r[i] == b[i].(castlingTarget := r[i].castlingTarget)
    ensures forall i :: 0 <= i < 64 && r[i].castlingTarget ==>
      i == Idx(XY(2, HomeRow(player))) || i == Idx(XY(6, HomeRow(player)))
    ensures player == Nobody || KingInCheck(ClearCastling(b), player) ==>
      forall i :: 0 <= i < 64 ==> !r[i].castlingTarget
  {
    var c := ClearCastling(b);
    if !Eligible(c, player) then c
    else RookLoop(c, player, FindKing(c, player), AttackMap(c, Opponent(player)))
  }

  /** The independent statement of when the king may castle with the rook
      on column `rookX`: the player is a real player, not in check, has a
      king that passes the literal has-moved test, the corner rook is the
      player's, a rook and untouched, and every square strictly between king
      and rook on the home row is empty and not attacked by the opponent. */
  predicate CastlingRight(b: Board, player: int, rookX: int)
    requires rookX == 0 || rookX == 7
  {
    var c := ClearCastling(b);
    var row := HomeRow(player);
    var k := FindKing(c, player);
    && Eligible(c, player)
    && RookReady(c, player, row, rookX)
    && forall x :: Min(rookX, k.x) < x < Max(rookX, k.x) ==>
         At(c, XY(x, row)).owner == Nobody && AttackMap(c, Opponent(player))[Idx(XY(x, row))] == 0
  }

  /** With the king on its start column, castling queenside needs column 1
      of the home row empty and not attacked, although the king never
      crosses it. */
  lemma QueensideNeedsColumnOne(b: Board, player: int)
    requires FindKing(ClearCastling(b), player) == XY(4, HomeRow(player))
    requires CastlingRight(b, player, 0)
    ensures At(ClearCastling(b), XY(1, HomeRow(player))).owner == Nobody
    ensures AttackMap(ClearCastling(b), Opponent(player))[Idx(XY(1, HomeRow(player)))] == 0
  {
    var x := 1;
    assert Min(0, 4) < x < Max(0, 4);
  }

  /** The loop's verdict for one rook, stated with a quantifier. */
  lemma RookCastlesMeaning(c: Board, player: int, row: int, k: XY, attacked: Matrix, rookX: int)
    requires 0 <= row < 8 && InRange8(k) && (rookX == 0 || rookX == 7) && IsBinary(attacked)
    ensures RookCastles(c, player, row, k, attacked, rookX) <==>
      RookReady(c, player, row, rookX)
      && forall x :: Min(rookX, k.x) < x < Max(rookX, k.x) ==>
           At(c, XY(x, row)).owner == Nobody && attacked[Idx(XY(x, row))] == 0
  {
    forall x | 0 <= x < 8
      ensures SquareClear(c, attacked, row, x) <==> At(c, XY(x, row)).owner == Nobody && attacked[Idx(XY(x, row))] == 0
    {
      assert attacked[Idx(XY(x, row))] == 0 || attacked[Idx(XY(x, row))] == 1;
    }
  }

  /** On a board without castling flags, the rook loop flags the castling
      square of the rook on column `rookX` exactly when that rook is ready
      and the ground between it and the king is empty and not attacked. */
  lemma RookLoopFlag(c: Board, player: int, k: XY, attacked: Matrix, rookX: int)
    requires InRange8(k) && IsBinary(attacked) && (rookX == 0 || rookX == 7)
    requires forall i :: 0 <= i < 64 ==> !c[i].castlingTarget
    ensures var row := HomeRow(player);
      At(RookLoop(c, player, k, attacked), CastlingSquare(rookX, row)).castlingTarget <==>
        RookReady(c, player, row, rookX)
        && forall x :: Min(rookX, k.x) < x < Max(rookX, k.x) ==>
             At(c, XY(x, row)).owner == Nobody && attacked[Idx(XY(x, row))] == 0
  {
    var row := HomeRow(player);
    var t := CastlingSquare(rookX, row);
    IdxCellInverse(t, Idx(t));
    RookCastlesMeaning(c, player, row, k, attacked, rookX);
  }

  /** `CastlingFlagMeaning` when the early returns of the update pass. */
  lemma EligibleFlagMeaning(b: Board, player: int, rookX: int)
    requires rookX == 0 || rookX == 7
    requires Eligible(ClearCastling(b), player)
    ensures At(UpdateCastling(b, player), CastlingSquare(rookX, HomeRow(player))).castlingTarget <==> CastlingRight(b, player, rookX)
  {
    var c := ClearCastling(b);
    var k := FindKing(c, player);
    var attacked := AttackMap(c, Opponent(player));
    assert UpdateCastling(b, player) == RookLoop(c, player, k, attacked);
    RookLoopFlag(c, player, k, attacked, rookX);
  }

  /** `CastlingFlagMeaning` when one of the early returns is taken. */
  lemma IneligibleFlagMeaning(b: Board, player: int, rookX: int)
    requires rookX == 0 || rookX == 7
    requires !Eligible(ClearCastling(b), player)
    ensures At(UpdateCastling(b, player), CastlingSquare(rookX, HomeRow(player))).castlingTarget <==> CastlingRight(b, player, rookX)
  {
    assert !At(ClearCastling(b), CastlingSquare(rookX, HomeRow(player))).castlingTarget;
  }

  /** The flag of the square castling with the rook on column `rookX`
      gives is set exactly when `CastlingRight` holds for that rook. */
  lemma CastlingFlagMeaning(b: Board, player: int, rookX: int)
    requires rookX == 0 || rookX == 7
    ensures At(UpdateCastling(b, player), CastlingSquare(rookX, HomeRow(player))).castlingTarget <==> CastlingRight(b, player, rookX)
  {
    if Eligible(ClearCastling(b), player) {
      EligibleFlagMeaning(b, player, rookX);
    } else {
      IneligibleFlagMeaning(b, player, rookX);
    }
  }

  /** The queenside flag `(2, Row)` is set exactly when `CastlingRight`
      holds for the rook on column 0, and the kingside flag `(6, Row)`
      exactly when it holds for the rook on column 7. */
  lemma CastlingMeaning(b: Board, player: int)
    ensures At(UpdateCastling(b, player), XY(2, HomeRow(player))).castlingTarget <==> CastlingRight(b, player, 0)
    ensures At(UpdateCastling(b, player), XY(6, HomeRow(player))).castlingTarget <==> CastlingRight(b, player, 7)
  {
    CastlingFlagMeaning(b, player, 0);
    CastlingFlagMeaning(b, player, 7);
  }

  /** `UpdateCastling` ignores the castling flags it is given: boards that
      agree on everything else get the same flags. */
  lemma UpdateCastlingIgnoresFlags(b1: Board, b2: Board, player: int)
    requires forall i :: 0 <= i < 64 ==> b1[i].(castlingTarget := false) == b2[i].(castlingTarget := false)
    ensures UpdateCastling(b1, player) == UpdateCastling(b2, player)
  {
    assert ClearCastling(b1) == ClearCastling(b2);
  }
}
