/** Raw move generation (logic.cpp): the ray walker `Travel` and the
    per-piece speed vectors of `GetTravelMap`, before any check-related
    filtering. */
module TravelMaps {
  import opened Coordinates
  import opened Matrices
  import opened Types

  /** The five guard flags of `GetTravelMap`, in the order of its parameters. */
  datatype Flags = Flags(
    substractKingIllegal: bool,
    includeSpecialMoves: bool,
    preventRecursiveKingInCheck: bool,
    includeKing: bool,
    alwaysIncludePawnDiagonal: bool)

  const NullVector := XY(0, 0)

  /** A measure of how far `p` may still move along `sv` before it leaves
      the board; it is positive on the board and drops with every step. */
  function Room(p: XY, sv: XY): int
  {
    if sv.x > 0 then 8 - p.x
    else if sv.x < 0 then p.x + 1
    else if sv.y > 0 then 8 - p.y
    else p.y + 1
  }

  /** The step budget left after `steps` steps; -1 stands for "unlimited". */
  function Remaining(distance: int, steps: int): int
  {
    if distance == -1 then -1 else distance - steps
  }

  /** One turn of the loop in `Travel`: the walker stands on `from`, which is
      not the opponent's, it still has budget, and the next square is on the
      board and not its own. */
  predicate CanStep(b: Board, player: int, from: XY, sv: XY, budget: int)
    requires InRange8(from)
  {
    && At(b, from).owner != Opponent(player)
    && (budget == -1 || budget > 0)
    && InRange8(Plus(from, sv))
    && At(b, Plus(from, sv)).owner != player
  }

  /** The squares `Travel` visits, in order. The walk takes step after step
      while it can, so it is the longest run of steps `CanStep` allows. */
  function Walk(b: Board, player: int, loc: XY, sv: XY, distance: int): (r: seq<XY>)
    requires InRange8(loc) && sv != NullVector
    ensures |r| > 0 ==> r[0] == Plus(loc, sv)
    ensures forall k :: 0 < k < |r| ==> r[k] == Plus(r[k - 1], sv)
    ensures forall k :: 0 <= k < |r| ==> InRange8(r[k]) && At(b, r[k]).owner != player
    decreases Room(loc, sv)
  {
    if CanStep(b, player, loc, sv, distance) then
      var next := Plus(loc, sv);
      assert Room(next, sv) < Room(loc, sv);
      var rest := Walk(b, player, next, sv, Remaining(distance, 1));
      var r := [next] + rest;
      assert forall k :: 0 < k < |r| ==> r[k] == rest[k - 1];
      r
    else
      []
  }

  /** The walk only leaves a square that is not the opponent's: it passes
      no opponent piece and ends on the first one it meets. */
  lemma {:induction false} WalkPassesNoOpponent(b: Board, player: int, loc: XY, sv: XY, distance: int)
    requires InRange8(loc) && sv != NullVector
    ensures |Walk(b, player, loc, sv, distance)| > 0 ==> At(b, loc).owner != Opponent(player)
    ensures forall k :: 0 <= k < |Walk(b, player, loc, sv, distance)| - 1 ==>
      At(b, Walk(b, player, loc, sv, distance)[k]).owner != Opponent(player)
    decreases Room(loc, sv)
  {
    if CanStep(b, player, loc, sv, distance) {
      var next := Plus(loc, sv);
      assert Room(next, sv) < Room(loc, sv);
      var rest := Walk(b, player, next, sv, Remaining(distance, 1));
      WalkPassesNoOpponent(b, player, next, sv, Remaining(distance, 1));
      var r := Walk(b, player, loc, sv, distance);
      assert r == [next] + rest;
      forall k | 0 <= k < |r| - 1
        ensures At(b, r[k]).owner != Opponent(player)
      {
        if k == 0 {
          assert r[0] == next && |rest| > 0;
        } else {
          assert r[k] == rest[k - 1] && k - 1 < |rest| - 1;
        }
      }
    }
  }

  /** The walk takes at most `distance` steps unless the distance is the
      unlimited -1, and none at all below that. */
  lemma {:induction false} WalkLength(b: Board, player: int, loc: XY, sv: XY, distance: int)
    requires InRange8(loc) && sv != NullVector
    ensures distance >= 0 ==> |Walk(b, player, loc, sv, distance)| <= distance
    ensures distance < -1 ==> Walk(b, player, loc, sv, distance) == []
    decreases Room(loc, sv)
  {
    if CanStep(b, player, loc, sv, distance) {
      var next := Plus(loc, sv);
      assert Room(next, sv) < Room(loc, sv);
      WalkLength(b, player, next, sv, Remaining(distance, 1));
    }
  }

  /** The walk goes as far as it can: from its last square (or from `loc`
      when it is empty) no further step is possible. */
  lemma {:induction false} WalkMaximal(b: Board, player: int, loc: XY, sv: XY, distance: int)
    requires InRange8(loc) && sv != NullVector
    ensures var r := Walk(b, player, loc, sv, distance);
      !CanStep(b, player, if |r| == 0 then loc else r[|r| - 1], sv, Remaining(distance, |r|))
    decreases Room(loc, sv)
  {
    if CanStep(b, player, loc, sv, distance) {
      var next := Plus(loc, sv);
      assert Room(next, sv) < Room(loc, sv);
      var rest := Walk(b, player, next, sv, Remaining(distance, 1));
      WalkMaximal(b, player, next, sv, Remaining(distance, 1));
      var r := Walk(b, player, loc, sv, distance);
      assert r == [next] + rest;
      assert Remaining(Remaining(distance, 1), |rest|) == Remaining(distance, |r|);
      if |rest| > 0 {
        assert r[|r| - 1] == rest[|rest| - 1];
      }
    }
  }

  /** All listed (on-board) squares set to 1, every other cell 0. */
  function MarkAll(ps: seq<XY>): (r: Matrix)
    requires forall k :: 0 <= k < |ps| ==> InRange8(ps[k])
    ensures forall i :: 0 <= i < 64 ==> r[i] == (if Cell(i) in ps then 1 else 0)
    decreases |ps|
  {
    if ps == [] then Empty()
    else
      var rest := MarkAll(ps[1..]);
      forall i | 0 <= i < 64
        ensures (Cell(i) in ps) == (Cell(i) == ps[0] || Cell(i) in ps[1..])
        ensures (i == Idx(ps[0])) == (Cell(i) == ps[0])
      {
        assert ps == [ps[0]] + ps[1..];
        IdxCellInverse(ps[0], i);
      }
      rest[Idx(ps[0]) := 1]
  }

  /** `Travel`: the map of the squares the walk visits. */
  function Travel(b: Board, player: int, loc: XY, sv: XY, distance: int): (r: Matrix)
    requires InRange8(loc) && sv != NullVector
    ensures IsBinary(r)
    ensures forall i :: 0 <= i < 64 ==> (r[i] == 1 <==> Cell(i) in Walk(b, player, loc, sv, distance))
  {
    MarkAll(Walk(b, player, loc, sv, distance))
  }

  /** A walk limited to one step visits at most the neighbour `loc + sv`,
      and visits it exactly when that square is on the board, not the
      walker's own, and the walker does not start on an opponent's square. */
  lemma SingleStepTravel(b: Board, player: int, loc: XY, sv: XY, i: int)
    requires InRange8(loc) && sv != NullVector && 0 <= i < 64
    ensures Travel(b, player, loc, sv, 1)[i] == 1 <==> Cell(i) == Plus(loc, sv) && CanStep(b, player, loc, sv, 1)
  {
    var w := Walk(b, player, loc, sv, 1);
    WalkLength(b, player, loc, sv, 1);
    WalkMaximal(b, player, loc, sv, 1);
    if |w| == 1 {
      assert w[0] == Plus(loc, sv);
    }
  }

  // The speed vectors, in the order the source's nested loops produce them.

  const KnightVectors := [XY(-1, -2), XY(1, -2), XY(-2, -1), XY(2, -1), XY(-2, 1), XY(2, 1), XY(-1, 2), XY(1, 2)]
  const BishopVectors := [XY(-1, -1), XY(1, -1), XY(-1, 1), XY(1, 1)]
  const RookVectors := [XY(0, -1), XY(-1, 0), XY(1, 0), XY(0, 1)]
  const AllDirections := [XY(-1, -1), XY(0, -1), XY(1, -1), XY(-1, 0), XY(1, 0), XY(-1, 1), XY(0, 1), XY(1, 1)]

  function Abs(n: int): nat { if n < 0 then -n else n }

  /** The vector lists are exactly the offsets the source's loop filters
      admit (lines 356-361, 367-372, 378-383, 389-394 and 401-406). */
  lemma VectorListsMatchFilters(v: XY)
    ensures v in KnightVectors <==> -2 <= v.x <= 2 && -2 <= v.y <= 2 && v.x != 0 && v.y != 0 && Abs(v.x) != Abs(v.y)
    ensures v in BishopVectors <==> -1 <= v.x <= 1 && -1 <= v.y <= 1 && v.x != 0 && v.y != 0
    ensures v in RookVectors <==> -1 <= v.x <= 1 && -1 <= v.y <= 1 && v.x != v.y && (v.x == 0 || v.y == 0)
    ensures v in AllDirections <==> -1 <= v.x <= 1 && -1 <= v.y <= 1 && !(v.x == 0 && v.y == 0)
  {
  }

  /** Black pawns move down the rows (+1), every other owner up (-1). */
  function PawnDirection(player: int): int
  {
    if player == Black then 1 else -1
  }

  /** The forward steps of a pawn: one step onto an empty square, and a
      second one from an untouched square when that is empty too. */
  function PawnForward(b: Board, sq: XY, dy: int): seq<XY>
    requires InRange8(sq)
  {
    var ahead := XY(sq.x, sq.y + dy);
    var twoAhead := XY(sq.x, sq.y + 2 * dy);
    if InRange8(ahead) && At(b, ahead).owner == Nobody then
      if InRange8(twoAhead) && At(b, twoAhead).owner == Nobody && !At(b, sq).touched then
        [XY(0, dy), XY(0, 2 * dy)]
      else
        [XY(0, dy)]
    else
      []
  }

  /** A diagonal capture vector: an opponent's piece is there, or diagonals
      are wanted unconditionally (threats on the king's squares). */
  function PawnDiagonal(b: Board, player: int, sq: XY, dx: int, dy: int, always: bool): seq<XY>
    requires InRange8(sq)
  {
    var t := XY(sq.x + dx, sq.y + dy);
    if (InRange8(t) && At(b, t).owner == Opponent(player)) || always then [XY(dx, dy)] else []
  }

  /** An en-passant vector onto a flagged diagonal square. */
  function PawnEnPassant(b: Board, sq: XY, dx: int, dy: int): seq<XY>
    requires InRange8(sq)
  {
    var t := XY(sq.x + dx, sq.y + dy);
    if InRange8(t) && At(b, t).enPassantTarget then [XY(dx, dy)] else []
  }

  /** The pawn's speed vectors (logic.cpp:286-350). */
  function PawnVectors(b: Board, player: int, sq: XY, f: Flags): (r: seq<XY>)
    requires InRange8(sq)
  {
    var dy := PawnDirection(player);
    PawnForward(b, sq, dy)
      + PawnDiagonal(b, player, sq, -1, dy, f.alwaysIncludePawnDiagonal)
      + PawnDiagonal(b, player, sq, 1, dy, f.alwaysIncludePawnDiagonal)
      + (if f.includeSpecialMoves then PawnEnPassant(b, sq, -1, dy) + PawnEnPassant(b, sq, 1, dy) else [])
  }

  /** Every pawn vector is one row forward (diagonally or straight) or two
      rows straight forward. */
  lemma PawnVectorShape(b: Board, player: int, sq: XY, f: Flags, v: XY)
    requires InRange8(sq) && v in PawnVectors(b, player, sq, f)
    ensures v == XY(0, PawnDirection(player)) || v == XY(0, 2 * PawnDirection(player))
         || v == XY(-1, PawnDirection(player)) || v == XY(1, PawnDirection(player))
  {
  }

  /** The speed vectors of the piece on `sq` (the `switch` of `GetTravelMap`). */
  function Vectors(b: Board, player: int, sq: XY, f: Flags): (r: seq<XY>)
    requires InRange8(sq)
    ensures forall v :: v in r ==> v != NullVector
  {
    var piece := At(b, sq).piece;
    if piece == Pawn then PawnVectors(b, player, sq, f)
    else if piece == Knight then KnightVectors
    else if piece == Bishop then BishopVectors
    else if piece == Rook then RookVectors
    else if piece == Dame then AllDirections
    else if piece == King && f.includeKing then AllDirections
    else []
  }

  /** How many steps a piece may take along one vector; -1 is unlimited. */
  function Distance(piece: int): int
  {
    if piece == Pawn || piece == Knight || piece == King then 1
    else if piece == Bishop || piece == Rook || piece == Dame then -1
    else 0
  }

  /** The squares flagged as castling targets. */
  function CastlingMap(b: Board): (r: Matrix)
    ensures IsBinary(r)
    ensures forall i :: 0 <= i < 64 ==> (r[i] == 1 <==> b[i].castlingTarget)
  {
    seq(64, i requires 0 <= i < 64 => if b[i].castlingTarget then 1 else 0)
  }

  /** Adds the travel map of every vector to `acc`. */
  function SumTravels(b: Board, owner: int, sq: XY, svs: seq<XY>, distance: int, acc: Matrix): (r: Matrix)
    requires InRange8(sq) && NonNegative(acc)
    requires forall v :: v in svs ==> v != NullVector
    ensures NonNegative(r)
    ensures forall i :: 0 <= i < 64 ==>
      (r[i] > 0 <==> acc[i] > 0 || exists v :: v in svs && Travel(b, owner, sq, v, distance)[i] == 1)
    decreases |svs|
  {
    if svs == [] then acc
    else
      assert svs[0] in svs;
      assert forall v :: v in svs[1..] ==> v in svs;
      var t := Travel(b, owner, sq, svs[0], distance);
      var acc' := Add(acc, t);
      AddMonotone(acc, t);
      var r := SumTravels(b, owner, sq, svs[1..], distance, acc');
      forall i | 0 <= i < 64
        ensures r[i] > 0 <==> acc[i] > 0 || exists v :: v in svs && Travel(b, owner, sq, v, distance)[i] == 1
      {
        if exists v :: v in svs && Travel(b, owner, sq, v, distance)[i] == 1 {
          var v :| v in svs && Travel(b, owner, sq, v, distance)[i] == 1;
          assert v == svs[0] || v in svs[1..];
        }
      }
      r
  }

  /** The candidate map of `GetTravelMap` before the king and check filters:
      the castling targets for a king asked for special moves, united with
      the squares every speed vector reaches. */
  function CandidateMap(b: Board, player: int, sq: XY, f: Flags): (r: Matrix)
    requires InRange8(sq)
    ensures IsBinary(r)
    ensures forall i :: 0 <= i < 64 ==>
      (r[i] == 1 <==>
        (At(b, sq).piece == King && f.includeKing && f.includeSpecialMoves && b[i].castlingTarget)
        || exists v :: v in Vectors(b, player, sq, f) && Travel(b, At(b, sq).owner, sq, v, Distance(At(b, sq).piece))[i] == 1)
  {
    var s := At(b, sq);
    var base := if s.piece == King && f.includeKing && f.includeSpecialMoves then CastlingMap(b) else Empty();
    Normalize(SumTravels(b, s.owner, sq, Vectors(b, player, sq, f), Distance(s.piece), base))
  }

  /** A ray never marks a square its walker's own side stands on. */
  lemma TravelSkipsOwnPieces(b: Board, owner: int, sq: XY, v: XY, d: int, k: int)
    requires InRange8(sq) && v != NullVector && 0 <= k < 64 && b[k].owner == owner
    ensures Travel(b, owner, sq, v, d)[k] == 0
  {
    assert At(b, Cell(k)) == b[k];
  }

  /** Without special moves the candidate map never marks a square the
      mover's own side stands on: every ray stops before such a square. */
  lemma CandidateSkipsOwnPieces(b: Board, player: int, sq: XY, f: Flags, k: int)
    requires InRange8(sq) && !f.includeSpecialMoves && 0 <= k < 64 && b[k].owner == At(b, sq).owner
    ensures CandidateMap(b, player, sq, f)[k] == 0
  {
    var s := At(b, sq);
    forall v | v in Vectors(b, player, sq, f)
      ensures Travel(b, s.owner, sq, v, Distance(s.piece))[k] == 0
    {
      TravelSkipsOwnPieces(b, s.owner, sq, v, Distance(s.piece), k);
    }
  }

  /** Where a pawn of `player` on `sq` may go, written out square by
      square: one row forward onto an empty square; two rows forward from
      an untouched square over an empty square onto an empty one; or one
      row forward diagonally onto a square it does not own itself, when an
      opponent's piece stands there, diagonals are always wanted, or special
      moves are on and the square is an en-passant target. */
  predicate PawnReaches(b: Board, player: int, sq: XY, f: Flags, t: XY)
    requires InRange8(sq) && InRange8(t)
  {
    var dy := PawnDirection(player);
    var one := XY(sq.x, sq.y + dy);
    || (t == one && At(b, t).owner == Nobody)
    || (t == XY(sq.x, sq.y + 2 * dy) && At(b, one).owner == Nobody && At(b, t).owner == Nobody && !At(b, sq).touched)
    || (t.y == sq.y + dy && (t.x == sq.x - 1 || t.x == sq.x + 1) && At(b, t).owner != player
        && (At(b, t).owner == Opponent(player) || f.alwaysIncludePawnDiagonal || (f.includeSpecialMoves && At(b, t).enPassantTarget)))
  }

  /** A square a pawn reaches is one row forward, or two rows straight
      ahead. */
  lemma PawnReachesShape(b: Board, player: int, sq: XY, f: Flags, t: XY)
    requires InRange8(sq) && InRange8(t) && PawnReaches(b, player, sq, f, t)
    ensures t.y == sq.y + PawnDirection(player) || (t.y == sq.y + 2 * PawnDirection(player) && t.x == sq.x)
  {
  }

  /** Which vectors `PawnForward` lists. */
  lemma PawnForwardMembers(b: Board, sq: XY, dy: int, v: XY)
    requires InRange8(sq) && (dy == 1 || dy == -1)
    ensures v in PawnForward(b, sq, dy) <==>
      var t := Plus(sq, v);
      || (v == XY(0, dy) && InRange8(t) && At(b, t).owner == Nobody)
      || (v == XY(0, 2 * dy) && InRange8(XY(sq.x, sq.y + dy)) && At(b, XY(sq.x, sq.y + dy)).owner == Nobody
          && InRange8(t) && At(b, t).owner == Nobody && !At(b, sq).touched)
  {
  }

  /** Which vectors a `PawnDiagonal` or `PawnEnPassant` call lists. */
  lemma PawnSideMembers(b: Board, player: int, sq: XY, dx: int, dy: int, f: Flags, v: XY)
    requires InRange8(sq)
    ensures v in PawnDiagonal(b, player, sq, dx, dy, f.alwaysIncludePawnDiagonal) <==>
      v == XY(dx, dy) && ((InRange8(Plus(sq, v)) && At(b, Plus(sq, v)).owner == Opponent(player)) || f.alwaysIncludePawnDiagonal)
    ensures v in PawnEnPassant(b, sq, dx, dy) <==>
      v == XY(dx, dy) && InRange8(Plus(sq, v)) && At(b, Plus(sq, v)).enPassantTarget
  {
  }

  /** Which vectors `PawnVectors` lists. */
  lemma PawnVectorMembers(b: Board, player: int, sq: XY, f: Flags, v: XY)
    requires InRange8(sq)
    ensures v in PawnVectors(b, player, sq, f) <==>
      var dy := PawnDirection(player);
      var t := Plus(sq, v);
      || (v == XY(0, dy) && InRange8(t) && At(b, t).owner == Nobody)
      || (v == XY(0, 2 * dy) && InRange8(XY(sq.x, sq.y + dy)) && At(b, XY(sq.x, sq.y + dy)).owner == Nobody
          && InRange8(t) && At(b, t).owner == Nobody && !At(b, sq).touched)
      || ((v == XY(-1, dy) || v == XY(1, dy))
          && ((InRange8(t) && At(b, t).owner == Opponent(player)) || f.alwaysIncludePawnDiagonal
              || (f.includeSpecialMoves && InRange8(t) && At(b, t).enPassantTarget)))
  {
    var dy := PawnDirection(player);
    var fw := PawnForward(b, sq, dy);
    var d1 := PawnDiagonal(b, player, sq, -1, dy, f.alwaysIncludePawnDiagonal);
    var d2 := PawnDiagonal(b, player, sq, 1, dy, f.alwaysIncludePawnDiagonal);
    var e1 := PawnEnPassant(b, sq, -1, dy);
    var e2 := PawnEnPassant(b, sq, 1, dy);
    var ep := if f.includeSpecialMoves then e1 + e2 else [];
    assert PawnVectors(b, player, sq, f) == fw + d1 + d2 + ep;
    assert v in fw + d1 + d2 + ep <==> v in fw || v in d1 || v in d2 || v in ep;
    assert v in ep <==> f.includeSpecialMoves && (v in e1 || v in e2);
    PawnForwardMembers(b, sq, dy, v);
    PawnSideMembers(b, player, sq, -1, dy, f, v);
    PawnSideMembers(b, player, sq, 1, dy, f, v);
  }

  /** `PawnReaches` is the set of squares one listed pawn vector away that
      the pawn does not own itself. */
  lemma PawnReachesByVector(b: Board, player: int, sq: XY, f: Flags, t: XY)
    requires InRange8(sq) && InRange8(t) && (player == Black || player == White)
    ensures PawnReaches(b, player, sq, f, t) <==>
      XY(t.x - sq.x, t.y - sq.y) in PawnVectors(b, player, sq, f) && At(b, t).owner != player
  {
    var v := XY(t.x - sq.x, t.y - sq.y);
    assert t == Plus(sq, v);
    PawnVectorMembers(b, player, sq, f, v);
  }

  /** A single-step walk along one of several vectors reaches `t` exactly
      when `t - sq` is one of them and the walker may step there. */
  lemma SingleStepTravels(b: Board, player: int, sq: XY, vs: seq<XY>, t: XY)
    requires InRange8(sq) && InRange8(t) && forall w :: w in vs ==> w != NullVector
    requires At(b, sq).owner == player && (player == Black || player == White)
    ensures (exists w :: w in vs && Travel(b, player, sq, w, 1)[Idx(t)] == 1) <==>
      XY(t.x - sq.x, t.y - sq.y) in vs && At(b, t).owner != player
  {
    var i := Idx(t);
    IdxCellInverse(t, i);
    var v := XY(t.x - sq.x, t.y - sq.y);
    assert Cell(i) == t;
    if v in vs && At(b, t).owner != player {
      SingleStepTravel(b, player, sq, v, i);
      assert Plus(sq, v) == t;
      assert CanStep(b, player, sq, v, 1);
      assert Travel(b, player, sq, v, 1)[i] == 1;
    }
    if exists w :: w in vs && Travel(b, player, sq, w, 1)[i] == 1 {
      var w :| w in vs && Travel(b, player, sq, w, 1)[i] == 1;
      SingleStepTravel(b, player, sq, w, i);
      assert t == Plus(sq, w);
      assert w == v;
    }
  }

  /** A pawn's candidate map marks exactly the squares `PawnReaches`
      describes. */
  lemma PawnTargets(b: Board, player: int, sq: XY, f: Flags, t: XY)
    requires InRange8(sq) && InRange8(t)
    requires At(b, sq).piece == Pawn && At(b, sq).owner == player && (player == Black || player == White)
    ensures CandidateMap(b, player, sq, f)[Idx(t)] == 1 <==> PawnReaches(b, player, sq, f, t)
  {
    assert Vectors(b, player, sq, f) == PawnVectors(b, player, sq, f);
    assert Distance(At(b, sq).piece) == 1;
    PawnReachesByVector(b, player, sq, f, t);
    SingleStepTravels(b, player, sq, PawnVectors(b, player, sq, f), t);
  }
}
