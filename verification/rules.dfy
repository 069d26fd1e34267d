/** Move legality and check (logic.cpp): `GetTravelMap`, `GetTravelMapGlobal`,
    `FindKing`, `KingInCheck`, `SwapPieces`, `PlayerCanMove`, `Checkmate`
    and `Stalemate`.

    `GetTravelMap` and `KingInCheck` call each other through
    `GetTravelMapGlobal`; the guard flags stop the recursion. Each function
    of the cycle decreases the triple (level, rank, cells left): a travel map
    is at level 2 when it subtracts the king's attacked squares or filters
    moves against check, and at level 0 otherwise; `KingInCheck` and the
    opponent's attack map sit at level 1; a global map is one level above
    the per-piece maps it adds up. */
module Rules {
  import opened Coordinates
  import opened Matrices
  import opened Types
  import opened TravelMaps

  /** The flags `Move`, square selection and `PlayerCanMove` use for a real
      move: king included, special moves included, the king's attacked
      squares subtracted and moves filtered against check. */
  const LegalMoves := Flags(true, true, false, true, false)

  /** The flags of the per-piece maps inside `GetTravelMapGlobal`. */
  function GlobalFlags(prevent: bool, includeKing: bool, alwaysDiagonal: bool): Flags
  {
    Flags(false, false, prevent, includeKing, alwaysDiagonal)
  }

  /** The per-piece flags behind an attack map: everything a piece threatens,
      king and empty pawn diagonals included, nothing filtered. */
  const AttackFlags := GlobalFlags(true, true, true)

  function Level(f: Flags): nat
  {
    if f.substractKingIllegal || !f.preventRecursiveKingInCheck then 2 else 0
  }

  function GlobalLevel(prevent: bool): nat
  {
    if prevent then 1 else 3
  }

  predicate IsKingOf(s: Square, player: int)
  {
    s.owner == player && s.piece == King
  }

  /** Scans cells `n-1` down to 0 for the player's king. */
  function FindKingBelow(b: Board, player: int, n: nat): (r: XY)
    requires n <= 64
    ensures r == NoSquare || (InRange8(r) && Idx(r) < n && IsKingOf(At(b, r), player))
    ensures r == NoSquare <==> forall j :: 0 <= j < n ==> !IsKingOf(b[j], player)
    ensures InRange8(r) ==> forall j :: Idx(r) < j < n ==> !IsKingOf(b[j], player)
  {
    if n == 0 then NoSquare
    else if IsKingOf(b[n - 1], player) then
      var p := Cell(n - 1);
      IdxCellInverse(p, n - 1);
      assert At(b, p) == b[n - 1] && p != NoSquare;
      p
    else FindKingBelow(b, player, n - 1)
  }

  /** `FindKing`: the player's king that comes last in row-major order,
      or (-1,-1) when the player has no king. */
  function FindKing(b: Board, player: int): (r: XY)
    ensures r == NoSquare || (InRange8(r) && IsKingOf(At(b, r), player))
    ensures r == NoSquare <==> forall j :: 0 <= j < 64 ==> !IsKingOf(b[j], player)
    ensures InRange8(r) ==> forall j :: Idx(r) < j < 64 ==> !IsKingOf(b[j], player)
  {
    FindKingBelow(b, player, 64)
  }

  /** `SwapPieces`: exchanges owner, piece and touched flag of two squares;
      the en-passant and castling flags stay where they are. */
  function SwapPieces(b: Board, s: XY, d: XY): (r: Board)
    requires InRange8(s) && InRange8(d)
    ensures forall i :: 0 <= i < 64 && i != Idx(s) && i != Idx(d) ==> r[i] == b[i]
    ensures s == d ==> r == b
    ensures s != d ==> At(r, d) == At(b, d).(owner := At(b, s).owner, piece := At(b, s).piece, touched := At(b, s).touched)
    ensures s != d ==> At(r, s) == At(b, s).(owner := At(b, d).owner, piece := At(b, d).piece, touched := At(b, d).touched)
  {
    var source := At(b, s);
    var target := At(b, d);
    var b1 := b[Idx(d) := target.(owner := source.owner, piece := source.piece, touched := source.touched)];
    var b2 := b1[Idx(s) := b1[Idx(s)].(owner := target.owner, piece := target.piece, touched := target.touched)];
    IdxCellInverse(s, Idx(d));
    b2
  }

  /** Swapping the same two squares twice restores the board exactly, which
      is why the check filter can simulate a move and undo it. */
  lemma SwapTwice(b: Board, s: XY, d: XY)
    requires InRange8(s) && InRange8(d)
    ensures SwapPieces(SwapPieces(b, s, d), s, d) == b
  {
    var r := SwapPieces(SwapPieces(b, s, d), s, d);
    if s != d {
      IdxCellInverse(s, Idx(d));
      assert forall i :: 0 <= i < 64 ==> r[i] == b[i];
    }
  }

  /** `GetTravelMap`: the squares the piece on `sq` may move to or, with
      the guard flags set, threatens (what it means: `PieceMapMeaning`). */
  function PieceMap(b: Board, player: int, sq: XY, f: Flags): (r: Matrix)
    requires InRange8(sq)
    ensures IsBinary(r)
    decreases Level(f), 3, 0
  {
    if !CanSelect(b, player, sq) then Empty()
    else Normalize(CheckedMap(b, player, sq, f))
  }

  /** The raw map of `GetTravelMap`, with a king's attacked squares
      subtracted when `substractKingIllegal` is set. */
  function SafeMap(b: Board, player: int, sq: XY, f: Flags): (r: Matrix)
    requires InRange8(sq)
    decreases Level(f), 1, 0
  {
    var raw := CandidateMap(b, player, sq, f);
    if At(b, sq).piece == King && f.substractKingIllegal then Subtract(raw, AttackMap(b, Opponent(player)))
    else raw
  }

  /** `SafeMap`, run through the check filter when moves are filtered
      against check and the player's king is in check. */
  function CheckedMap(b: Board, player: int, sq: XY, f: Flags): (r: Matrix)
    requires InRange8(sq)
    decreases Level(f), 2, 0
  {
    var safe := SafeMap(b, player, sq, f);
    if !f.preventRecursiveKingInCheck && KingInCheck(b, player) then CheckFilter(b, player, sq, safe, 0)
    else safe
  }

  /** The simulated move of the piece on `sq` onto cell `k` leaves the
      player's king in check. */
  predicate StillInCheck(b: Board, player: int, sq: XY, k: int)
    requires InRange8(sq) && 0 <= k < 64
    decreases 1, 3, 0
  {
    KingInCheck(SwapPieces(b, sq, Cell(k)), player)
  }

  /** The loop of `GetTravelMap` that, while the king is in check, tries
      every marked destination from cell `i` on by swapping the piece there
      and clears the cell if the king is still in check. */
  function CheckFilter(b: Board, player: int, sq: XY, m: Matrix, i: nat): (r: Matrix)
    requires InRange8(sq) && i <= 64
    decreases 2, 0, 64 - i
  {
    if i == 64 then m
    else
      var m' := if m[i] > 0 && StillInCheck(b, player, sq, i) then m[i := 0] else m;
      CheckFilter(b, player, sq, m', i + 1)
  }

  /** The sum of the per-piece maps of the player's pieces on cells `j..63`. */
  function GlobalSum(b: Board, player: int, prevent: bool, includeKing: bool, alwaysDiagonal: bool, j: nat): (r: Matrix)
    requires j <= 64
    ensures NonNegative(r)
    decreases GlobalLevel(prevent), 1, 64 - j
  {
    if j == 64 then Empty()
    else
      var rest := GlobalSum(b, player, prevent, includeKing, alwaysDiagonal, j + 1);
      if b[j].owner == player then
        var here := PieceMap(b, player, Cell(j), GlobalFlags(prevent, includeKing, alwaysDiagonal));
        AddMonotone(here, rest);
        Add(here, rest)
      else
        rest
  }

  /** `GetTravelMapGlobal`: the union of the maps of all the player's pieces
      (`GlobalMapMeaning`). */
  function GlobalMap(b: Board, player: int, prevent: bool, includeKing: bool, alwaysDiagonal: bool): (r: Matrix)
    ensures IsBinary(r)
    decreases GlobalLevel(prevent), 1, 65
  {
    Normalize(GlobalSum(b, player, prevent, includeKing, alwaysDiagonal, 0))
  }

  /** The squares a player attacks, `GetTravelMapGlobal(player, true, true,
      true)`. */
  function AttackMap(b: Board, player: int): (r: Matrix)
    ensures IsBinary(r)
    decreases 1, 1, 66
  {
    GlobalMap(b, player, true, true, true)
  }

  /** `KingInCheck`: the player has a king and the opponent attacks its
      square (`KingInCheckMeaning`). */
  function KingInCheck(b: Board, player: int): bool
    decreases 1, 2, 0
  {
    var k := FindKing(b, player);
    InRange8(k) && AttackMap(b, Opponent(player))[Idx(k)] > 0
  }

  /** One cell of the check filter run from cell `i`: a cell before `i`
      is left alone, a later one is cleared when it is marked and its
      simulated move leaves the king in check. */
  lemma {:induction false} CheckFilterAt(b: Board, player: int, sq: XY, m: Matrix, i: nat, k: int)
    requires InRange8(sq) && i <= 64 && 0 <= k < 64
    ensures CheckFilter(b, player, sq, m, i)[k] ==
      if k < i then m[k] else if m[k] > 0 && StillInCheck(b, player, sq, k) then 0 else m[k]
    decreases 64 - i
  {
    if i < 64 {
      var m' := if m[i] > 0 && StillInCheck(b, player, sq, i) then m[i := 0] else m;
      assert CheckFilter(b, player, sq, m, i) == CheckFilter(b, player, sq, m', i + 1);
      CheckFilterAt(b, player, sq, m', i + 1, k);
    }
  }

  /** The check filter leaves the cells before `i` alone and, from `i` on,
      clears exactly the marked cells whose simulated move leaves the king
      in check. */
  lemma CheckFilterMeaning(b: Board, player: int, sq: XY, m: Matrix, i: nat)
    requires InRange8(sq) && i <= 64
    ensures forall k :: 0 <= k < i ==> CheckFilter(b, player, sq, m, i)[k] == m[k]
    ensures forall k :: i <= k < 64 ==>
      CheckFilter(b, player, sq, m, i)[k] == (if m[k] > 0 && StillInCheck(b, player, sq, k) then 0 else m[k])
  {
    forall k | 0 <= k < 64
      ensures CheckFilter(b, player, sq, m, i)[k] ==
        if k < i then m[k] else if m[k] > 0 && StillInCheck(b, player, sq, k) then 0 else m[k]
    {
      CheckFilterAt(b, player, sq, m, i, k);
    }
  }

  /** A king's attacked squares are taken out of its raw map when
      `substractKingIllegal` is set. */
  lemma SafeMapMeaning(b: Board, player: int, sq: XY, f: Flags)
    requires InRange8(sq)
    ensures forall i :: 0 <= i < 64 ==> (SafeMap(b, player, sq, f)[i] > 0 <==>
      CandidateMap(b, player, sq, f)[i] == 1
      && (f.substractKingIllegal && At(b, sq).piece == King ==> AttackMap(b, Opponent(player))[i] == 0))
  {
  }

  /** With the king in check and the filter on, a cell survives exactly when
      the simulated swap onto it leaves the king out of check. */
  lemma CheckedMapMeaning(b: Board, player: int, sq: XY, f: Flags)
    requires InRange8(sq)
    ensures forall i :: 0 <= i < 64 ==> (CheckedMap(b, player, sq, f)[i] > 0 <==>
      SafeMap(b, player, sq, f)[i] > 0
      && (!f.preventRecursiveKingInCheck && KingInCheck(b, player) ==> !KingInCheck(SwapPieces(b, sq, Cell(i)), player)))
  {
    if !f.preventRecursiveKingInCheck && KingInCheck(b, player) {
      forall i | 0 <= i < 64
        ensures CheckedMap(b, player, sq, f)[i] > 0 <==>
          SafeMap(b, player, sq, f)[i] > 0 && !StillInCheck(b, player, sq, i)
      {
        CheckFilterAt(b, player, sq, SafeMap(b, player, sq, f), 0, i);
      }
    }
  }

  /** The verdict on one cell of `GetTravelMap` for an owned square. */
  predicate PieceMapKeeps(b: Board, player: int, sq: XY, f: Flags, i: int)
    requires InRange8(sq) && 0 <= i < 64
  {
    && CandidateMap(b, player, sq, f)[i] == 1
    && (f.substractKingIllegal && At(b, sq).piece == King ==> AttackMap(b, Opponent(player))[i] == 0)
    && (!f.preventRecursiveKingInCheck && KingInCheck(b, player) ==> !KingInCheck(SwapPieces(b, sq, Cell(i)), player))
  }

  /** What `GetTravelMap` computes. An unowned square gives the empty map.
      For the player's own square a cell is marked exactly when the raw
      candidate map marks it, it is not attacked by the opponent if a king's
      attacked squares are subtracted, and, if moves are filtered against
      check while the king is in check, the simulated swap onto it leaves
      the king out of check. */
  lemma PieceMapMeaning(b: Board, player: int, sq: XY, f: Flags)
    requires InRange8(sq)
    ensures !CanSelect(b, player, sq) ==> PieceMap(b, player, sq, f) == Empty()
    ensures CanSelect(b, player, sq) ==> forall i :: 0 <= i < 64 ==>
      (PieceMap(b, player, sq, f)[i] == 1 <==> PieceMapKeeps(b, player, sq, f, i))
  {
    SafeMapMeaning(b, player, sq, f);
    CheckedMapMeaning(b, player, sq, f);
  }

  /** A cell a map keeps is a cell of the raw candidate map. */
  lemma PieceMapWithinCandidates(b: Board, player: int, sq: XY, f: Flags, i: int)
    requires InRange8(sq) && 0 <= i < 64 && PieceMap(b, player, sq, f)[i] == 1
    ensures CanSelect(b, player, sq) && CandidateMap(b, player, sq, f)[i] == 1
  {
    PieceMapMeaning(b, player, sq, f);
  }

  /** A king contributes nothing unless `includeKing` is set. */
  lemma KingNeedsIncludeKing(b: Board, player: int, sq: XY, f: Flags)
    requires InRange8(sq) && At(b, sq).piece == King && !f.includeKing
    ensures forall i :: 0 <= i < 64 ==> PieceMap(b, player, sq, f)[i] == 0
  {
    assert Vectors(b, player, sq, f) == [];
    forall i | 0 <= i < 64 && PieceMap(b, player, sq, f)[i] == 1
      ensures false
    {
      PieceMapWithinCandidates(b, player, sq, f, i);
    }
  }

  /** When moves are filtered against check and the king is in check, every
      destination a map keeps is one where the simulated swap leaves the king
      out of check. */
  lemma MovesEscapeCheck(b: Board, player: int, sq: XY, f: Flags, i: int)
    requires InRange8(sq) && 0 <= i < 64
    requires !f.preventRecursiveKingInCheck && KingInCheck(b, player)
    requires PieceMap(b, player, sq, f)[i] == 1
    ensures !KingInCheck(SwapPieces(b, sq, Cell(i)), player)
  {
    PieceMapMeaning(b, player, sq, f);
  }

  /** A pawn's map only marks squares `PawnReaches` allows: one square
      ahead only when it is empty, two squares ahead only from an untouched
      square over an empty square onto an empty one, otherwise one square
      diagonally forward. */
  lemma PawnMoveShape(b: Board, player: int, sq: XY, f: Flags, t: XY)
    requires InRange8(sq) && InRange8(t) && PieceMap(b, player, sq, f)[Idx(t)] == 1
    requires At(b, sq).piece == Pawn && (player == Black || player == White)
    ensures PawnReaches(b, player, sq, f, t)
    ensures t.y == sq.y + PawnDirection(player) || (t.y == sq.y + 2 * PawnDirection(player) && t.x == sq.x)
  {
    PieceMapWithinCandidates(b, player, sq, f, Idx(t));
    PawnTargets(b, player, sq, f, t);
    PawnReachesShape(b, player, sq, f, t);
  }

  /** The piece of `player` on cell `n` marks cell `k` in its map. */
  predicate Covers(b: Board, player: int, f: Flags, n: int, k: int)
    requires 0 <= n < 64 && 0 <= k < 64
  {
    b[n].owner == player && PieceMap(b, player, Cell(n), f)[k] == 1
  }

  /** A partial sum is positive on cell `k` exactly when the map of some
      piece of the player on cells `j..63` marks `k`. */
  lemma {:induction false} GlobalSumCell(b: Board, player: int, prevent: bool, includeKing: bool, alwaysDiagonal: bool, j: nat, k: int)
    requires j <= 64 && 0 <= k < 64
    ensures GlobalSum(b, player, prevent, includeKing, alwaysDiagonal, j)[k] > 0 <==>
      exists n :: j <= n < 64 && Covers(b, player, GlobalFlags(prevent, includeKing, alwaysDiagonal), n, k)
    decreases 64 - j
  {
    var f := GlobalFlags(prevent, includeKing, alwaysDiagonal);
    if j < 64 {
      GlobalSumStep(b, player, prevent, includeKing, alwaysDiagonal, j, k);
      GlobalSumCell(b, player, prevent, includeKing, alwaysDiagonal, j + 1, k);
      if Covers(b, player, f, j, k) {
        assert exists n :: j <= n < 64 && Covers(b, player, f, n, k);
      }
      if exists n :: j <= n < 64 && Covers(b, player, f, n, k) {
        var n :| j <= n < 64 && Covers(b, player, f, n, k);
        if n != j {
          assert exists n' :: j + 1 <= n' < 64 && Covers(b, player, f, n', k);
        }
      }
    }
  }

  /** One step of the sum: cell `k` is positive from `j` on exactly when
      the piece on `j` covers it or it is positive from `j + 1` on. */
  lemma GlobalSumStep(b: Board, player: int, prevent: bool, includeKing: bool, alwaysDiagonal: bool, j: nat, k: int)
    requires j < 64 && 0 <= k < 64
    ensures GlobalSum(b, player, prevent, includeKing, alwaysDiagonal, j)[k] > 0 <==>
      Covers(b, player, GlobalFlags(prevent, includeKing, alwaysDiagonal), j, k)
      || GlobalSum(b, player, prevent, includeKing, alwaysDiagonal, j + 1)[k] > 0
  {
  }

  /** `GetTravelMapGlobal` marks exactly the cells that the map of some
      piece of the player marks. */
  lemma GlobalMapMeaning(b: Board, player: int, prevent: bool, includeKing: bool, alwaysDiagonal: bool)
    ensures forall k :: 0 <= k < 64 ==>
      (GlobalMap(b, player, prevent, includeKing, alwaysDiagonal)[k] == 1 <==>
        exists n :: 0 <= n < 64 && Covers(b, player, GlobalFlags(prevent, includeKing, alwaysDiagonal), n, k))
  {
    forall k | 0 <= k < 64 {
      GlobalSumCell(b, player, prevent, includeKing, alwaysDiagonal, 0, k);
    }
  }

  /** The piece of `player` on cell `n` threatens cell `k`. */
  predicate Threatens(b: Board, player: int, n: int, k: int)
    requires 0 <= n < 64 && 0 <= k < 64
  {
    b[n].owner == player && CandidateMap(b, player, Cell(n), AttackFlags)[k] == 1
  }

  /** With the attack flags nothing is filtered: an owned piece's map is its
      raw candidate map. */
  lemma AttackCovers(b: Board, player: int, n: int, k: int)
    requires 0 <= n < 64 && 0 <= k < 64
    ensures Covers(b, player, AttackFlags, n, k) <==> Threatens(b, player, n, k)
  {
    if b[n].owner == player {
      PieceMapMeaning(b, player, Cell(n), AttackFlags);
      IdxCellInverse(Cell(n), n);
      assert CanSelect(b, player, Cell(n));
    }
  }

  /** A player attacks exactly the cells that the raw candidate map of one
      of their pieces marks. */
  lemma AttackMapMeaning(b: Board, player: int)
    ensures forall k :: 0 <= k < 64 ==>
      (AttackMap(b, player)[k] == 1 <==> exists n :: 0 <= n < 64 && Threatens(b, player, n, k))
  {
    GlobalMapMeaning(b, player, true, true, true);
    forall n, k | 0 <= n < 64 && 0 <= k < 64
      ensures Covers(b, player, AttackFlags, n, k) <==> Threatens(b, player, n, k)
    {
      AttackCovers(b, player, n, k);
    }
  }

  /** No piece threatens a square its own side stands on. */
  lemma ThreatSkipsOwnPieces(b: Board, player: int, n: int, k: int)
    requires 0 <= n < 64 && 0 <= k < 64 && b[k].owner == player
    ensures !Threatens(b, player, n, k)
  {
    var sq := Cell(n);
    IdxCellInverse(sq, n);
    if b[n].owner == player {
      CandidateSkipsOwnPieces(b, player, sq, AttackFlags, k);
    }
  }

  /** A player's attack map never marks a square one of their own pieces
      stands on. So a piece the opponent defends is not an attacked square
      for the king that captures it. */
  lemma AttackMapSkipsOwnPieces(b: Board, player: int, c: XY)
    requires InRange8(c) && At(b, c).owner == player
    ensures AttackMap(b, player)[Idx(c)] == 0
  {
    AttackMapMeaning(b, player);
    forall n | 0 <= n < 64
      ensures !Threatens(b, player, n, Idx(c))
    {
      ThreatSkipsOwnPieces(b, player, n, Idx(c));
    }
  }

  /** A player is in check exactly when they have a king and some piece of
      the opponent threatens the square of the king `FindKing` reports. */
  lemma KingInCheckMeaning(b: Board, player: int)
    ensures KingInCheck(b, player) <==>
      InRange8(FindKing(b, player))
      && exists n :: 0 <= n < 64 && Threatens(b, Opponent(player), n, Idx(FindKing(b, player)))
  {
    AttackMapMeaning(b, Opponent(player));
  }

  /** The flags of the per-piece maps `PlayerCanMove` adds up: every piece
      but the king, moves filtered against check. */
  const NonKingMoves := GlobalFlags(false, false, false)

  /** The king's legal moves as `PlayerCanMove` computes them; a player
      without a king contributes nothing. */
  function KingMoves(b: Board, player: int): (r: Matrix)
    ensures IsBinary(r)
  {
    var k := FindKing(b, player);
    if InRange8(k) then PieceMap(b, player, k, LegalMoves) else Empty()
  }

  /** `PlayerCanMove`: some cell of the pieces' global map plus the king's
      map is positive (`PlayerCanMoveMeaning`). */
  predicate PlayerCanMove(b: Board, player: int)
  {
    AnyPositive(Add(GlobalMap(b, player, false, false, false), KingMoves(b, player)))
  }

  /** A player can move exactly when some piece other than through the
      king's own map marks a destination, or the king's legal-move map marks
      one. */
  lemma PlayerCanMoveMeaning(b: Board, player: int)
    ensures PlayerCanMove(b, player) <==>
      (exists n, k :: 0 <= n < 64 && 0 <= k < 64 && Covers(b, player, NonKingMoves, n, k))
      || (exists k :: 0 <= k < 64 && KingMoves(b, player)[k] == 1)
  {
    var g := GlobalMap(b, player, false, false, false);
    var km := KingMoves(b, player);
    AnyPositiveAdd(g, km);
    GlobalMapAny(b, player, false, false, false);
  }

  /** A global map marks some cell exactly when the map of some piece of
      the player marks one. */
  lemma GlobalMapAny(b: Board, player: int, prevent: bool, includeKing: bool, alwaysDiagonal: bool)
    ensures AnyPositive(GlobalMap(b, player, prevent, includeKing, alwaysDiagonal)) <==>
      exists n, k :: 0 <= n < 64 && 0 <= k < 64 && Covers(b, player, GlobalFlags(prevent, includeKing, alwaysDiagonal), n, k)
  {
    var g := GlobalMap(b, player, prevent, includeKing, alwaysDiagonal);
    var f := GlobalFlags(prevent, includeKing, alwaysDiagonal);
    GlobalMapMeaning(b, player, prevent, includeKing, alwaysDiagonal);
    if AnyPositive(g) {
      var k :| 0 <= k < 64 && g[k] > 0;
      var n :| 0 <= n < 64 && Covers(b, player, f, n, k);
    }
    if exists n, k :: 0 <= n < 64 && 0 <= k < 64 && Covers(b, player, f, n, k) {
      var n, k :| 0 <= n < 64 && 0 <= k < 64 && Covers(b, player, f, n, k);
      assert g[k] > 0;
    }
  }

  /** `Checkmate`: in check with no move left. */
  predicate Checkmate(b: Board, player: int)
  {
    KingInCheck(b, player) && !PlayerCanMove(b, player)
  }

  /** `Stalemate`: not in check, yet no move left. */
  predicate Stalemate(b: Board, player: int)
  {
    !KingInCheck(b, player) && !PlayerCanMove(b, player)
  }

  /** The two end conditions never hold together, and one of them holds
      exactly when the player has no move; a player without a king is
      never in check, so a blocked such player is stalemated. */
  lemma GameEndExclusive(b: Board, player: int)
    ensures !(Checkmate(b, player) && Stalemate(b, player))
    ensures Checkmate(b, player) || Stalemate(b, player) <==> !PlayerCanMove(b, player)
    ensures FindKing(b, player) == NoSquare ==> !Checkmate(b, player)
  {
  }
}
