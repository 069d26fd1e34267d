/** The 69-byte save buffer of `Save` and `Load` (logic.cpp): a four-byte
    header "ALD1", the turn byte, then one byte per square in row-major
    order. Reading and writing the file itself is not modelled: `Save`
    yields the buffer and `Load` takes the file's bytes. */
module SaveFormat {
  import opened Coordinates
  import opened Types
  import opened Castling

  type Byte = bv8

  /** `FileBufferSize`: header, turn, 64 squares. */
  const FileBufferSize := 4 + 1 + 8 * 8

  /** The header bytes 'A', 'L', 'D', '1'. */
  const Header: seq<Byte> := [0x41, 0x4C, 0x44, 0x31]

  /** The conversion of an `int` to `unsigned char`: reduction modulo 256. */
  function ToByte(n: int): Byte
  {
    (n % 256) as Byte
  }

  /** A value that fits a byte survives the conversion. */
  lemma ToByteInverse(n: int)
    requires 0 <= n < 256
    ensures ToByte(n) as int == n
  {
    assert n % 256 == n;
  }

  /** A flag as the bit 0 or 1. */
  function Bit(flag: bool): Byte
  {
    if flag then 1 else 0
  }

  /** One square's byte: owner in bits 0-1, piece in bits 2-4, touched in
      bit 5, en-passant target in bit 6; the castling flag is not saved.
      Each field is converted to a byte before it is shifted into place,
      so an owner or piece too wide for its field spills into the next. */
  function EncodeSquare(s: Square): Byte
  {
    ToByte(s.owner) | (ToByte(s.piece) << 2) | (Bit(s.touched) << 5) | (Bit(s.enPassantTarget) << 6)
  }

  /** What `Load` makes of square `s` from byte `v`: the four saved fields
      are read through their masks, the castling flag is left as it was. */
  function DecodeSquare(v: Byte, s: Square): (r: Square)
    ensures 0 <= r.owner < 4 && 0 <= r.piece < 8
    ensures r.castlingTarget == s.castlingTarget
  {
    s.(owner := (v & 0x03) as int,
       piece := ((v & 0x1C) >> 2) as int,
       touched := (v & 0x20) >> 5 != 0,
       enPassantTarget := (v & 0x40) >> 6 != 0)
  }

  /** The buffer part of `Save`. */
  function Save(g: Game): (buf: seq<Byte>)
    ensures |buf| == FileBufferSize
    ensures buf[..4] == Header
    ensures buf[4] == ToByte(g.turn)
    ensures forall x, y :: 0 <= x < 8 && 0 <= y < 8 ==> buf[5 + 8 * y + x] == EncodeSquare(At(g.board, XY(x, y)))
  {
    Header + [ToByte(g.turn)] + seq(64, i requires 0 <= i < 64 => EncodeSquare(g.board[i]))
  }

  /** The bytes `Load` reads into its zero-initialised buffer: the first
      69 bytes of the file, and zeros after the end of a shorter file. */
  function ReadBuffer(file: seq<Byte>): (buf: seq<Byte>)
    ensures |buf| == FileBufferSize
    ensures forall i :: 0 <= i < FileBufferSize ==> buf[i] == if i < |file| then file[i] else 0
  {
    if |file| >= FileBufferSize then file[..FileBufferSize]
    else file + seq(FileBufferSize - |file|, _ => 0)
  }

  /** What `Load` reports, with the game it leaves behind. */
  datatype LoadResult = LoadResult(loaded: bool, game: Game)

  /** The byte-by-byte header test of `Load`. */
  predicate GoodHeader(buf: seq<Byte>)
    requires |buf| >= 4
    ensures GoodHeader(buf) <==> buf[..4] == Header
  {
    assert 'A' as Byte == 0x41 && 'L' as Byte == 0x4C && 'D' as Byte == 0x44 && '1' as Byte == 0x31;
    assert buf[..4] == [buf[0], buf[1], buf[2], buf[3]];
    buf[0] == 'A' as Byte && buf[1] == 'L' as Byte && buf[2] == 'D' as Byte && buf[3] == '1' as Byte
  }

  /** The loop of `Load` that decodes the 64 square bytes into `b`. */
  function DecodeBoard(buf: seq<Byte>, b: Board): (r: Board)
    requires |buf| == FileBufferSize
    ensures forall i :: 0 <= i < 64 ==> r[i] == DecodeSquare(buf[5 + i], b[i])
  {
    seq(64, i requires 0 <= i < 64 => DecodeSquare(buf[5 + i], b[i]))
  }

  /** The buffer part of `Load`. A file shorter than 68 bytes (one less
      than the buffer) or without the "ALD1" header is rejected and the
      game is left as it was. Otherwise any pending promotion is dropped
      with location (0,0), the turn is byte 4 unchecked, every square is
      decoded from its byte, and the castling flags are recomputed for the
      new side to move. */
  function Load(g: Game, file: seq<Byte>): (r: LoadResult)
    ensures r.loaded <==> |file| >= FileBufferSize - 1 && file[..4] == Header
    ensures !r.loaded ==> r.game == g
    ensures r.loaded ==> r.game.turn == file[4] as int && r.game.promotion == Promotion(false, XY(0, 0))
    ensures r.loaded ==> forall i :: 0 <= i < 64 ==>
      r.game.board[i] == DecodeSquare(ReadBuffer(file)[5 + i], g.board[i]).(castlingTarget := r.game.board[i].castlingTarget)
    ensures r.loaded ==> r.game.board == UpdateCastling(DecodeBoard(ReadBuffer(file), g.board), file[4] as int)
  {
    if |file| < FileBufferSize - 1 then LoadResult(false, g)
    else
      var buf := ReadBuffer(file);
      assert buf[..4] == file[..4];
      if !GoodHeader(buf) then LoadResult(false, g)
      else
        var turn := buf[4] as int;
        var b := DecodeBoard(buf, g.board);
        var c := UpdateCastling(b, turn);
        assert forall i :: 0 <= i < 64 ==> c[i] == b[i].(castlingTarget := c[i].castlingTarget);
        LoadResult(true, Game(c, Promotion(false, XY(0, 0)), turn))
  }

  /** Decoding a square's byte gives back its owner, piece, touched and
      en-passant flags whenever owner and piece fit their fields. */
  lemma DecodeEncodeSquare(s: Square, t: Square)
    requires Encodable(s)
    ensures DecodeSquare(EncodeSquare(s), t) == s.(castlingTarget := t.castlingTarget)
  {
  }

  /** Loading what `Save` wrote restores the turn and every square's owner,
      piece, touched and en-passant flags, whatever game it is loaded
      into, provided the turn fits its byte and every owner and piece fits
      its field; the castling flags are those `UpdateCastling` gives the
      saved position and no promotion is pending. */
  lemma SaveLoadRoundTrip(g: Game, h: Game)
    requires 0 <= g.turn < 256
    requires forall i :: 0 <= i < 64 ==> Encodable(g.board[i])
    ensures Load(h, Save(g)).loaded
    ensures Load(h, Save(g)).game == Game(UpdateCastling(g.board, g.turn), Promotion(false, XY(0, 0)), g.turn)
  {
    var buf := Save(g);
    LoadFullBuffer(h, buf);
    DecodeSavedBoard(g, h.board);
    UpdateCastlingIgnoresFlags(DecodeBoard(buf, h.board), g.board, g.turn);
    ToByteInverse(g.turn);
  }

  /** A full buffer with the right header loads: the turn is byte 4, the
      squares are decoded and the castling flags recomputed. */
  lemma LoadFullBuffer(g: Game, buf: seq<Byte>)
    requires |buf| == FileBufferSize && buf[..4] == Header
    ensures Load(g, buf) ==
      LoadResult(true, Game(UpdateCastling(DecodeBoard(buf, g.board), buf[4] as int), Promotion(false, XY(0, 0)), buf[4] as int))
  {
    assert ReadBuffer(buf) == buf;
  }

  /** The squares decoded from a saved buffer agree with the saved board
      on everything but the castling flags. */
  lemma DecodeSavedBoard(g: Game, b: Board)
    requires forall i :: 0 <= i < 64 ==> Encodable(g.board[i])
    ensures forall i :: 0 <= i < 64 ==>
      DecodeBoard(Save(g), b)[i].(castlingTarget := false) == g.board[i].(castlingTarget := false)
  {
    var buf := Save(g);
    forall i | 0 <= i < 64
      ensures DecodeBoard(buf, b)[i].(castlingTarget := false) == g.board[i].(castlingTarget := false)
    {
      IdxCellInverse(Cell(i), i);
      assert buf[5 + i] == EncodeSquare(g.board[i]);
      DecodeEncodeSquare(g.board[i], b[i]);
    }
  }

  /** A file one byte short of the buffer still loads when its header is
      right: the missing last byte reads as zero, so square (7,7) comes
      back empty, untouched and without an en-passant flag. */
  lemma LoadAcceptsShortFile(g: Game, file: seq<Byte>)
    requires |file| == FileBufferSize - 1 && file[..4] == Header
    ensures Load(g, file).loaded
    ensures var s := At(Load(g, file).game.board, XY(7, 7));
      s.owner == Nobody && s.piece == NoPiece && !s.touched && !s.enPassantTarget
  {
    assert ReadBuffer(file)[5 + 63] == 0;
  }
}
