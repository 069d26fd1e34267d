/** The ply controller of the renderer (render.cpp), without any drawing:
    selecting a square, attempting a move, the promotion mode, the turn
    change with game-over detection, the toolbar's Restart, Load and Save,
    and the mapping from window pixels to board squares. Labels, hover
    state, the spotlight map and the language switch only affect what is
    drawn and are not part of the state. */
module Controller {
  import opened Coordinates
  import opened Types
  import opened Rules
  import opened Logic
  import opened SaveFormat

  // ------------------------------------------------------ Board geometry

  // The layout metrics of the renderer, in pixels at scale 1.
  const WhiteSpace := 8
  const WhiteSpaceSmall := 4
  const SquareMetric := 16
  const BoardBorder := 8
  const IconMetric := 16

  /** Pixels left of the board's first column. */
  function PaddingLeft(scale: int): int
  {
    scale * (WhiteSpace + BoardBorder)
  }

  /** Pixels above the board's first row: the toolbar and the border. */
  function PaddingTop(scale: int): int
  {
    scale * (WhiteSpaceSmall + IconMetric + WhiteSpaceSmall + BoardBorder)
  }

  /** The side of one board square in pixels. */
  function SquareSize(scale: int): int
  {
    scale * SquareMetric
  }

  /** The pixel `p` lies in the rectangle of the board square in column
      (or row) `k`, counted from `pad` in squares of `size` pixels. */
  predicate InSquare(p: int, pad: int, size: int, k: int)
  {
    pad + k * size <= p < pad + (k + 1) * size
  }

  /** For an offset inside eight squares, the quotient is the square that
      holds it. */
  lemma SquareOfOffset(a: int, size: int)
    requires size > 0 && 0 <= a < 8 * size
    ensures 0 <= a / size < 8
    ensures (a / size) * size <= a < (a / size + 1) * size
  {
    var q := a / size;
    assert a == q * size + a % size;
    assert (8 - q) * size == 8 * size - q * size > 0;
    assert (q + 1) * size == q * size + size > 0;
  }

  /** `GetMouseSquare`: (-1,-1) for a pixel outside the 8x8 board
      rectangle, otherwise the board square whose rectangle holds the
      pixel. `Scale` is at least 1. */
  function GetMouseSquare(p: XY, scale: int): (r: XY)
    requires scale >= 1
    ensures r == NoSquare <==>
      !InRange(p, XY(PaddingLeft(scale), PaddingTop(scale)),
               XY(PaddingLeft(scale) + 8 * SquareSize(scale), PaddingTop(scale) + 8 * SquareSize(scale)))
    ensures r != NoSquare ==> InRange8(r)
    ensures r != NoSquare ==>
      InSquare(p.x, PaddingLeft(scale), SquareSize(scale), r.x) && InSquare(p.y, PaddingTop(scale), SquareSize(scale), r.y)
  {
    var left := PaddingLeft(scale);
    var top := PaddingTop(scale);
    var size := SquareSize(scale);
    if !InRange(p, XY(left, top), XY(left + size * 8, top + size * 8)) then NoSquare
    else
      SquareOfOffset(p.x - left, size);
      SquareOfOffset(p.y - top, size);
      XY((p.x - left) / size, (p.y - top) / size)
  }

  // ---------------------------------------------------- Promotion icons

  /** The pieces of the promotion overlay in icon order; icon 0 is "none". */
  const PromotionPieces := [NoPiece, Knight, Bishop, Rook, Dame]

  /** `TranslatePromotionIconToPiece`: icons 1 to 4 give Knight, Bishop,
      Rook and Dame, every other value gives NoPiece. */
  function TranslatePromotionIconToPiece(icon: int): (r: int)
    ensures r != NoPiece <==> 1 <= icon <= 4
    ensures r in {NoPiece, Knight, Bishop, Rook, Dame}
    ensures icon == 1 ==> r == Knight
    ensures icon == 2 ==> r == Bishop
    ensures icon == 3 ==> r == Rook
    ensures icon == 4 ==> r == Dame
  {
    if 0 <= icon < |PromotionPieces| then PromotionPieces[icon] else NoPiece
  }

  // ------------------------------------------------------------- State

  /** The toolbar icon under the mouse cursor. */
  datatype ToolbarIcon =
    | NoIcon
    | LanguageIcon
    | SpotlightIcon
    | RestartIcon
    | LoadIcon
    | SaveIcon
    | InformationIcon
    | QuitIcon

  /** `Mode.Select`: whether a square is selected, and which. */
  datatype Selection = Selection(active: bool, square: XY)

  /** The state the controller keeps: the game and the modes. */
  datatype Ui = Ui(game: Game, gameOver: bool, promotionMode: bool, select: Selection)

  /** What a click sends to the outside world: nothing, or a save buffer. */
  datatype Effect = NoEffect | Saved(buffer: seq<Byte>)

  /** The invariant the controller keeps. A selected square is on the
      board, owned by the side to move, and only selected while the game
      is running and no promotion is awaited; the promotion mode is on
      exactly while the game has a promotion pending, at a board square. */
  predicate Valid(u: Ui)
  {
    && (u.select.active ==>
          InRange8(u.select.square) && CanSelect(u.game.board, u.game.turn, u.select.square)
          && !u.gameOver && !u.promotionMode)
    && (u.promotionMode <==> u.game.promotion.pending)
    && (u.game.promotion.pending ==> InRange8(u.game.promotion.location))
  }

  /** The renderer's initial state: the game as its constructor leaves it
      (restarted), no mode on, nothing selected. */
  function Initial(g: Game): (u: Ui)
    ensures Valid(u)
    ensures !u.gameOver && !u.promotionMode && !u.select.active
  {
    Ui(Restart(g), false, false, Selection(false, NoSquare))
  }

  // ------------------------------------------------------ Turn change

  /** `AfterTurnTasks`: the turn passes, and the game is over when the new
      side to move is checkmated or, failing that, stalemated. */
  function AfterTurnTasks(u: Ui): (r: Ui)
    ensures r.game == ChangeTurn(u.game)
    ensures r.promotionMode == u.promotionMode && r.select == u.select
    ensures r.gameOver <==> u.gameOver || !PlayerCanMove(r.game.board, r.game.turn)
  {
    var g := ChangeTurn(u.game);
    if Checkmate(g.board, g.turn) then u.(game := g, gameOver := true)
    else if Stalemate(g.board, g.turn) then u.(game := g, gameOver := true)
    else u.(game := g)
  }

  // ------------------------------------------------------------ Clicks

  /** The toolbar branch of `HandleMouseClick`. Every toolbar click drops
      the selection. Restart restarts and leaves both modes; Load with the
      file's bytes leaves both modes when it succeeds and changes nothing
      else when it fails; Save hands out the save buffer unless a promotion
      is awaited or the game is over. The other icons only change what is
      drawn, or end the program. */
  function ToolbarClick(u: Ui, icon: ToolbarIcon, file: seq<Byte>): (r: (Ui, Effect))
    requires Valid(u) && icon != NoIcon
    ensures Valid(r.0) && !r.0.select.active
    ensures r.1.Saved? ==> icon == SaveIcon && !u.promotionMode && !u.gameOver && r.1.buffer == Save(u.game)
  {
    var v := u.(select := u.select.(active := false));
    match icon
    case RestartIcon => (v.(game := Restart(u.game), gameOver := false, promotionMode := false), NoEffect)
    case LoadIcon =>
      var l := Load(u.game, file);
      if l.loaded then (v.(game := l.game, gameOver := false, promotionMode := false), NoEffect)
      else (v, NoEffect)
    case SaveIcon =>
      if !u.promotionMode && !u.gameOver then (v, Saved(Save(u.game))) else (v, NoEffect)
    case _ => (v, NoEffect)
  }

  /** The promotion branch of `HandleMouseClick`: a promotion icon resolves
      the pending promotion, leaves the promotion mode and passes the turn;
      any other click does nothing. */
  function PromotionClick(u: Ui, promotionIcon: int): (r: Ui)
    requires Valid(u) && u.promotionMode
    ensures Valid(r)
  {
    var piece := TranslatePromotionIconToPiece(promotionIcon);
    if piece != NoPiece then
      AfterTurnTasks(u.(game := SatisfyPromotionRequest(u.game, piece), promotionMode := false))
    else u
  }

  /** The board branch of `HandleMouseClick` for square `sq`. With a square
      selected, clicking it again deselects it, and clicking another square
      attempts the move: a failed move changes nothing, a successful one
      drops the selection and either enters the promotion mode or passes
      the turn. With nothing selected, a running game selects a square of
      the side to move. */
  function BoardClick(u: Ui, sq: XY): (r: Ui)
    requires Valid(u) && !u.promotionMode && InRange8(sq)
    ensures Valid(r)
  {
    if u.select.active then
      if sq == u.select.square then u.(select := u.select.(active := false))
      else
        var m := Move(u.game, u.select.square, sq);
        if !m.moved then u
        else
          var v := u.(game := m.game, select := u.select.(active := false));
          if PromotionRequested(m.game) then v.(promotionMode := true)
          else AfterTurnTasks(v)
    else if !u.gameOver && CanSelect(u.game.board, u.game.turn, sq) then
      u.(select := Selection(true, sq))
    else u
  }

  /** `HandleMouseClick`, given what is under the mouse cursor: a toolbar icon,
      a promotion icon and a board square (or (-1,-1)), plus the bytes of
      the save file in case Load is clicked. The toolbar wins, then the
      promotion mode, then the board. */
  function HandleMouseClick(u: Ui, icon: ToolbarIcon, promotionIcon: int, sq: XY, file: seq<Byte>): (r: (Ui, Effect))
    requires Valid(u)
    ensures Valid(r.0)
    ensures r.1.Saved? ==> icon == SaveIcon && !u.promotionMode && !u.gameOver && r.1.buffer == Save(u.game)
  {
    if icon != NoIcon then
      ToolbarClick(u, icon, file)
    else if u.promotionMode then
      (PromotionClick(u, promotionIcon), NoEffect)
    else if InRange8(sq) then
      (BoardClick(u, sq), NoEffect)
    else (u, NoEffect)
  }

  // ------------------------------------------------ Properties of a click

  /** With nothing selected, a board click selects the square exactly when
      the game is running and the square belongs to the side to move. */
  lemma ClickSelects(u: Ui, promotionIcon: int, sq: XY, file: seq<Byte>)
    requires Valid(u) && !u.promotionMode && !u.select.active && InRange8(sq)
    ensures var r := HandleMouseClick(u, NoIcon, promotionIcon, sq, file).0;
      (r.select.active <==> !u.gameOver && At(u.game.board, sq).owner == u.game.turn)
      && (r.select.active ==> r.select.square == sq)
      && r.game == u.game
  {
  }

  /** Clicking the selected square again deselects it and moves nothing. */
  lemma ClickSelectedDeselects(u: Ui, promotionIcon: int, file: seq<Byte>)
    requires Valid(u) && !u.promotionMode && u.select.active
    ensures HandleMouseClick(u, NoIcon, promotionIcon, u.select.square, file) ==
      (u.(select := u.select.(active := false)), NoEffect)
  {
  }

  /** Clicking another square with a square selected attempts the move of
      a piece of the side to move. A failed move leaves everything as it
      was, selection included. A successful move drops the selection; with
      a promotion pending it enters the promotion mode and keeps the turn,
      otherwise the turn passes to the opponent. */
  lemma ClickMoves(u: Ui, promotionIcon: int, sq: XY, file: seq<Byte>)
    requires Valid(u) && !u.promotionMode && u.select.active && InRange8(sq) && sq != u.select.square
    ensures At(u.game.board, u.select.square).owner == u.game.turn && !u.gameOver
    ensures var m := Move(u.game, u.select.square, sq);
      var r := HandleMouseClick(u, NoIcon, promotionIcon, sq, file).0;
      && (!m.moved ==> r == u)
      && (m.moved ==> !r.select.active)
      && (m.moved && PromotionRequested(m.game) ==> r.promotionMode && r.game == m.game && r.game.turn == u.game.turn)
      && (m.moved && !PromotionRequested(m.game) ==>
            !r.promotionMode && r.game == ChangeTurn(m.game) && r.game.turn == Opponent(u.game.turn))
  {
  }

  /** In the promotion mode a click on a promotion icon puts the chosen
      piece on the promotion square for its owner, leaves the promotion
      mode and passes the turn; any other click outside the toolbar does
      nothing. */
  lemma ClickPromotes(u: Ui, promotionIcon: int, sq: XY, file: seq<Byte>)
    requires Valid(u) && u.promotionMode
    ensures var r := HandleMouseClick(u, NoIcon, promotionIcon, sq, file).0;
      var loc := u.game.promotion.location;
      if 1 <= promotionIcon <= 4 then
        && !r.promotionMode && !r.game.promotion.pending
        && r.game.turn == Opponent(u.game.turn)
        && At(r.game.board, loc).piece == TranslatePromotionIconToPiece(promotionIcon)
        && At(r.game.board, loc).owner == At(u.game.board, loc).owner
      else r == u
  {
    var loc := u.game.promotion.location;
    IdxCellInverse(loc, Idx(loc));
  }

  /** A Restart click restarts the game and leaves both modes. */
  lemma RestartClickResets(u: Ui, promotionIcon: int, sq: XY, file: seq<Byte>)
    requires Valid(u)
    ensures !HandleMouseClick(u, RestartIcon, promotionIcon, sq, file).0.gameOver
    ensures !HandleMouseClick(u, RestartIcon, promotionIcon, sq, file).0.promotionMode
    ensures !HandleMouseClick(u, RestartIcon, promotionIcon, sq, file).0.select.active
    ensures HandleMouseClick(u, RestartIcon, promotionIcon, sq, file).0.game == Restart(u.game)
  {
    assert HandleMouseClick(u, RestartIcon, promotionIcon, sq, file) == ToolbarClick(u, RestartIcon, file);
  }

  /** A Load click that succeeds leaves both modes with the loaded game; one
      that fails leaves the game and the modes as they were. */
  lemma LoadClickResets(u: Ui, promotionIcon: int, sq: XY, file: seq<Byte>)
    requires Valid(u)
    ensures Load(u.game, file).loaded ==>
      && !HandleMouseClick(u, LoadIcon, promotionIcon, sq, file).0.gameOver
      && !HandleMouseClick(u, LoadIcon, promotionIcon, sq, file).0.promotionMode
      && HandleMouseClick(u, LoadIcon, promotionIcon, sq, file).0.game == Load(u.game, file).game
    ensures !Load(u.game, file).loaded ==>
      HandleMouseClick(u, LoadIcon, promotionIcon, sq, file).0 == u.(select := u.select.(active := false))
  {
    assert HandleMouseClick(u, LoadIcon, promotionIcon, sq, file) == ToolbarClick(u, LoadIcon, file);
  }
}
