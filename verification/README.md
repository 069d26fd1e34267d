# Alder Chess game logic in Dafny

This project models the core of Alder Chess, a two-player chess game with a
graphical user interface. The core is:

- the game logic (`GameLogic` in `logic.cpp`): the 8×8 board of squares with
  owner, piece and the touched, en-passant-target and castling-target flags;
  travel maps; check, checkmate and stalemate; moves with castling, en passant
  and promotion; and the 69-byte save format;
- the coordinate and matrix helpers (`general.cpp`);
- the types and defaults (`alderchess.hpp`);
- the mouse-click state machine of the renderer (`render.cpp`) that drives the
  logic: selection, moves, promotion, game over, and the restart, save and load
  toolbar buttons.

The board is a flat sequence of 64 squares, with square `(x, y)` at index
`8 * y + x`. An 8×8 integer matrix is a flat sequence of 64 integers indexed
the same way. Owners and pieces keep the integer codes of the enums
(`Nobody = 0, Black = 1, White = 2`; `NoPiece = 0, Pawn … King = 6`), because
the program stores and saves them as plain integers. Every mutating member
function of `GameLogic` becomes a pure function from a `Game` (board,
promotion request, turn) to a new `Game`.

Modules, one per file:

| module | file | models |
|---|---|---|
| `Coordinates` | coordinates.dfy | `XY`, its operators, `InRange`, `InRange8`, board indexing |
| `Matrices` | matrices.dfy | `EmptyMatrix8x8`, `NormalizeMatrix8x8`, matrix `+` and `-` |
| `Types` | types.dfy | the enums, `BoardPiece`, the promotion record, the defaults, `Opponent`, `CanSelect` |
| `TravelMaps` | travel.dfy | `Travel` and the raw per-piece travel map of `GetTravelMap` (vectors, pawn rules, castling targets) |
| `Rules` | rules.dfy | `GetTravelMap` with its check filters, `GetTravelMapGlobal`, `FindKing`, `KingInCheck`, `SwapPieces`, `PlayerCanMove`, `Checkmate`, `Stalemate` |
| `Castling` | castling.dfy | `UpdateCastlingInformation` |
| `StartPosition` | start.dfy | the two loops of `Restart` |
| `Logic` | logic.dfy | `Restart`, `Move`, the promotion accessors, `ChangeTurn`, the debug setters |
| `SaveFormat` | saveformat.dfy | the buffers of `Save` and `Load` |
| `Controller` | controller.dfy | `GetMouseSquare`, `TranslatePromotionIconToPiece`, `AfterTurnTasks`, `HandleMouseClick` |

## How the program's rules differ from FIDE chess

The model follows the code. The code departs from FIDE chess in these places:

- **Moves that expose the king.** Moves are filtered against check only while
  the mover's king is already in check (logic.cpp:463-479). A pinned piece may
  leave its pin. A king may not step onto a square of the opponent's attack
  map, but any other move that exposes the king is allowed.
- **Capturing a defended piece with the king.** The opponent's attack map
  never covers a square where one of the opponent's own pieces stands,
  because every ray stops before its own side's pieces (logic.cpp:532).
  `Rules.AttackMapSkipsOwnPieces` proves this. So a king that is not in check
  may capture a defended piece and end its move in check (logic.cpp:436-454).
  Since `Move` has no special case for kings, the opponent may then capture
  the king.
- **Queenside castling and column 1.** Every square strictly between king and
  rook must be empty and not attacked (logic.cpp:224-233). For queenside
  castling from column 4 this includes column 1, which the king never
  crosses. FIDE requires column 1 to be empty but allows it to be attacked.
  `Castling.QueensideNeedsColumnOne` states this.
- **Simulated captures during check.** The check filter simulates a move by
  *swapping* the two squares' owner, piece and touched fields. A captured piece
  therefore reappears on the source square during the test. `Rules.SwapTwice`
  proves that the second swap restores the board. So the model evaluates every
  candidate move against the original board.
- **The king-has-moved test.** This test is the literal `&&` of three
  conditions: the king is off column 4, the king is off its home row, and the
  king's square is touched (logic.cpp:197-201). `Castling.KingBails` keeps it
  as written.
- **The touched flag after a move.** `Move` sets `Touched` on the square the
  piece *leaves*, not on its destination, which keeps its own flag
  (logic.cpp:697-701). For a rook, a rook that leaves its corner touches the
  corner, so a rook that later returns there is not ready (`Castling.RookReady`).
  But if the corner rook is captured where it stands, the corner is never
  emptied and stays untouched. A rook of the same side that later moves onto
  that corner counts as a rook that has never moved, and it can give castling
  rights (`Logic.RookOnUntouchedCorner`). For the king it combines with the literal
  has-moved test above: a king that has moved may still castle whenever it
  stands on column 4 or on its home row, touched square or not, and otherwise
  whenever its current square was never touched.
- **Whose turn it is.** `Move` moves whoever owns the source square and never
  checks the turn. Only the click handler restricts selection to the side to
  move.
- **Which pawn an en-passant capture removes.** The removed pawn is found from
  `Turn`, not from the mover's colour. With a turn of `Nobody`, the capturing
  pawn is removed from its own destination. The capture also fires on a
  *straight* pawn move onto a flagged square.
- **Stored locations.** The constructor, `Restart` and `Load` set the promotion
  location to `(0, 0)`. The default in the header is `(-1, -1)`, and
  `SatisfyPromotionRequest` resets the location to `(-1, -1)`.
- **Load accepts a short file.** `Load` accepts a file one byte shorter than the
  69-byte buffer (logic.cpp:136). It then reads the missing last square as 0:
  empty, unowned and untouched. `Load` also does not range-check the turn byte
  or the owner and piece codes.
- **The Information icon.** The toolbar enum in `alderchess.hpp` has no
  `Information` value, but `render.cpp` switches on one. The model's
  `ToolbarIcon` datatype includes it.
- **A player without a king.** `PlayerCanMove` would index `Board[-1][-1]` for
  a player without a king. The model treats that king's map as empty
  (`Rules.KingMoves`).

## Model

| member | source | states |
|---|---|---|
| Coordinates.Same | general.cpp:29-36 | `==` on coordinates holds exactly when both components agree |
| Coordinates.PlusMinusInverse | general.cpp:46-58 | `+` and `-` work component by component and undo each other |
| Coordinates.InRange8 | general.cpp:72-86 | a square is on the board exactly when both coordinates lie in 0..7 |
| Coordinates.IdxCellInverse | alderchess.hpp:97-105 | row-major board indexing is a bijection between on-board squares and indices 0..63 |
| Coordinates.IdxInjective | alderchess.hpp:97-105 | two on-board squares share a board index only when they are equal |
| Matrices.Empty | general.cpp:88-96 | every cell of the empty matrix is 0 |
| Matrices.Normalize | general.cpp:98-106 | normalising gives a 0/1 matrix with a 1 exactly where the input is positive |
| Matrices.NormalizeIdempotent | general.cpp:98-106 | normalising leaves a 0/1 matrix unchanged, so normalising twice changes nothing |
| Matrices.NormalizedSumIsUnion | logic.cpp:423-434 | adding two non-negative maps and normalising gives their union |
| Matrices.AddMonotone | logic.cpp:605-618 | a cell of the sum of non-negative maps is positive exactly when a cell of either map is |
| Matrices.AnyPositiveAdd | logic.cpp:605-618 | the sum of non-negative maps has a positive cell exactly when either map has one |
| Types.CodesFitSaveFields | alderchess.hpp:36-112 | every owner and piece code fits its two-bit and three-bit save field; the default square is empty and unflagged; the default promotion is not pending and is at (-1, -1); White moves first |
| Types.Opponent | logic.cpp:650-654 | Black and White are each other's opponent, and anything else has opponent Nobody |
| Types.OpponentInvolution | logic.cpp:650-654 | the opponent of a player's opponent is the player, and no player is their own opponent |
| TravelMaps.Walk | logic.cpp:511-542 | a ray starts one step from the square and visits consecutive squares along the vector, all on the board and none owned by the mover |
| TravelMaps.WalkPassesNoOpponent | logic.cpp:524-538 | the ray never passes an opponent piece: only its last square may hold one |
| TravelMaps.WalkLength | logic.cpp:516-540 | a ray visits at most `distance` squares, and a distance below -1 visits none |
| TravelMaps.WalkMaximal | logic.cpp:516-540 | a ray ends only where the next step is impossible: off the board, onto the mover's own piece, past an opponent piece or beyond the distance |
| TravelMaps.Travel | logic.cpp:511-542 | the travel map of a ray is 0/1 and marks exactly the squares of the walk |
| TravelMaps.SingleStepTravel | logic.cpp:511-542 | a distance-1 ray marks only the square one step away, and only when the mover may step there |
| TravelMaps.VectorListsMatchFilters | logic.cpp:353-407 | the knight, bishop, rook and queen/king vector lists are exactly the vectors their generating loops filter in |
| TravelMaps.PawnVectorShape | logic.cpp:286-350 | every pawn speed vector goes one row forward in the pawn's direction, straight or diagonally, or two rows straight ahead |
| TravelMaps.Vectors | logic.cpp:283-421 | no speed vector of any piece is the null vector |
| TravelMaps.SumTravels | logic.cpp:423-432 | a cell of the accumulated travel maps is positive exactly when the start map or some vector's travel map marks it |
| TravelMaps.TravelSkipsOwnPieces | logic.cpp:529-532 | a ray never marks a square the walker's own side stands on |
| TravelMaps.CandidateSkipsOwnPieces | logic.cpp:422-434 | without special moves, the candidate map never marks a square the mover's own side stands on |
| TravelMaps.CandidateMap | logic.cpp:276-434 | the raw travel map is 0/1 and marks the squares some vector's ray reaches, plus, for a king with special moves, exactly the squares carrying a castling flag (the `CastlingMap` of logic.cpp:409-418) |
| TravelMaps.PawnVectorMembers | logic.cpp:286-350 | a vector is a pawn vector exactly under the forward, double-step, capture and en-passant conditions |
| TravelMaps.PawnForwardMembers | logic.cpp:290-313 | the forward vectors are the one-row step onto an empty square and the two-row step from an untouched square over two empty squares |
| TravelMaps.PawnSideMembers | logic.cpp:316-348 | the capture list holds a diagonal exactly when its square holds an opponent piece or diagonals are always included; the en-passant list holds it exactly when its square is on the board and flagged |
| TravelMaps.PawnReachesByVector | logic.cpp:286-350 | a pawn reaches a square exactly when one of its vectors' single step reaches it |
| TravelMaps.SingleStepTravels | logic.cpp:511-542 | a single-step travel over a vector list reaches a square exactly when one vector leads there and the square is not the mover's own |
| TravelMaps.PawnTargets | logic.cpp:286-350 | a pawn's raw map marks exactly the squares it reaches by a forward step, a double step from its start row, a capture or an en-passant capture |
| TravelMaps.PawnReachesShape | logic.cpp:286-350 | a square a pawn reaches lies one row forward, or two rows straight ahead |
| Rules.FindKingBelow | logic.cpp:544-560 | the scan returns the last king of the player below the bound, or (-1, -1) when there is none |
| Rules.FindKing | logic.cpp:544-560 | the reported square holds the player's king, no later square holds one, and (-1, -1) means no king |
| Rules.SwapPieces | logic.cpp:666-683 | the swap exchanges owner, piece and touched of the two squares and changes nothing else |
| Rules.SwapTwice | logic.cpp:469-474 | swapping the same two squares twice restores the board |
| Rules.PieceMap | logic.cpp:267-482 | the travel map of a piece is 0/1 |
| Rules.CheckFilterAt | logic.cpp:463-479 | one cell of the check filter: left alone before the start, cleared from there on when marked and its simulated swap leaves the king in check |
| Rules.CheckFilterMeaning | logic.cpp:463-479 | the check filter zeroes exactly the marked cells whose simulated swap leaves the king in check |
| Rules.SafeMapMeaning | logic.cpp:436-454 | a king loses exactly the squares the opponent attacks when attacked squares are subtracted |
| Rules.CheckedMapMeaning | logic.cpp:456-481 | with the king in check and filtering on, a cell survives exactly when its swap leaves the king out of check |
| Rules.PieceMapMeaning | logic.cpp:267-482 | a square the player cannot select gets the empty map; otherwise a cell is marked exactly when it is a candidate, not attacked if a king's attacked squares are subtracted, and escapes check when filtering against check |
| Rules.PieceMapWithinCandidates | logic.cpp:276-434 | every marked cell of a travel map is a candidate of a selectable square |
| Rules.KingNeedsIncludeKing | logic.cpp:398-420 | a king's map is empty unless kings are included |
| Rules.MovesEscapeCheck | logic.cpp:463-479 | with the king in check, every allowed move leaves the king out of check after the simulated swap |
| Rules.PawnMoveShape | logic.cpp:286-350 | a pawn's allowed move goes one row forward, or two rows straight ahead |
| Rules.GlobalMap | logic.cpp:484-509 | every cell of the global map is either 0 or 1 |
| Rules.GlobalSumStep | logic.cpp:494-507 | one step of the global sum: a cell is positive exactly when the current square's piece covers it or the rest of the sum is positive there |
| Rules.GlobalSumCell | logic.cpp:484-509 | a cell of the partial global sum is positive exactly when a piece from that square onwards covers it |
| Rules.GlobalMapMeaning | logic.cpp:484-509 | a cell of the global map is marked exactly when some square's travel map marks it |
| Rules.AttackMap | logic.cpp:570 | the attack map is 0/1 |
| Rules.AttackCovers | logic.cpp:496-506 | with the attack flags, a square's travel map marks a cell exactly when that piece threatens it |
| Rules.AttackMapMeaning | logic.cpp:484-509 | a cell of the attack map is marked exactly when some piece of the player threatens it |
| Rules.ThreatSkipsOwnPieces | logic.cpp:529-532 | no piece threatens a square its own side stands on |
| Rules.AttackMapSkipsOwnPieces | logic.cpp:436-454 | a player's attack map never marks a square one of the player's own pieces stands on, so a king may capture a defended piece |
| Rules.KingInCheckMeaning | logic.cpp:562-583 | a player is in check exactly when they have a king and some opponent piece threatens the king's square |
| Rules.KingMoves | logic.cpp:607-608 | the king's legal-move map is 0/1 |
| Rules.GlobalMapAny | logic.cpp:484-509 | the global map marks some cell exactly when some piece's map marks one |
| Rules.PlayerCanMoveMeaning | logic.cpp:602-621 | a player can move exactly when some non-king piece's filtered map marks a square or the king's legal-move map does |
| Rules.GameEndExclusive | logic.cpp:623-648 | checkmate and stalemate never hold together, one holds exactly when the player cannot move, and a player without a king is never checkmated |
| Castling.QueensideNeedsColumnOne | logic.cpp:224-233 | with the king on column 4, a queenside castling right needs column 1 of the home row empty and not attacked |
| Castling.GroundClear | logic.cpp:228-233 | the loop between king and rook finds the ground clear exactly when each square between is empty and not attacked |
| Castling.UpdateCastling | logic.cpp:175-256 | only castling flags change, they lie on the player's home row at columns 2 and 6, and none is set for Nobody or a king in check |
| Castling.RookCastlesMeaning | logic.cpp:206-252 | the loop's verdict for one rook equals the quantified condition on rook and ground |
| Castling.RookLoopFlag | logic.cpp:206-252 | on a board without castling flags, the rook loop (through `SetFlags`) flags a rook's castling square exactly when the rook is ready and the ground to the king is empty and not attacked |
| Castling.EligibleFlagMeaning | logic.cpp:175-256 | when the early returns pass, a castling square is flagged exactly when the castling right holds for its rook |
| Castling.IneligibleFlagMeaning | logic.cpp:175-201 | when an early return is taken, no castling square is flagged and the castling right does not hold |
| Castling.CastlingFlagMeaning | logic.cpp:175-256 | the castling square of either rook is flagged exactly when the castling right holds for that rook |
| Castling.CastlingMeaning | logic.cpp:175-256 | the queenside and kingside flags are set exactly when the castling right holds for the rook on column 0 or 7 |
| Castling.UpdateCastlingIgnoresFlags | logic.cpp:175-180 | boards that differ only in their castling flags get the same update: the flags wiped first by `ClearCastling` have no influence on the result |
| StartPosition.BackRow | logic.cpp:51 | `(o - 1) * 7` is row 0 for Black and row 7 for White |
| StartPosition.PawnRow | logic.cpp:56 | `(o - 1) * 7 + 1 - (o - 1) * 2` is row 1 for Black and row 6 for White |
| StartPosition.PlacedTwice | logic.cpp:36-62 | both placing passes turn a blank square into its start square |
| StartPosition.StartBoardAt | logic.cpp:21-62 | each square of the laid-out board is its start square, whatever the board was before |
| Logic.Restart | logic.cpp:14-67 | White to move, no promotion pending at (0, 0), and every square is its start square apart from the castling flag |
| Logic.NoCastlingRightBehindPieces | logic.cpp:206-252 | with White's king on (4, 7) and White pieces on (1, 7) and (5, 7), White may castle on neither side |
| Logic.HomeRowIsBackRow | logic.cpp:187-191 | the row castling is checked on is the row where the restart puts the player's back rank, with the king on column 4 and rooks on columns 0 and 7 |
| Logic.RestartNoCastling | logic.cpp:64 | after a restart no castling flag is set |
| Logic.RestartLayout | logic.cpp:14-62 | the start position row by row: back ranks, pawns, empty middle rows touched, no flags |
| Logic.Relocate | logic.cpp:697-701 | the mover goes to the destination, the source is emptied and touched, and nothing else changes |
| Logic.CastleRook | logic.cpp:703-720 | moving the castling rook leaves every castling flag as it was |
| Logic.CaptureEnPassant | logic.cpp:722-737 | the en-passant capture, guarded by the program's own on-board test of the captured square, leaves every castling flag as it was |
| Logic.MarkPassedOver | logic.cpp:746-762 | marking the passed-over square keeps castling flags and leaves at most one en-passant flag |
| Logic.MovedBoard | logic.cpp:697-762 | a completed move keeps castling flags and leaves at most one en-passant flag |
| Logic.Move | logic.cpp:685-784 | a move succeeds exactly when the destination is marked in the mover's legal-move map; a failed move changes nothing; the turn and castling flags are kept; promotion is only ever requested at the destination; at most one en-passant flag remains |
| Logic.MoveMeaning | logic.cpp:689-695 | a move succeeds exactly when the destination is a candidate, a king does not step onto an attacked square, and a king in check escapes after the swap |
| Logic.MoveTargetsOther | logic.cpp:689-695 | apart from a king castling, a successful move ends on a square the mover does not own, never its own square |
| Logic.MoveInPlace | logic.cpp:697-701 | a successful move onto its own square leaves that square empty |
| Logic.MoveFrame | logic.cpp:685-784 | squares other than source, destination, rook squares and captured square change only their en-passant flag |
| Logic.MovedBoardFrame | logic.cpp:697-762 | the moved board changes only the en-passant flag outside the source, destination, rook squares and captured square |
| Logic.RookOnUntouchedCorner | logic.cpp:697-701 | a rook that moves onto an untouched corner of its own home row arrives untouched, so it counts as a rook ready to castle |
| Logic.MoveOrdinary | logic.cpp:697-701 | a non-pawn, non-castling move puts the piece on the destination, empties and touches the source, and requests no promotion |
| Logic.PawnSteps | logic.cpp:722-762 | a pawn of the side to move moves one row forward or two straight ahead, and the board is the relocation with capture and en-passant update |
| Logic.PawnCaptureSquares | logic.cpp:697-737 | after relocation and en-passant capture, the pawn stands on the destination, the source is empty and touched, and a flagged destination empties the square behind |
| Logic.MarkPassedOverElsewhere | logic.cpp:746-762 | marking the passed-over square changes no other square |
| Logic.PawnBoardSquares | logic.cpp:697-762 | the pawn-move board has the pawn on the destination, the source empty and touched, no en-passant flag on either, and a flagged destination empties the square behind |
| Logic.MovePawn | logic.cpp:722-737 | a pawn move lands the pawn, empties the source, and on an en-passant square removes the pawn behind |
| Logic.PawnBoardEnPassant | logic.cpp:739-762 | on the pawn-move board the only en-passant flag is the square a two-row move passed over |
| Logic.MovePawnEnPassant | logic.cpp:746-762 | after a pawn move, a square is en-passant flagged exactly when the pawn advanced two rows and the square is the one it passed over: `ClearEnPassant` leaves no older flag behind |
| Logic.MovePromotion | logic.cpp:764-778 | promotion is requested at the destination exactly when the pawn reaches its last row |
| Logic.CastleBoardSquares | logic.cpp:697-720 | a king moving onto a castling flag brings the corner rook next to it, and no capture or en-passant mark applies |
| Logic.MoveCastles | logic.cpp:703-720 | a castling king lands, the rook jumps from its corner to the other side of the king, and no en-passant flag remains |
| Logic.SatisfyPromotionRequest | logic.cpp:594-600 | the requested square gets the chosen piece, nothing else changes, and the request is cleared to (-1, -1) |
| Logic.PromotionCompletes | logic.cpp:764-778 | a pawn move to the last row makes `PromotionRequested` true and `QueryPromotionLocation` report the destination, and satisfying the request leaves the player's chosen piece there with no request pending |
| Logic.ChangeTurn | logic.cpp:660-664 | the turn passes to the opponent and only castling flags change |
| Logic.ChangeTurnCastling | logic.cpp:660-664 | after a turn change the flags are exactly the new player's castling rights |
| Logic.ChangeTurnTwice | logic.cpp:650-664 | two turn changes restore Black or White, and any other turn becomes Nobody |
| Logic.SetPieceDebug | logic.cpp:794-797 | only the piece of one square and the castling flags change, and the flags are recomputed for the player to move |
| Logic.SetOwnerDebug | logic.cpp:799-802 | only the owner of one square and the castling flags change, and the flags are recomputed for the player to move |
| Logic.SetPieceDebugCastling | logic.cpp:794-797 | after setting a piece, the castling flags are exactly the castling rights of the player to move on the edited board |
| Logic.SetOwnerDebugCastling | logic.cpp:799-802 | after setting an owner, the castling flags are exactly the castling rights of the player to move on the edited board |
| SaveFormat.ToByteInverse | logic.cpp:82 | a value 0..255 survives the conversion to a byte |
| SaveFormat.DecodeSquare | logic.cpp:158-161 | decoding yields a two-bit owner and three-bit piece and keeps the castling flag |
| SaveFormat.Save | logic.cpp:69-104 | the buffer is 69 bytes: header "ALD1", turn, and each square's owner, piece, touched and en-passant bits at offset 5 + 8y + x |
| SaveFormat.ReadBuffer | logic.cpp:126-139 | the read buffer is the file's first 69 bytes, zero-padded |
| SaveFormat.GoodHeader | logic.cpp:141-148 | the header is good exactly when the first four bytes are "ALD1" |
| SaveFormat.Load | logic.cpp:122-173 | loading succeeds exactly when the file has at least 68 bytes and the header is good; a failed load changes nothing; a successful one sets the turn from byte 4, clears the promotion, decodes every square, and its board is the decoded board with the castling flags recomputed for the loaded turn |
| SaveFormat.DecodeEncodeSquare | logic.cpp:96-104 | decoding an encoded square gives it back, apart from the castling flag |
| SaveFormat.LoadFullBuffer | logic.cpp:122-173 | a full buffer with the header loads: turn from byte 4, squares decoded, castling recomputed, no promotion pending |
| SaveFormat.DecodeSavedBoard | logic.cpp:155-163 | decoding (`DecodeBoard`) a saved board gives back every square apart from the castling flags |
| SaveFormat.SaveLoadRoundTrip | logic.cpp:69-173 | loading a saved game succeeds and restores board and turn, with castling recomputed and no promotion pending |
| SaveFormat.LoadAcceptsShortFile | logic.cpp:136 | a 68-byte file with a good header loads, and its missing last square reads as empty and unowned |
| Controller.SquareOfOffset | render.cpp:806-807 | an offset inside the board falls in the column it divides to |
| Controller.GetMouseSquare | render.cpp:781-811 | (-1, -1) exactly when the pixel is outside the board; otherwise an on-board square whose pixel rectangle contains the point |
| Controller.TranslatePromotionIconToPiece | render.cpp:886-900 | icons 1 to 4 give knight, bishop, rook and queen, and anything else gives no piece |
| Controller.Initial | render.cpp:10 | the initial interface state is valid, with no game over, no promotion mode and no selection |
| Controller.AfterTurnTasks | render.cpp:855-884 | the turn changes, and the game is over exactly when it was over or the new player can no longer move |
| Controller.ToolbarClick | render.cpp:551-590 | every toolbar click keeps the state valid and drops the selection, and only the save icon outside promotion and game over hands out the save buffer |
| Controller.PromotionClick | render.cpp:600-606 | a click in promotion mode keeps the state valid |
| Controller.BoardClick | render.cpp:608-635 | a board click keeps the state valid |
| Controller.HandleMouseClick | render.cpp:517-654 | every click keeps the interface state valid, and saving happens only on the save icon outside promotion and game over, writing the game's save buffer |
| Controller.ClickSelects | render.cpp:626-635 | a board click without a selection selects the square exactly when the game is not over and the side to move may select it |
| Controller.ClickSelectedDeselects | render.cpp:608-611 | clicking the selected square again only drops the selection |
| Controller.ClickMoves | render.cpp:612-624 | clicking another square moves the selected piece if the move is legal, then enters promotion mode or passes the turn |
| Controller.ClickPromotes | render.cpp:600-606 | in promotion mode, a click on a promotion icon sets the piece and passes the turn, and any other click changes nothing |
| Controller.RestartClickResets | render.cpp:551-560 | a restart click restarts the game and turns game over, promotion mode and selection off |
| Controller.LoadClickResets | render.cpp:575-590 | a successful load installs the loaded game and turns both modes off; a failed load only drops the selection |

## Left out

- Rendering, textures, fonts, labels, hover highlighting, the spotlight map, the
  language switch, the information dialog and quitting are left out. They only
  affect what is drawn. The spotlight, language and information buttons are
  modelled only as dropping the selection.
- `GetMouseIconToolbar`, `GetMouseIconPromotion` and `ComputeWindowSize` are
  left out: icon hit-testing depends on the toolbar layout and the window. The
  click handler takes the clicked toolbar icon and promotion icon as inputs.
- File I/O (`SDL_GetPrefPath`, `std::ofstream`, `std::ifstream`) is left out.
  `Save` returns the buffer it would write. `Load` takes the file's bytes as a
  parameter, and a missing file is the empty sequence. A failed write only
  changes a label, so it is not modelled.
- Event polling (`event.cpp`), `main.cpp` and text handling (`text.cpp`) are
  left out: they are outside the game logic.
- `GetPiece`, `GetOwner` and `GetTurn` are plain field reads: `Types.At` and
  `Game.turn`.
- Controller.GetMouseSquare: the scale is any integer of at least 1. The
  program derives it from the display's DPI with floating point, which is left
  out.
- Logic.SatisfyPromotionRequest: requires an on-board promotion location. The
  program writes through the stored location unchecked, and is only ever called
  with a pending request, whose location is the destination of the move.
- Logic.Move: requires both squares on the board. The program indexes the board
  with them unchecked, and its only caller passes on-board squares.
- Rules.KingMoves: for a player without a king the map is empty. The program
  reads `Board[-1][-1]` there, which is undefined behaviour.
- Logic.MarkPassedOver: the program writes the passed-over square without a
  guard. The model guards the write. `Rules.PawnMoveShape` shows that any
  allowed move of a Black or White pawn goes one row forward or two rows
  straight ahead, so a two-row move passes over a square on the board.
  `Logic.MovePawnEnPassant` shows the same for a pawn of the side to move.
- Integer widths: the 32-bit `int` fields are unbounded integers. Only the
  8-bit save buffer wraps (`SaveFormat.ToByte`). Nothing in the logic comes
  near 32-bit overflow.
