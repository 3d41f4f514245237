# Board influence and arrow overlay of chessAnalyzer, in Dafny

This project models the part of the chessAnalyzer web front end that works out
which squares a piece covers and draws annotations over the board. It has two
parts.

- The influence calculator: `getAttackedSquares` and `getProtectedSquares` in
  `static/js/app.js`.
- The annotation overlay. This is `updateArrows` with `highlightSquare` and
  `clearHighlights` in `static/js/app.js`. It also includes the
  `ChessboardArrows` class in `static/js/chessboard-arrows.js`: the
  pixel-to-square mapping, the arrow list, and the mousedown / mousemove /
  mouseup drag state machine.

Modules:

- `Wrappers` (`wrappers.dfy`): `Option`.
- `Squares` (`squares.dfy`): file/rank coordinates and the 64 squares as a
  subset type. Also algebraic names ("e4") with their parser, colours, piece
  kinds, and the board snapshot that the chess rules library hands out
  (`game.get`). A coordinate off the board holds no piece, as `game.get("d9")`
  returns null.
- `Coverage` (`coverage.dfy`): the calculator.
  - The piece-letter switch.
  - The pawn diagonals.
  - The knight and king offset tables.
  - The bishop, rook and queen rays.
  - The protected-square filter.
- `Arrows` (`arrows.dfy`): the overlay state and the mouse state machine.
  Pixel positions are exact reals. The drag is `Idle | Dragging(start)`,
  because the source sets and clears `drawing` and `startSquare` together.
- `Annotate` (`annotate.dfy`): `updateArrows` over a view holding three
  things:
  - whether the board widget exists;
  - the overlay;
  - the set of highlighted squares.

  It also reads a game holding the board snapshot, the side to move, the move
  history and the current index.
- `CoverageExamples`, `LineExamples`, `DragExamples` (`examples.dfy`): worked
  positions and mouse sequences.

Some behaviours of the code are easy to miss. The model keeps each of them.

- **Pawn diagonals.** Pawn diagonals pass through `canAttack` (app.js:45, 49),
  so a diagonal holding a friendly piece is dropped.
- **Pawn rank is never bounded.** Only the file is checked (app.js:43, 47). The
  rank `rank + forward` is used as it is (app.js:44, 48). So a white pawn on the
  eighth rank yields "d9"/"f9", and a black pawn on the first rank yields
  "d0"/"f0". `game.get` finds nothing on those coordinates, so `canAttack`
  passes them and they are returned. Highlighting them has no effect.
- **Protected squares are always empty.** `getProtectedSquares` filters the
  result of `getAttackedSquares` with `isProtected` (app.js:143-144).
  `isProtected` keeps only squares holding a friendly piece. `canAttack` has
  already dropped every such square, so the result is always empty. As a
  consequence, `updateArrows` never draws a purple arrow and never sets the
  `highlight-protected` class.
- **Mouse moving off the board.** During a drag, every mouse move removes the
  temporary arrow first (chessboard-arrows.js:93-94). It draws a new one only
  over a square other than the start (chessboard-arrows.js:96-100). A move off
  the board therefore leaves no temporary arrow.
- **`from` is never checked.** The code never checks that `from` is a square.
  Every caller passes one, and the model's `from` is a `Square`.
- **The wrapper is measured on every event.** `getSquare` reads the bounding
  rectangle afresh each time it is called (chessboard-arrows.js:19). So each
  modelled mouse event carries the rectangle measured when it was handled.

## Model

| member | source | states |
|---|---|---|
| Squares.At | static/js/app.js:31-33 | `game.get` gives a piece only for an occupied on-board square, and then the piece standing there; every occupied on-board square gives its piece |
| Squares.ParseName | static/js/app.js:58-65 | Turning a square into its name (file letter, rank digit) and reading that name back gives the same square |
| Squares.NameParse | static/js/app.js:58-59 | Every well-formed two-character name is the name of the square it reads as, so squares and names can be swapped for each other |
| Squares.NameInjective | static/js/chessboard-arrows.js:96 | Two squares with equal names are the same square, so comparing names (`!==`) compares squares |
| Coverage.Lower | static/js/app.js:36 | The lower case of a character is a lower-case ASCII letter only when the character is that letter, its capital, or the Kelvin sign for 'k' |
| Coverage.ParseKind | static/js/app.js:36 | A parsed piece type is one character whose lower case is the kind's letter; a one-character type whose lower case is some kind's letter parses to that kind |
| Coverage.ParseKindExactly | static/js/app.js:36 | A piece type picks a branch of the switch exactly when it is one character whose lower case is that kind's letter: the lower-case letter, the upper-case letter, or for the king also the Kelvin sign |
| Coverage.UnknownLetter | static/js/app.js:36-126 | Any other string, including the empty one, matches no case, so nothing is covered |
| Coverage.CanAttack | static/js/app.js:31-34 | A square can be attacked exactly when it does not hold a friendly piece, which is exactly when `isProtected` (app.js:137-140) fails; an empty or off-board coordinate always passes |
| Coverage.PawnCover | static/js/app.js:37-51 | A coordinate is covered by a pawn exactly when it meets all of these: it is one rank forward for its colour; it is one file to either side; its file is on the board; it passes `canAttack` |
| Coverage.PawnOnBoard | static/js/app.js:43-50 | A pawn's covered coordinates are on the board exactly when the pawn is not on its last rank, and they are never the pawn's own square |
| Coverage.Jumps | static/js/app.js:61-68 | The knight and king loops only yield on-board squares that pass `canAttack` and differ from `from`, at most one per offset |
| Coverage.JumpsExactly | static/js/app.js:61-68 | The offset loop covers a coordinate exactly when some offset leads there, the coordinate is on the board, and it passes `canAttack` |
| Coverage.KnightExactly | static/js/app.js:53-69 | A knight covers exactly the on-board squares one L-shaped leap away that are empty or hold an enemy piece |
| Coverage.KingExactly | static/js/app.js:116-125 | A king covers exactly the on-board neighbouring squares that are empty or hold an enemy piece |
| Coverage.Ray | static/js/app.js:75-82 | A ray only yields on-board squares that pass `canAttack`, each strictly further along the ray than the square it starts from |
| Coverage.RayExactly | static/js/app.js:71-84 | A ray covers a coordinate exactly when four things hold: it lies k ≥ 1 steps along the ray; it is on the board; every square before it is empty; it is empty or holds an enemy piece |
| Coverage.RayStopsAtBlocker | static/js/app.js:78-81 | Nothing beyond the first occupied square of a ray is covered, and that blocker is covered exactly when it holds an enemy piece |
| Coverage.Slide | static/js/app.js:72-83 | The rays of a sliding piece never yield its own square, an off-board square, or a friendly square; `SlideMember`, `SlideStopsAtBlocker` and `SlideReaches` give its full membership |
| Coverage.SlideMember | static/js/app.js:72-83 | A coordinate is covered by a sliding piece exactly when one of its directions' rays covers it |
| Coverage.AlongMeet | static/js/app.js:72-77 | Two unit directions reach the same coordinate after k ≥ 1 and j ≥ 1 steps only when they are the same direction and k = j, so different rays never overlap |
| Coverage.SlideAlong | static/js/app.js:72-83 | A coordinate k ≥ 1 steps along one of a piece's directions is covered by the whole piece exactly when that direction's own ray covers it |
| Coverage.SlideStopsAtBlocker | static/js/app.js:78-81 | Along any of a piece's directions, the first occupied square is covered exactly when it holds an enemy piece, and no coordinate beyond it is covered by the piece at all |
| Coverage.SlideReaches | static/js/app.js:72-83 | A sliding piece covers a coordinate exactly when, along one of its directions, the coordinate is on the board, every square before it is empty, and it is empty or holds an enemy piece |
| Coverage.QueenIsRookPlusBishop | static/js/app.js:101-114 | The queen's list is, in order, the rook's list followed by the bishop's list; as a set it is their union |
| Coverage.CoverStopsAtBlocker | static/js/app.js:71-114 | For a bishop, rook or queen, along each of its directions the first occupied square is covered exactly when it holds an enemy piece, and nothing beyond it is covered |
| Coverage.SlidingExactly | static/js/app.js:71-114 | A bishop, rook or queen covers a coordinate exactly when one of its own directions reaches it: on the board, every earlier square empty, and itself empty or an enemy |
| Coverage.Cover | static/js/app.js:36-126 | Every covered square passes `canAttack` and differs from `from`, and every kind but the pawn stays on the board |
| Coverage.AttackedSquares | static/js/app.js:26-129 | An unrecognised piece type gives nothing. Otherwise the result never contains a friendly square or `from`, and it contains only on-board squares unless the piece is a pawn |
| Coverage.KeepFriends | static/js/app.js:137-144 | The filter keeps exactly the listed squares that hold a friendly piece, and keeps nothing when none does |
| Coverage.ProtectedSquares | static/js/app.js:132-145 | As written, the protected squares are empty for every board, piece and colour |
| Arrows.GetSquare | static/js/chessboard-arrows.js:18-27 | A found square's pixel cell contains the position; a zero-width wrapper finds no square |
| Arrows.GetSquareIsCell | static/js/chessboard-arrows.js:18-27 | A client position maps to a square exactly when it lies in that square's pixel cell, with rank 8 drawn at the top |
| Arrows.GetSquareOffBoard | static/js/chessboard-arrows.js:18-27 | A client position maps to no square exactly when it lies outside the wrapper's square `[left, left+width) x [top, top+width)` |
| Arrows.SquareCenter | static/js/chessboard-arrows.js:29-37 | The computed centre lies inside that square's own pixel cell |
| Arrows.CenterRoundTrip | static/js/chessboard-arrows.js:18-37 | The centre of a square, shifted to client pixels, maps back to the same square |
| Arrows.AddArrow | static/js/chessboard-arrows.js:126-130 | The arrow list grows by one and keeps the old arrows as a prefix. The new last arrow has the given ends and colour, and the drag is untouched |
| Arrows.ClearArrows | static/js/chessboard-arrows.js:119-124 | No arrow and no temporary arrow remain, the drag is untouched, and the overlay is valid |
| Arrows.ClearArrowsIdempotent | static/js/chessboard-arrows.js:119-124 | Clearing twice is the same as clearing once |
| Arrows.MouseDown | static/js/chessboard-arrows.js:81-87 | A press over a square starts or restarts a drag there; a press off the board changes nothing |
| Arrows.MouseMove | static/js/chessboard-arrows.js:89-102 | Without a drag nothing changes. During a drag, a temporary arrow from the start square exists exactly when the mouse is over another square. Persistent arrows and the drag never change |
| Arrows.MouseUp | static/js/chessboard-arrows.js:104-117 | Without a drag nothing changes. Otherwise the drag ends with no temporary arrow, and one default-colour arrow is appended exactly when the release is over a square other than the start |
| Arrows.Step | static/js/chessboard-arrows.js:13-15 | Each event goes to its listener. A mousemove keeps the arrows and the drag, only a mouseup can add an arrow, and it adds at most one behind the existing ones |
| Arrows.Run | static/js/chessboard-arrows.js:13-15 | After a sequence of events the original arrows are a prefix, and at most one arrow has been added per mouseup |
| Arrows.StepExtends | static/js/chessboard-arrows.js:81-117 | Any one mouse event keeps the overlay valid, keeps the existing arrows as a prefix, and adds at most one user-drawn arrow |
| Arrows.RunExtends | static/js/chessboard-arrows.js:81-117 | Over any sequence of mouse events the overlay stays valid and the original arrows stay a prefix. At most one arrow is added per event, and every added arrow joins two different squares in the default colour |
| Arrows.DragBetweenCenters | static/js/chessboard-arrows.js:81-117 | Pressing on one square's centre and releasing on another's draws exactly that arrow, even if the board moved in between; releasing on the start square draws nothing; the drag ends either way |
| Annotate.ParseUci | static/js/app.js:180-181 | A parsed engine move's origin and destination are the squares named by characters 0-1 and 2-3 of the move string |
| Annotate.UciRoundTrip | static/js/app.js:180-181 | Writing a move as origin name plus destination name, with any promotion suffix, and slicing it back gives the move |
| Annotate.HighlightAll | static/js/app.js:205-210 | Highlighting a list adds the category to exactly the listed coordinates that are squares; off-board coordinates get nothing |
| Annotate.DerivedArrows | static/js/app.js:196-199 | One purple arrow from the destination to each protected square, appended in order after the existing arrows |
| Annotate.ClearHighlights | static/js/app.js:213-221 | No highlight remains. When the overlay exists it loses every arrow and the temporary arrow; the drag is kept |
| Annotate.AnnotatePlayed | static/js/app.js:155-176 | The green arrow is appended, and the highlights gain the attacked squares of the moved piece's letter from its destination |
| Annotate.AnnotateBest | static/js/app.js:179-201 | The orange arrow is appended. When a piece stands on the move's origin, the highlights gain the squares that piece would cover from the destination, for the side to move |
| Annotate.LetterParses | static/js/app.js:182-190 | The chess library's piece letter of each kind selects that kind's branch of the calculator |
| Annotate.UpdateArrows | static/js/app.js:148-202 | Without a board nothing changes. With a board the drag is kept and the temporary arrow is gone. The arrows are the green arrow of the move shown (if any) first and the orange arrow of the engine move (if any) last. The highlights are exactly the attacked squares of the piece that made the move shown, plus the squares the piece on the engine move's origin would cover from its destination. No purple arrow and no protected highlight ever appears |
| Annotate.UpdateArrowsForgets | static/js/app.js:149-152 | With a board, the result does not depend on the previous arrows, temporary arrow or highlights, only on the drag |
| Annotate.UpdateArrowsIdempotent | static/js/app.js:148-202 | Applying the same analysis twice shows the same as applying it once |
| Annotate.UpdateArrowsValid | static/js/app.js:148-202 | The overlay stays valid: no temporary arrow without a drag |
| CoverageExamples.PawnOnE4 | static/js/app.js:37-51 | A white pawn on e4 of an empty board covers d5 then f5 |
| CoverageExamples.PawnOnE4BesideOwnKnight | static/js/app.js:43-46 | With a white knight on d5, the white pawn on e4 covers only f5 |
| CoverageExamples.PawnOnE8 | static/js/app.js:38-50 | A white pawn on e8 yields the off-board coordinates d9 and f9 |
| CoverageExamples.RookOnA1ProtectsNothing | static/js/app.js:132-145 | A rook on a1 behind its own pawn on a4 protects nothing, as written |
| CoverageExamples.UnknownPiece | static/js/app.js:36-128 | An unknown or empty piece letter covers nothing |
| LineExamples.KnightOnB1 | static/js/app.js:53-69 | A knight on b1 covers exactly a3, c3 and d2 when they are empty, whatever else is on the board |
| LineExamples.BishopOnF1 | static/js/app.js:71-84 | A bishop on f1 covers g2 then h3 up the rising diagonal when those are empty, and stops at the edge |
| LineExamples.RookOnA1BehindOwnPiece | static/js/app.js:86-99 | A rook on a1 with its own piece on a2 covers nothing up the a-file |
| LineExamples.RookOnA1FacingEnemy | static/js/app.js:86-99 | A rook on a1 with an enemy piece on a2 covers a2 and nothing beyond it up the a-file |
| DragExamples.DragBackToStart | static/js/chessboard-arrows.js:81-117 | Pressing on e2, moving to e4, coming back to e2 and releasing draws nothing and ends the drag |
| DragExamples.DragE2ToE4 | static/js/chessboard-arrows.js:81-117 | Pressing on e2, moving to e4 and releasing there leaves exactly one arrow, e2 to e4 |

## Left out

- `createArrow` (chessboard-arrows.js:39-79) is left out. It builds SVG
  elements with `atan2`, `sqrt`, `cos` and `sin` to draw an arrow. An arrow is
  kept as its two squares and colour, so these shapes are not modelled.
- The constructor and `setupEventListeners` (chessboard-arrows.js:2-16) are DOM
  wiring. They stay outside the model; the model takes mouse events as a
  sequence of `Event`s, each with the rectangle measured when it is handled.
- `getSquareCenter` reads `offsetWidth` and `getSquare` reads the bounding
  rectangle's width. The model uses one width for both, which assumes no CSS
  transform on the wrapper.
- Pixel arithmetic uses exact reals. IEEE-754 rounding at cell boundaries is not
  modelled. A zero-width wrapper is modelled as finding no square, which is what
  the source's infinite or NaN divisions give.
- `board.flip()` is not modelled. The source's `getSquare` and
  `getSquareCenter` always assume white at the bottom, and so does the model.
- The chess rules library (chess.js) is not part of this model. Its position
  enters as a board snapshot (`map<Square, Piece>`). `game.turn()` and each
  history move's `from`, `to`, `piece` and `color` are parameters.
- The `board` and `arrows` globals are both set in the same ready callback
  (app.js:361-362). The model joins them into one `hasBoard` flag.
- `UpdateArrows` takes the engine move already decoded, as
  `Option<EngineMove>`. A missing or empty `bestMove` is `None`, and
  `ParseUci` decodes the UCI strings the engine sends. A non-empty `bestMove`
  whose characters do not name two squares is left out. In the source it would
  reach `addArrow` with names that are not squares.
- `updateAnalysis`, `loadPGN`, `goToMove`, `requestAnalysis`, the `onDrop`
  handler, the button and keyboard handlers, and `initWebSocket` are not
  modelled. They are page, history and network glue around the core. The model
  only assumes they keep the current move index between -1 and the last move
  (`ValidGame`).
- `main.py` and `server.py` are not part of this model. They are the analysis
  server and its engine.
