/**
 The annotation step run on every engine analysis (`updateArrows`): it clears
 the highlights and arrows and rebuilds them from the last played move and the
 engine's best move.
 */
module Annotate {
  import opened Wrappers
  import opened Squares
  import opened Coverage
  import opened Arrows

  const PlayedColor: string := "rgba(76, 175, 80, 0.8)"
  const BestColor: string := "rgba(255, 152, 0, 0.8)"
  const DerivedColor: string := "rgba(156, 39, 176, 0.6)"

  /** The CSS classes `highlight-attacked`, `highlight-protected` and
      `highlight-best-attacked`. */
  datatype Category = Attacked | Protected | BestAttacked

  /** A square carrying one highlight class; a square can carry several. */
  datatype Highlight = Highlight(square: Square, category: Category)

  /** A move of the game history as the chess library reports it; `piece` is
      the library's piece letter. */
  datatype PlayedMove = PlayedMove(from: Square, to: Square, piece: string, color: Color)

  /** An engine move: its origin and destination square. */
  datatype EngineMove = EngineMove(from: Square, to: Square)

  /** What the page shows: whether the board widget (and with it the arrow
      overlay) has been created, the overlay, and the highlighted squares. */
  datatype View = View(hasBoard: bool, overlay: Overlay, highlights: set<Highlight>)

  /** The game state the annotation reads: the board snapshot, the side to move,
      the move history and the index of the move shown (-1 before the first). */
  datatype Game = Game(board: Board, turn: Color, moves: seq<PlayedMove>, current: int)

  /** Navigation keeps the index between -1 and the last move. */
  predicate ValidGame(gm: Game) {
    -1 <= gm.current < |gm.moves|
  }

  /** The engine's `bestMove` string in UCI form ("e2e4", "e7e8q"): the first two
      characters name the origin, the next two the destination. */
  function ParseUci(t: string): (r: Option<EngineMove>)
    ensures r.Some? ==> |t| >= 4 && Name(r.value.from) == t[..2] && Name(r.value.to) == t[2..4]
  {
    if |t| < 4 then None
    else
      match (Parse(t[..2]), Parse(t[2..4]))
      case (Some(from), Some(to)) =>
        NameParse(t[..2]);
        NameParse(t[2..4]);
        Some(EngineMove(from, to))
      case _ => None
  }

  /** Writing a move in UCI form, with any promotion suffix, and reading it back
      gives the move. */
  lemma UciRoundTrip(m: EngineMove, promotion: string)
    ensures ParseUci(Name(m.from) + Name(m.to) + promotion) == Some(m)
  {
    var t := Name(m.from) + Name(m.to) + promotion;
    assert t[..2] == Name(m.from);
    assert t[2..4] == Name(m.to);
    ParseName(m.from);
    ParseName(m.to);
  }

  /** `highlightSquare(square, class)` for each coordinate in turn. A coordinate
      off the board has no square element, so it gets no highlight. */
  function HighlightAll(h: set<Highlight>, cs: seq<Coord>, category: Category): (r: set<Highlight>)
    ensures forall x :: x in r <==> x in h || (x.category == category && x.square in cs)
  {
    h + set s: Square | s in cs :: Highlight(s, category)
  }

  /** The purple arrows: one from `to` to each protected square, in order. */
  function DerivedArrows(o: Overlay, to: Square, ps: seq<Square>): (r: Overlay)
    ensures |r.arrows| == |o.arrows| + |ps|
    ensures r.arrows[..|o.arrows|] == o.arrows
    ensures forall i :: 0 <= i < |ps| ==> r.arrows[|o.arrows| + i] == Arrow(to, ps[i], DerivedColor)
    ensures r.temp == o.temp && r.drag == o.drag
    decreases |ps|
  {
    if |ps| == 0 then o
    else
      var o' := AddArrow(o, to, ps[0], DerivedColor);
      var r := DerivedArrows(o', to, ps[1..]);
      r
  }

  /** `clearHighlights()`: no square keeps a highlight class, and the overlay,
      when there is one, loses every arrow; the drag is left as it was. */
  function ClearHighlights(v: View): (r: View)
    ensures r.highlights == {}
    ensures r.hasBoard == v.hasBoard && r.overlay.drag == v.overlay.drag
    ensures v.hasBoard ==> r.overlay.arrows == [] && r.overlay.temp == None
    ensures !v.hasBoard ==> r.overlay == v.overlay
  {
    View(v.hasBoard, if v.hasBoard then ClearArrows(v.overlay) else v.overlay, {})
  }

  /** The part of `updateArrows` for the move shown: the green arrow, then the
      attacked and protected highlights of the piece now on its destination. */
  function AnnotatePlayed(v: View, m: PlayedMove, b: Board): (r: View)
    ensures r.hasBoard == v.hasBoard && r.overlay.temp == v.overlay.temp && r.overlay.drag == v.overlay.drag
    ensures r.overlay.arrows == v.overlay.arrows + [Arrow(m.from, m.to, PlayedColor)]
    ensures forall x :: x in r.highlights <==>
      x in v.highlights || (x.category == Attacked && x.square in AttackedSquares(b, m.to, m.piece, m.color))
  {
    var attacked := AttackedSquares(b, m.to, m.piece, m.color);
    var protected := ProtectedSquares(b, m.to, m.piece, m.color);
    View(v.hasBoard, AddArrow(v.overlay, m.from, m.to, PlayedColor),
         HighlightAll(HighlightAll(v.highlights, attacked, Attacked), protected, Protected))
  }

  /** The part of `updateArrows` for the engine's move: the orange arrow and, when
      a piece stands on its origin, that piece's attacked squares from the
      destination, and a purple arrow to each square it would protect. */
  function AnnotateBest(v: View, m: EngineMove, b: Board, turn: Color): (r: View)
    ensures r.hasBoard == v.hasBoard && r.overlay.temp == v.overlay.temp && r.overlay.drag == v.overlay.drag
    ensures r.overlay.arrows == v.overlay.arrows + [Arrow(m.from, m.to, BestColor)]
    ensures forall x :: x in r.highlights <==>
      || x in v.highlights
      || (x.category == BestAttacked && At(b, m.from).Some? && x.square in Cover(b, m.to, At(b, m.from).value.kind, turn))
  {
    var o := AddArrow(v.overlay, m.from, m.to, BestColor);
    match At(b, m.from)
    case None => v.(overlay := o)
    case Some(piece) =>
      var letter := [Letter(piece.kind)];
      LetterParses(piece.kind);
      View(v.hasBoard,
           DerivedArrows(o, m.to, ProtectedSquares(b, m.to, letter, turn)),
           HighlightAll(v.highlights, AttackedSquares(b, m.to, letter, turn), BestAttacked))
  }

  /** The chess library's own piece letters name the kinds they stand for. */
  lemma LetterParses(k: Kind)
    ensures ParseKind([Letter(k)]) == Some(k)
  {
  }

  /** `updateArrows(data)`. Without a board nothing happens. Otherwise the
      overlay is rebuilt from nothing: a green arrow for the move shown (when
      there is one) comes first, then an orange arrow for the engine's move.
      Since the protected squares are always empty, no purple arrow and no
      protected highlight ever appears. The highlights are exactly the attacked
      squares of the piece that made the move shown, and those of the piece on
      the engine move's origin as if it stood on the destination. A drag in
      progress continues, but its temporary arrow is gone. */
  function UpdateArrows(v: View, gm: Game, best: Option<EngineMove>): (r: View)
    requires ValidGame(gm)
    ensures !v.hasBoard ==> r == v
    ensures v.hasBoard ==> r.hasBoard && r.overlay.drag == v.overlay.drag && r.overlay.temp == None
    ensures v.hasBoard ==>
      |r.overlay.arrows| == (if gm.current >= 0 then 1 else 0) + (if best.Some? then 1 else 0)
    ensures v.hasBoard && gm.current >= 0 ==>
      r.overlay.arrows[0] == Arrow(gm.moves[gm.current].from, gm.moves[gm.current].to, PlayedColor)
    ensures v.hasBoard && best.Some? ==>
      r.overlay.arrows[|r.overlay.arrows| - 1] == Arrow(best.value.from, best.value.to, BestColor)
    ensures v.hasBoard ==> forall x :: x in r.highlights <==>
      || (x.category == Attacked && gm.current >= 0
          && x.square in AttackedSquares(gm.board, gm.moves[gm.current].to, gm.moves[gm.current].piece, gm.moves[gm.current].color))
      || (x.category == BestAttacked && best.Some? && At(gm.board, best.value.from).Some?
          && x.square in Cover(gm.board, best.value.to, At(gm.board, best.value.from).value.kind, gm.turn))
  {
    if !v.hasBoard then v
    else
      var cleared := ClearHighlights(v);
      var played := if gm.current >= 0 then AnnotatePlayed(cleared, gm.moves[gm.current], gm.board) else cleared;
      match best
      case None => played
      case Some(m) => AnnotateBest(played, m, gm.board, gm.turn)
  }

  /** The result of `updateArrows` depends on the view only through whether
      there is a board and through the drag. */
  lemma UpdateArrowsForgets(v: View, w: View, gm: Game, best: Option<EngineMove>)
    requires ValidGame(gm)
    requires v.hasBoard && w.hasBoard && v.overlay.drag == w.overlay.drag
    ensures UpdateArrows(v, gm, best) == UpdateArrows(w, gm, best)
  {
    var r, s := UpdateArrows(v, gm, best), UpdateArrows(w, gm, best);
    assert r.overlay.arrows == s.overlay.arrows;
    assert r.highlights == s.highlights;
  }

  /** Running `updateArrows` twice on the same data shows what running it once does. */
  lemma UpdateArrowsIdempotent(v: View, gm: Game, best: Option<EngineMove>)
    requires ValidGame(gm)
    ensures UpdateArrows(UpdateArrows(v, gm, best), gm, best) == UpdateArrows(v, gm, best)
  {
    if v.hasBoard {
      UpdateArrowsForgets(UpdateArrows(v, gm, best), v, gm, best);
    }
  }

  /** `updateArrows` leaves a valid overlay: no temporary arrow without a drag. */
  lemma UpdateArrowsValid(v: View, gm: Game, best: Option<EngineMove>)
    requires ValidGame(gm) && Valid(v.overlay)
    ensures Valid(UpdateArrows(v, gm, best).overlay)
  {
  }
}
