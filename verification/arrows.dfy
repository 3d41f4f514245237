/**
 The arrow overlay drawn over the board (`ChessboardArrows`): the mapping
 between mouse positions and squares, the list of persistent arrows, and the
 mousedown / mousemove / mouseup state machine with which the user draws an
 arrow. An arrow is kept as its two squares and its colour; the SVG shapes it
 is drawn with are not part of the model.
 */
module Arrows {
  import opened Wrappers
  import opened Squares

  // ---------------------------------------------------------------------------
  // Pixels and squares

  /** The wrapper's bounding rectangle in client pixels. Its width is never negative. */
  datatype Rect = Rect(left: real, top: real, width: real)

  /** A point in the wrapper's own pixel space (origin at its top-left corner). */
  datatype Point = Point(x: real, y: real)

  /** The pixel interval of one square: rank 8 is drawn at the top. */
  predicate InCell(g: Rect, s: Square, x: real, y: real)
    requires g.width > 0.0
  {
    var size := g.width / 8.0;
    && g.left + s.file as real * size <= x < g.left + (s.file + 1) as real * size
    && g.top + (7 - s.rank) as real * size <= y < g.top + (8 - s.rank) as real * size
  }

  /** `getSquare(x, y)`: the square under a client position, or None off the
      board. A zero-width rectangle makes every division infinite or NaN, so
      nothing is found. */
  function GetSquare(g: Rect, x: real, y: real): (r: Option<Square>)
    requires g.width >= 0.0
    ensures g.width == 0.0 ==> r == None
    ensures r.Some? ==> g.width > 0.0 && InCell(g, r.value, x, y)
  {
    if g.width == 0.0 then None
    else
      var size := g.width / 8.0;
      var file := ((x - g.left) / size).Floor;
      var rank := 7 - ((y - g.top) / size).Floor;
      FloorDiv(x - g.left, size, file);
      FloorDiv(y - g.top, size, 7 - rank);
      if 0 <= file < 8 && 0 <= rank < 8 then Some(Coord(file, rank)) else None
  }

  /** Multiplying by a positive size keeps strict order. */
  lemma ScaleStrict(u: real, v: real, size: real)
    requires size > 0.0
    ensures u < v <==> u * size < v * size
  {
    if u < v {
      assert (v - u) * size > 0.0;
    } else {
      assert (u - v) * size >= 0.0;
    }
  }

  /** `floor(a / size) == f` is the pixel interval `[f * size, (f + 1) * size)`. */
  lemma FloorDiv(a: real, size: real, f: int)
    requires size > 0.0
    ensures (a / size).Floor == f <==> f as real * size <= a < (f + 1) as real * size
  {
    var q := a / size;
    assert q * size == a;
    assert q.Floor as real <= q < q.Floor as real + 1.0;
    ScaleStrict(q, f as real, size);
    ScaleStrict(q, (f + 1) as real, size);
    assert q < f as real <==> a < f as real * size;
    assert q < (f + 1) as real <==> a < (f + 1) as real * size;
    if f as real <= q < (f + 1) as real {
      var fl := q.Floor;
      assert fl as real <= q < fl as real + 1.0;
      assert fl == f;
    }
  }

  /** A position is mapped to a square exactly when it lies in that square's cell. */
  lemma GetSquareIsCell(g: Rect, x: real, y: real, s: Square)
    requires g.width > 0.0
    ensures GetSquare(g, x, y) == Some(s) <==> InCell(g, s, x, y)
  {
    if InCell(g, s, x, y) {
      var size := g.width / 8.0;
      FloorDiv(x - g.left, size, s.file);
      FloorDiv(y - g.top, size, 7 - s.rank);
    }
  }

  /** A position is off the board exactly when it lies outside the wrapper's
      square `[left, left + width) x [top, top + width)`. */
  lemma GetSquareOffBoard(g: Rect, x: real, y: real)
    requires g.width > 0.0
    ensures GetSquare(g, x, y) == None <==>
      x < g.left || g.left + g.width <= x || y < g.top || g.top + g.width <= y
  {
    var size := g.width / 8.0;
    var file := ((x - g.left) / size).Floor;
    var row := ((y - g.top) / size).Floor;
    FloorDiv(x - g.left, size, file);
    FloorDiv(y - g.top, size, row);
    if 0 <= file < 8 {
      assert g.left <= x < g.left + g.width by {
        assert 0.0 <= file as real * size;
        assert (file + 1) as real * size <= 8.0 * size;
      }
    } else if file < 0 {
      assert (file + 1) as real * size <= 0.0 * size;
    } else {
      assert 8.0 * size <= file as real * size;
    }
    if 0 <= row < 8 {
      assert g.top <= y < g.top + g.width by {
        assert 0.0 <= row as real * size;
        assert (row + 1) as real * size <= 8.0 * size;
      }
    } else if row < 0 {
      assert (row + 1) as real * size <= 0.0 * size;
    } else {
      assert 8.0 * size <= row as real * size;
    }
  }

  /** `getSquareCenter(square)`: the centre of a square in the wrapper's own
      pixel space, for a wrapper `width` pixels wide. */
  function SquareCenter(s: Square, width: real): (p: Point)
    requires width > 0.0
    ensures InCell(Rect(0.0, 0.0, width), s, p.x, p.y)
  {
    var size := width / 8.0;
    Point((s.file as real + 0.5) * size, ((7 - s.rank) as real + 0.5) * size)
  }

  /** Mapping a square's centre back to client pixels and reading the square
      under it gives the square again. */
  lemma CenterRoundTrip(g: Rect, s: Square)
    requires g.width > 0.0
    ensures GetSquare(g, g.left + SquareCenter(s, g.width).x, g.top + SquareCenter(s, g.width).y) == Some(s)
  {
    var p := SquareCenter(s, g.width);
    var size := g.width / 8.0;
    assert InCell(Rect(0.0, 0.0, g.width), s, p.x, p.y);
    assert s.file as real * size <= p.x < (s.file + 1) as real * size;
    assert (7 - s.rank) as real * size <= p.y < (8 - s.rank) as real * size;
    assert InCell(g, s, g.left + p.x, g.top + p.y);
    GetSquareIsCell(g, g.left + p.x, g.top + p.y, s);
  }

  // ---------------------------------------------------------------------------
  // Arrows and the overlay state

  /** The colour of user-drawn arrows, and the default of `addArrow`. */
  const DefaultColor: string := "rgba(255, 170, 0, 0.8)"

  datatype Arrow = Arrow(from: Square, to: Square, color: string)

  /** `drawing` together with `startSquare`: the source sets and clears the two
      together, so `drawing` holds exactly when `startSquare` is not null. */
  datatype Drag = Idle | Dragging(start: Square)

  /** The overlay: the persistent arrows (`this.arrows`, each also drawn), the
      temporary arrow drawn with the `temp-arrow` class if any, and the drag. */
  datatype Overlay = Overlay(arrows: seq<Arrow>, temp: Option<Arrow>, drag: Drag)

  /** The state right after construction. */
  const Initial: Overlay := Overlay([], None, Idle)

  /** The overlay keeps a temporary arrow only while a drag is in progress. */
  predicate Valid(o: Overlay) {
    o.temp.Some? ==> o.drag.Dragging?
  }

  /** `addArrow(from, to, color)`: one arrow appended at the end. */
  function AddArrow(o: Overlay, from: Square, to: Square, color: string := DefaultColor): (r: Overlay)
    ensures |r.arrows| == |o.arrows| + 1
    ensures r.arrows[..|o.arrows|] == o.arrows
    ensures r.arrows[|o.arrows|] == Arrow(from, to, color)
    ensures r.temp == o.temp && r.drag == o.drag
  {
    o.(arrows := o.arrows + [Arrow(from, to, color)])
  }

  /** `clearArrows()`: every drawn element goes, the temporary arrow included;
      the drag is left as it was. */
  function ClearArrows(o: Overlay): (r: Overlay)
    ensures r.arrows == [] && r.temp == None
    ensures r.drag == o.drag
    ensures Valid(r)
  {
    o.(arrows := [], temp := None)
  }

  /** Clearing twice is clearing once. */
  lemma ClearArrowsIdempotent(o: Overlay)
    ensures ClearArrows(ClearArrows(o)) == ClearArrows(o)
  {
  }

  // ---------------------------------------------------------------------------
  // The mouse state machine

  /** `onMouseDown`: over a square, a drag starts (or restarts) there;
      off the board nothing changes. */
  function MouseDown(o: Overlay, g: Rect, x: real, y: real): (r: Overlay)
    requires g.width >= 0.0
    ensures GetSquare(g, x, y).Some? ==> r == o.(drag := Dragging(GetSquare(g, x, y).value))
    ensures GetSquare(g, x, y).None? ==> r == o
  {
    match GetSquare(g, x, y)
    case Some(s) => o.(drag := Dragging(s))
    case None => o
  }

  /** `onMouseMove`: without a drag nothing changes. During a drag the old
      temporary arrow goes, and a new one from the start square appears exactly
      when the mouse is over a square other than the start square. */
  function MouseMove(o: Overlay, g: Rect, x: real, y: real): (r: Overlay)
    requires g.width >= 0.0
    ensures o.drag.Idle? ==> r == o
    ensures r.arrows == o.arrows && r.drag == o.drag
    ensures o.drag.Dragging? ==>
      (r.temp.Some? <==> GetSquare(g, x, y).Some? && GetSquare(g, x, y).value != o.drag.start)
    ensures o.drag.Dragging? && r.temp.Some? ==> r.temp.value == Arrow(o.drag.start, GetSquare(g, x, y).value, DefaultColor)
  {
    match o.drag
    case Idle => o
    case Dragging(start) =>
      var current := GetSquare(g, x, y);
      if current.Some? && current.value != start then
        o.(temp := Some(Arrow(start, current.value, DefaultColor)))
      else
        o.(temp := None)
  }

  /** `onMouseUp`: without a drag nothing changes. A drag ends: the temporary
      arrow goes, and one persistent arrow from the start square is appended
      exactly when the mouse is over a square other than the start square. */
  function MouseUp(o: Overlay, g: Rect, x: real, y: real): (r: Overlay)
    requires g.width >= 0.0
    ensures o.drag.Idle? ==> r == o
    ensures o.drag.Dragging? ==> r.drag == Idle && r.temp == None
    ensures o.drag.Dragging? && GetSquare(g, x, y).Some? && GetSquare(g, x, y).value != o.drag.start ==>
      r.arrows == o.arrows + [Arrow(o.drag.start, GetSquare(g, x, y).value, DefaultColor)]
    ensures o.drag.Dragging? && !(GetSquare(g, x, y).Some? && GetSquare(g, x, y).value != o.drag.start) ==>
      r.arrows == o.arrows
  {
    match o.drag
    case Idle => o
    case Dragging(start) =>
      var end := GetSquare(g, x, y);
      var ended := o.(temp := None, drag := Idle);
      if end.Some? && end.value != start then AddArrow(ended, start, end.value) else ended
  }

  /** A mouse event at a client position. Each event carries the wrapper's
      bounding rectangle as it was measured when the event was handled, since
      `getSquare` measures it afresh every time. */
  datatype Event =
    | Down(rect: Rect, x: real, y: real)
    | Move(rect: Rect, x: real, y: real)
    | Up(rect: Rect, x: real, y: real)

  /** A measured rectangle never has a negative width. */
  predicate Measured(es: seq<Event>) {
    forall i :: 0 <= i < |es| ==> es[i].rect.width >= 0.0
  }

  /** The listener that handles an event; every event leaves the persistent
      arrows that are there in place and adds at most one. */
  function Step(o: Overlay, e: Event): (r: Overlay)
    requires e.rect.width >= 0.0
    ensures o.arrows <= r.arrows && |r.arrows| <= |o.arrows| + 1
    ensures e.Move? ==> r.arrows == o.arrows && r.drag == o.drag
    ensures !e.Up? ==> r.arrows == o.arrows
  {
    match e
    case Down(g, x, y) => MouseDown(o, g, x, y)
    case Move(g, x, y) => MouseMove(o, g, x, y)
    case Up(g, x, y) => MouseUp(o, g, x, y)
  }

  /** The overlay after a sequence of mouse events, handled in order. It keeps
      the arrows it started with as a prefix and gains at most one arrow per
      mouseup among the events. */
  function Run(o: Overlay, es: seq<Event>): (r: Overlay)
    requires Measured(es)
    ensures o.arrows <= r.arrows
    ensures |r.arrows| <= |o.arrows| + Ups(es)
    decreases |es|
  {
    if |es| == 0 then o else Run(Step(o, es[0]), es[1..])
  }

  /** The number of mouseup events in a sequence. */
  function Ups(es: seq<Event>): (n: nat)
    ensures n <= |es|
    decreases |es|
  {
    if |es| == 0 then 0 else (if es[0].Up? then 1 else 0) + Ups(es[1..])
  }

  /** A user-drawn arrow joins two different squares and has the default colour. */
  predicate DrawnByUser(a: Arrow) {
    a.from != a.to && a.color == DefaultColor
  }

  /** Every event keeps the overlay valid, and the arrow it adds, if any, is
      user-drawn. */
  lemma StepExtends(o: Overlay, e: Event)
    requires e.rect.width >= 0.0 && Valid(o)
    ensures Valid(Step(o, e))
    ensures o.arrows <= Step(o, e).arrows
    ensures |Step(o, e).arrows| <= |o.arrows| + 1
    ensures forall i :: |o.arrows| <= i < |Step(o, e).arrows| ==> DrawnByUser(Step(o, e).arrows[i])
  {
  }

  /** Over any sequence of mouse events the overlay stays valid, the arrows
      present at the start are kept as a prefix, and every arrow added is a
      user-drawn arrow between two different squares. At most one arrow is
      added per event. */
  lemma {:induction false} RunExtends(o: Overlay, es: seq<Event>)
    requires Measured(es) && Valid(o)
    ensures Valid(Run(o, es))
    ensures o.arrows <= Run(o, es).arrows
    ensures |Run(o, es).arrows| <= |o.arrows| + |es|
    ensures forall i :: |o.arrows| <= i < |Run(o, es).arrows| ==> DrawnByUser(Run(o, es).arrows[i])
    decreases |es|
  {
    if |es| > 0 {
      var o' := Step(o, es[0]);
      StepExtends(o, es[0]);
      assert Measured(es[1..]) by {
        forall i | 0 <= i < |es[1..]| ensures es[1..][i].rect.width >= 0.0 {
          assert es[1..][i] == es[i + 1];
        }
      }
      RunExtends(o', es[1..]);
      var r := Run(o', es[1..]);
      assert r == Run(o, es);
      forall i | |o.arrows| <= i < |r.arrows|
        ensures DrawnByUser(r.arrows[i])
      {
        if i < |o'.arrows| {
          assert r.arrows[i] == o'.arrows[i];
        }
      }
    }
  }

  /** The centre of a square in client pixels, where a user aims to press or release. */
  function ClientCenter(g: Rect, s: Square): (p: Point)
    requires g.width > 0.0
    ensures GetSquare(g, p.x, p.y) == Some(s)
  {
    var c := SquareCenter(s, g.width);
    CenterRoundTrip(g, s);
    Point(g.left + c.x, g.top + c.y)
  }

  /** Pressing on the centre of one square and releasing on the centre of
      another draws exactly one arrow between them, in the default colour;
      releasing where the press began draws nothing. Either way the drag is over
      and no temporary arrow is left, whatever the overlay held before. The
      board may have moved between the press (measured as `g`) and the release
      (measured as `h`). */
  lemma DragBetweenCenters(o: Overlay, g: Rect, h: Rect, s: Square, t: Square)
    requires g.width > 0.0 && h.width > 0.0
    ensures var p, q := ClientCenter(g, s), ClientCenter(h, t);
      var r := Run(o, [Down(g, p.x, p.y), Up(h, q.x, q.y)]);
      && r.drag == Idle && r.temp == None
      && r.arrows == o.arrows + (if s != t then [Arrow(s, t, DefaultColor)] else [])
  {
    var p, q := ClientCenter(g, s), ClientCenter(h, t);
    var es := [Down(g, p.x, p.y), Up(h, q.x, q.y)];
    var o1 := MouseDown(o, g, p.x, p.y);
    assert o1 == o.(drag := Dragging(s));
    assert Run(o, es) == Run(o1, es[1..]);
    assert Run(o1, es[1..]) == Run(MouseUp(o1, h, q.x, q.y), []);
  }
}
