/**
 Concrete positions and mouse sequences worked through the model.
 Coordinates are written (file, rank) from 0, so b1 is (1, 0) and e4 is (4, 3).
 */

/** The squares the examples mention, each named once. */
module NamedSquares {
  import opened Squares

  const a1: Square := Coord(0, 0)
  const a2: Square := Coord(0, 1)
  const a3: Square := Coord(0, 2)
  const a4: Square := Coord(0, 3)
  const b1: Square := Coord(1, 0)
  const c3: Square := Coord(2, 2)
  const d2: Square := Coord(3, 1)
  const d5: Square := Coord(3, 4)
  const e2: Square := Coord(4, 1)
  const e4: Square := Coord(4, 3)
  const e8: Square := Coord(4, 7)
  const f1: Square := Coord(5, 0)
  const f5: Square := Coord(5, 4)
  const g2: Square := Coord(6, 1)
  const h3: Square := Coord(7, 2)
}

module CoverageExamples {
  import opened Wrappers
  import opened Squares
  import opened Coverage
  import opened NamedSquares

  const Empty: Board := map[]

  /** A white pawn on a4. */
  const PawnOnA4: Board := map[a4 := Piece(Pawn, White)]

  /** A white knight on d5. */
  const KnightOnD5: Board := map[d5 := Piece(Knight, White)]

  /** ... and, as written, protects nothing, not even the pawn on a4. */
  lemma RookOnA1ProtectsNothing()
    ensures ProtectedSquares(PawnOnA4, a1, "R", White) == []
  {
  }

  /** A white pawn on e4 of an empty board covers d5 and f5. */
  lemma PawnOnE4()
    ensures AttackedSquares(Empty, e4, "p", White) == [d5, f5]
  {
    assert ParseKind("p") == Some(Pawn);
    assert CanAttack(Empty, White, d5) && CanAttack(Empty, White, f5);
  }

  /** A white pawn on e4 does not cover d5 when a white piece stands there. */
  lemma PawnOnE4BesideOwnKnight()
    ensures AttackedSquares(KnightOnD5, e4, "P", White) == [f5]
  {
    assert ParseKind("P") == Some(Pawn);
    assert !CanAttack(KnightOnD5, White, d5) && CanAttack(KnightOnD5, White, f5);
  }

  /** A white pawn on e8 yields the two coordinates one rank beyond the board. */
  lemma PawnOnE8()
    ensures AttackedSquares(Empty, e8, "p", White) == [Coord(3, 8), Coord(5, 8)]
  {
    assert ParseKind("p") == Some(Pawn);
    assert CanAttack(Empty, White, Coord(3, 8)) && CanAttack(Empty, White, Coord(5, 8));
  }

  /** An unknown piece letter covers nothing. */
  lemma UnknownPiece()
    ensures AttackedSquares(Empty, e4, "x", White) == []
    ensures AttackedSquares(Empty, e4, "", Black) == []
  {
  }
}

/** Knight, bishop and rook coverage on any board whose relevant squares are
    as stated, worked out one offset or one step at a time. */
module LineExamples {
  import opened Squares
  import opened Coverage
  import opened NamedSquares

  /** The squares a knight on b1 can reach are a3, c3 and d2. */
  predicate KnightTargetsFree(b: Board) {
    a3 !in b && c3 !in b && d2 !in b
  }

  /** A knight on b1 covers exactly a3, c3 and d2 when those are empty. */
  lemma KnightOnB1(b: Board, color: Color)
    requires KnightTargetsFree(b)
    ensures forall c :: c in Cover(b, b1, Knight, color) <==> c == a3 || c == c3 || c == d2
  {
    forall c ensures c in Cover(b, b1, Knight, color) <==> c == a3 || c == c3 || c == d2 {
      KnightExactly(b, b1, color, c);
    }
  }

  /** One step of a ray over an empty square. */
  lemma RayOpenStep(b: Board, color: Color, pos: Square, d: Offset, next: Square)
    requires IsDirection(d) && next == Shift(pos, d) && next !in b
    ensures Ray(b, color, pos, d) == [next] + Ray(b, color, next, d)
  {
    assert !Occupied(b, next) && CanAttack(b, color, next);
  }

  /** A ray stops at the edge of the board. */
  lemma RayEdge(b: Board, color: Color, pos: Square, d: Offset)
    requires IsDirection(d) && !OnBoard(Shift(pos, d))
    ensures Ray(b, color, pos, d) == []
  {
  }

  /** From g2 the rising diagonal holds only h3. */
  lemma DiagonalFromG2(b: Board, color: Color)
    requires h3 !in b
    ensures Ray(b, color, g2, Offset(1, 1)) == [h3]
  {
    RayEdge(b, color, h3, Offset(1, 1));
    RayOpenStep(b, color, g2, Offset(1, 1), h3);
  }

  /** A bishop on f1 with g2 and h3 empty covers both along the rising
      diagonal, in that order, whatever else stands on the board, and stops at
      the edge. */
  lemma BishopOnF1(b: Board, color: Color)
    requires g2 !in b && h3 !in b
    ensures Ray(b, color, f1, Offset(1, 1)) == [g2, h3]
  {
    DiagonalFromG2(b, color);
    RayOpenStep(b, color, f1, Offset(1, 1), g2);
  }

  /** Up the a-file from a1, a piece of the mover's own colour on a2 blocks at
      once and is not covered. */
  lemma RookOnA1BehindOwnPiece(b: Board, color: Color)
    requires a2 in b && b[a2].color == color
    ensures Ray(b, color, a1, Offset(0, 1)) == []
  {
    assert Occupied(b, a2) && !CanAttack(b, color, a2);
  }

  /** ... while an opposing piece on a2 is covered, and nothing beyond it. */
  lemma RookOnA1FacingEnemy(b: Board, color: Color)
    requires a2 in b && b[a2].color != color
    ensures Ray(b, color, a1, Offset(0, 1)) == [a2]
  {
    assert Occupied(b, a2) && CanAttack(b, color, a2);
  }
}

/** Mouse sequences on an 800-pixel board at the origin (squares 100 pixels wide). */
module DragExamples {
  import opened Wrappers
  import opened Squares
  import opened Arrows
  import opened NamedSquares

  const Board800: Rect := Rect(0.0, 0.0, 800.0)

  function At800(s: Square): Point {
    ClientCenter(Board800, s)
  }

  /** Pressing on e2, moving to e4, back to e2 and releasing there draws nothing
      and leaves no drag. */
  lemma DragBackToStart()
    ensures Run(Initial, [Down(Board800, At800(e2).x, At800(e2).y), Move(Board800, At800(e4).x, At800(e4).y),
                         Move(Board800, At800(e2).x, At800(e2).y), Up(Board800, At800(e2).x, At800(e2).y)]) == Initial
  {
    var p, q := At800(e2), At800(e4);
    var o1 := Overlay([], None, Dragging(e2));
    var o2 := Overlay([], Some(Arrow(e2, e4, DefaultColor)), Dragging(e2));
    assert Step(Initial, Down(Board800, p.x, p.y)) == o1;
    assert Step(o1, Move(Board800, q.x, q.y)) == o2;
    assert Step(o2, Move(Board800, p.x, p.y)) == o1;
    assert Step(o1, Up(Board800, p.x, p.y)) == Initial;
    var es := [Down(Board800, p.x, p.y), Move(Board800, q.x, q.y), Move(Board800, p.x, p.y), Up(Board800, p.x, p.y)];
    assert Run(Initial, es) == Run(o1, es[1..]);
    assert Run(o1, es[1..]) == Run(o2, es[2..]);
    assert Run(o2, es[2..]) == Run(o1, es[3..]);
    assert Run(o1, es[3..]) == Run(Initial, es[4..]);
  }

  /** Pressing on e2, moving to e4 and releasing there draws one arrow e2 -> e4. */
  lemma DragE2ToE4()
    ensures Run(Initial, [Down(Board800, At800(e2).x, At800(e2).y), Move(Board800, At800(e4).x, At800(e4).y),
                         Up(Board800, At800(e4).x, At800(e4).y)])
            == Overlay([Arrow(e2, e4, DefaultColor)], None, Idle)
  {
    var p, q := At800(e2), At800(e4);
    var o1 := Overlay([], None, Dragging(e2));
    var o2 := Overlay([], Some(Arrow(e2, e4, DefaultColor)), Dragging(e2));
    var o3 := Overlay([Arrow(e2, e4, DefaultColor)], None, Idle);
    assert Step(Initial, Down(Board800, p.x, p.y)) == o1;
    assert Step(o1, Move(Board800, q.x, q.y)) == o2;
    assert Step(o2, Up(Board800, q.x, q.y)) == o3;
    var es := [Down(Board800, p.x, p.y), Move(Board800, q.x, q.y), Up(Board800, q.x, q.y)];
    assert Run(Initial, es) == Run(o1, es[1..]);
    assert Run(o1, es[1..]) == Run(o2, es[2..]);
    assert Run(o2, es[2..]) == Run(o3, es[3..]);
  }
}
