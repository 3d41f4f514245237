/**
 The square-coverage calculator of the analysis front end
 (`getAttackedSquares` and `getProtectedSquares`): which squares a piece
 standing on a square covers on a given board snapshot.
 */
module Coverage {
  import opened Wrappers
  import opened Squares

  /** `canAttack`: the square is empty, or holds a piece of the other colour.
      A coordinate off the board holds nothing, so it passes. It is exactly
      the negation of `isProtected`. */
  function CanAttack(b: Board, color: Color, c: Coord): (r: bool)
    ensures r <==> !IsFriend(b, color, c)
    ensures !Occupied(b, c) ==> r
  {
    At(b, c).None? || At(b, c).value.color != color
  }

  /** The square holds a piece of the given colour (`isProtected`). */
  predicate IsFriend(b: Board, color: Color, c: Coord) {
    At(b, c).Some? && At(b, c).value.color == color
  }

  predicate Occupied(b: Board, c: Coord) {
    At(b, c).Some?
  }

  // ---------------------------------------------------------------------------
  // Piece letters

  /** The one-character effect of JavaScript's `toLowerCase` that matters for
      piece letters: ASCII capitals, and the Kelvin sign, whose lower case is 'k'. */
  function Lower(c: char): (l: char)
    ensures 'a' <= l <= 'z' ==> c == l || c == (l as int - 32) as char || (c == '\U{212A}' && l == 'k')
  {
    if 'A' <= c <= 'Z' then (c as int + 32) as char
    else if c == '\U{212A}' then 'k'
    else c
  }

  /** The lower-case letter the chess library uses for each kind. */
  function Letter(k: Kind): char {
    match k
    case Pawn => 'p'
    case Knight => 'n'
    case Bishop => 'b'
    case Rook => 'r'
    case Queen => 'q'
    case King => 'k'
  }

  function KindOfLetter(c: char): (r: Option<Kind>)
    ensures r.Some? ==> Letter(r.value) == c
    ensures forall k :: Letter(k) == c ==> r == Some(k)
  {
    match c
    case 'p' => Some(Pawn)
    case 'n' => Some(Knight)
    case 'b' => Some(Bishop)
    case 'r' => Some(Rook)
    case 'q' => Some(Queen)
    case 'k' => Some(King)
    case _ => None
  }

  /** The `switch (pieceType.toLowerCase())`: a piece type string names a kind
      when it is one letter that lower-cases to that kind's letter. */
  function ParseKind(t: string): (r: Option<Kind>)
    ensures r.Some? ==> |t| == 1 && Letter(r.value) == Lower(t[0])
    ensures |t| == 1 ==> forall k :: Letter(k) == Lower(t[0]) ==> r == Some(k)
  {
    if |t| == 1 then KindOfLetter(Lower(t[0])) else None
  }

  /** The letters accepted for a kind are exactly its lower-case letter, its
      upper-case letter and, for the king, the Kelvin sign. */
  lemma ParseKindExactly(t: string, k: Kind)
    ensures ParseKind(t) == Some(k) <==>
      |t| == 1 && (t[0] == Letter(k) || t[0] == (Letter(k) as int - 32) as char || (k == King && t[0] == '\U{212A}'))
  {
  }

  /** Every other string, the empty one included, names no kind. */
  lemma UnknownLetter(t: string)
    requires forall k :: !(|t| == 1 && (t[0] == Letter(k) || t[0] == (Letter(k) as int - 32) as char))
    requires t != "\U{212A}"
    ensures ParseKind(t) == None
  {
    if ParseKind(t).Some? {
      ParseKindExactly(t, ParseKind(t).value);
    }
  }

  // ---------------------------------------------------------------------------
  // Pawns

  /** White pawns cover towards higher ranks, black pawns towards lower ones. */
  function Forward(color: Color): int {
    if color == White then 1 else -1
  }

  /** The pawn branch: the two diagonal-forward squares, the file kept on the
      board, the rank not checked, each gated by `canAttack`. */
  function PawnCover(b: Board, from: Square, color: Color): (r: seq<Coord>)
    ensures forall c :: c in r <==>
      && c.rank == from.rank + Forward(color)
      && (c.file == from.file - 1 || c.file == from.file + 1)
      && 0 <= c.file < 8
      && CanAttack(b, color, c)
  {
    var rank := from.rank + Forward(color);
    var left := Coord(from.file - 1, rank);
    var right := Coord(from.file + 1, rank);
    (if from.file > 0 && CanAttack(b, color, left) then [left] else [])
    + (if from.file < 7 && CanAttack(b, color, right) then [right] else [])
  }

  /** The rank a pawn of this colour cannot move beyond. */
  predicate OnLastRank(from: Square, color: Color) {
    from.rank == (if color == White then 7 else 0)
  }

  /** A pawn's covered coordinates lie on the board exactly when the pawn is
      not on its last rank; from its last rank they lie one rank off the board. */
  lemma PawnOnBoard(b: Board, from: Square, color: Color, c: Coord)
    requires c in PawnCover(b, from, color)
    ensures OnBoard(c) <==> !OnLastRank(from, color)
    ensures c != from
  {
  }

  // ---------------------------------------------------------------------------
  // Knights and kings: fixed offsets

  /** A (file, rank) displacement, as in the source's `[dx, dy]` pairs. */
  datatype Offset = Offset(df: int, dr: int)

  function Shift(c: Coord, o: Offset): Coord {
    Coord(c.file + o.df, c.rank + o.dr)
  }

  const KnightOffsets: seq<Offset> := [
    Offset(-2, -1), Offset(-2, 1), Offset(-1, -2), Offset(-1, 2),
    Offset(1, -2), Offset(1, 2), Offset(2, -1), Offset(2, 1)
  ]

  const KingOffsets: seq<Offset> := [
    Offset(0, 1), Offset(0, -1), Offset(1, 0), Offset(-1, 0),
    Offset(1, 1), Offset(1, -1), Offset(-1, 1), Offset(-1, -1)
  ]

  /** The knight and king loops: each offset in order, kept when the target is
      on the board and passes `canAttack`. */
  function Jumps(b: Board, from: Square, color: Color, offs: seq<Offset>): (r: seq<Coord>)
    requires forall i :: 0 <= i < |offs| ==> offs[i] != Offset(0, 0)
    ensures forall c :: c in r ==> OnBoard(c) && c != from && CanAttack(b, color, c)
    ensures |r| <= |offs|
  {
    if |offs| == 0 then []
    else
      var t := Shift(from, offs[0]);
      (if OnBoard(t) && CanAttack(b, color, t) then [t] else []) + Jumps(b, from, color, offs[1..])
  }

  /** The offset that takes `from` to `c`. */
  function Between(from: Coord, c: Coord): Offset {
    Offset(c.file - from.file, c.rank - from.rank)
  }

  /** A coordinate is covered by a jumping piece exactly when one of the offsets
      takes the piece there, it is on the board and it passes `canAttack`. */
  lemma {:induction false} JumpsExactly(b: Board, from: Square, color: Color, offs: seq<Offset>, c: Coord)
    requires forall i :: 0 <= i < |offs| ==> offs[i] != Offset(0, 0)
    ensures c in Jumps(b, from, color, offs) <==> Between(from, c) in offs && OnBoard(c) && CanAttack(b, color, c)
  {
    if |offs| > 0 {
      JumpsExactly(b, from, color, offs[1..], c);
      assert Between(from, c) in offs <==> Between(from, c) == offs[0] || Between(from, c) in offs[1..];
    }
  }

  // ---------------------------------------------------------------------------
  // Bishops, rooks and queens: rays

  /** One of the eight unit steps a sliding piece moves by. */
  predicate IsDirection(d: Offset) {
    -1 <= d.df <= 1 && -1 <= d.dr <= 1 && d != Offset(0, 0)
  }

  /** How many more steps of `d` fit on the board from `c` (a termination measure). */
  function Room(c: Coord, d: Offset): int {
    (if d.df > 0 then 7 - c.file else if d.df < 0 then c.file else 0)
    + (if d.dr > 0 then 7 - c.rank else if d.dr < 0 then c.rank else 0)
  }

  /** `k` times a unit component `x` (one of -1, 0, 1). */
  function Times(k: int, x: int): int {
    if x > 0 then k else if x < 0 then -k else 0
  }

  /** The coordinate `k` steps of the unit direction `d` away from `c`. */
  function Along(c: Coord, d: Offset, k: int): Coord {
    Coord(c.file + Times(k, d.df), c.rank + Times(k, d.dr))
  }

  /** The `while (true)` loop of one direction: step, stop off the board, keep
      the square when it passes `canAttack`, stop after any occupied square. */
  function Ray(b: Board, color: Color, pos: Square, d: Offset): (r: seq<Coord>)
    requires IsDirection(d)
    ensures forall c :: c in r ==> OnBoard(c) && CanAttack(b, color, c) && Room(c, d) < Room(pos, d)
    decreases Room(pos, d)
  {
    var next := Shift(pos, d);
    if !OnBoard(next) then []
    else
      (if CanAttack(b, color, next) then [next] else [])
      + (if Occupied(b, next) then [] else Ray(b, color, next, d))
  }

  /** No square strictly between `c` and `k` steps of `d` from it is occupied. */
  predicate ClearBefore(b: Board, c: Coord, d: Offset, k: int) {
    forall j :: 1 <= j < k ==> !Occupied(b, Along(c, d, j))
  }

  lemma AlongStep(c: Coord, d: Offset, k: int)
    requires IsDirection(d)
    ensures Along(Shift(c, d), d, k) == Along(c, d, k + 1)
    ensures Along(c, d, 1) == Shift(c, d)
  {
  }

  /** On a line through the board, the first step lies on the board whenever a
      later one does. */
  lemma AlongConvex(c: Square, d: Offset, k: int)
    requires IsDirection(d) && k >= 1 && OnBoard(Along(c, d, k))
    ensures OnBoard(Shift(c, d))
  {
  }

  /** `c` lies `k >= 1` steps along `d` from `pos`, on the board, with only
      empty squares before it, and passes `canAttack`. */
  predicate Reaches(b: Board, color: Color, pos: Coord, d: Offset, c: Coord, k: int) {
    k >= 1 && c == Along(pos, d, k) && OnBoard(c) && ClearBefore(b, pos, d, k) && CanAttack(b, color, c)
  }

  /** The squares before step `k + 1` are clear exactly when the first one is
      empty and the `k - 1` after it are clear. */
  lemma ClearAfterStep(b: Board, pos: Coord, d: Offset, k: int)
    requires IsDirection(d) && k >= 0
    ensures ClearBefore(b, pos, d, k + 1) <==>
      (k == 0 || !Occupied(b, Shift(pos, d))) && ClearBefore(b, Shift(pos, d), d, k)
  {
    AlongStep(pos, d, 0);
    if ClearBefore(b, pos, d, k + 1) {
      forall j | 1 <= j < k
        ensures !Occupied(b, Along(Shift(pos, d), d, j))
      {
        AlongStep(pos, d, j);
      }
    }
    if (k == 0 || !Occupied(b, Shift(pos, d))) && ClearBefore(b, Shift(pos, d), d, k) {
      forall j | 1 <= j < k + 1
        ensures !Occupied(b, Along(pos, d, j))
      {
        if j > 1 {
          AlongStep(pos, d, j - 1);
        }
      }
    }
  }

  /** Every square of a ray is reached along it. */
  lemma {:induction false} RaySound(b: Board, color: Color, pos: Square, d: Offset, c: Coord) returns (k: int)
    requires IsDirection(d) && c in Ray(b, color, pos, d)
    ensures Reaches(b, color, pos, d, c, k)
    decreases Room(pos, d)
  {
    var next := Shift(pos, d);
    AlongStep(pos, d, 0);
    if c == next && CanAttack(b, color, next) {
      k := 1;
    } else {
      assert !Occupied(b, next) && c in Ray(b, color, next, d);
      var k' := RaySound(b, color, next, d, c);
      k := k' + 1;
      AlongStep(pos, d, k');
      ClearAfterStep(b, pos, d, k');
    }
  }

  /** Every square reached along a direction is on the ray. */
  lemma {:induction false} RayComplete(b: Board, color: Color, pos: Square, d: Offset, c: Coord, k: int)
    requires IsDirection(d) && Reaches(b, color, pos, d, c, k)
    ensures c in Ray(b, color, pos, d)
    decreases Room(pos, d)
  {
    var next := Shift(pos, d);
    AlongStep(pos, d, 0);
    AlongConvex(pos, d, k);
    if k > 1 {
      ClearAfterStep(b, pos, d, k - 1);
      AlongStep(pos, d, k - 1);
      RayComplete(b, color, next, d, c, k - 1);
    }
  }

  /** A ray covers exactly the squares reached along it: the ray stops at the
      first occupied square, and includes it only when it holds an enemy piece. */
  lemma RayExactly(b: Board, color: Color, pos: Square, d: Offset, c: Coord)
    requires IsDirection(d)
    ensures c in Ray(b, color, pos, d) <==> exists k :: Reaches(b, color, pos, d, c, k)
  {
    if c in Ray(b, color, pos, d) {
      var k := RaySound(b, color, pos, d, c);
    }
    if exists k :: Reaches(b, color, pos, d, c, k) {
      var k :| Reaches(b, color, pos, d, c, k);
      RayComplete(b, color, pos, d, c, k);
    }
  }

  /** Nothing beyond the first occupied square of a ray is covered, and that
      blocker is covered exactly when it holds an enemy piece. */
  lemma RayStopsAtBlocker(b: Board, color: Color, pos: Square, d: Offset, j: int)
    requires IsDirection(d) && j >= 1
    requires Occupied(b, Along(pos, d, j)) && ClearBefore(b, pos, d, j)
    ensures Along(pos, d, j) in Ray(b, color, pos, d) <==> !IsFriend(b, color, Along(pos, d, j))
    ensures forall k :: k > j ==> Along(pos, d, k) !in Ray(b, color, pos, d)
  {
    if Along(pos, d, j) in Ray(b, color, pos, d) {
      var k := RaySound(b, color, pos, d, Along(pos, d, j));
      AlongInjective(pos, d, j, k);
    }
    if !IsFriend(b, color, Along(pos, d, j)) {
      RayComplete(b, color, pos, d, Along(pos, d, j), j);
    }
    forall k | k > j
      ensures Along(pos, d, k) !in Ray(b, color, pos, d)
    {
      var c := Along(pos, d, k);
      RayExactly(b, color, pos, d, c);
      forall k' | Along(pos, d, k') == c
        ensures !Reaches(b, color, pos, d, c, k')
      {
        AlongInjective(pos, d, k, k');
      }
    }
  }

  lemma AlongInjective(c: Coord, d: Offset, k: int, k': int)
    requires IsDirection(d) && Along(c, d, k) == Along(c, d, k')
    ensures k == k'
  {
  }

  const RookLines: seq<Offset> := [Offset(0, 1), Offset(0, -1), Offset(1, 0), Offset(-1, 0)]

  const BishopLines: seq<Offset> := [Offset(1, 1), Offset(1, -1), Offset(-1, 1), Offset(-1, -1)]

  const QueenLines: seq<Offset> := [
    Offset(0, 1), Offset(0, -1), Offset(1, 0), Offset(-1, 0),
    Offset(1, 1), Offset(1, -1), Offset(-1, 1), Offset(-1, -1)
  ]

  /** The rays of every direction in order, one after the other. */
  function Slide(b: Board, color: Color, from: Square, dirs: seq<Offset>): (r: seq<Coord>)
    requires forall i :: 0 <= i < |dirs| ==> IsDirection(dirs[i])
    ensures forall c :: c in r ==> OnBoard(c) && c != from && CanAttack(b, color, c)
  {
    if |dirs| == 0 then []
    else Ray(b, color, from, dirs[0]) + Slide(b, color, from, dirs[1..])
  }

  /** Sliding along two direction lists is sliding along the first, then the second. */
  lemma {:induction false} SlideAppend(b: Board, color: Color, from: Square, xs: seq<Offset>, ys: seq<Offset>)
    requires forall i :: 0 <= i < |xs| ==> IsDirection(xs[i])
    requires forall i :: 0 <= i < |ys| ==> IsDirection(ys[i])
    ensures Slide(b, color, from, xs + ys) == Slide(b, color, from, xs) + Slide(b, color, from, ys)
  {
    if |xs| > 0 {
      assert (xs + ys)[1..] == xs[1..] + ys;
      SlideAppend(b, color, from, xs[1..], ys);
    } else {
      assert xs + ys == ys;
    }
  }

  /** A coordinate is covered by the rays of a direction list exactly when the
      ray of one of those directions covers it. */
  lemma {:induction false} SlideMember(b: Board, color: Color, from: Square, dirs: seq<Offset>, c: Coord)
    requires forall i :: 0 <= i < |dirs| ==> IsDirection(dirs[i])
    ensures c in Slide(b, color, from, dirs) <==> exists i :: 0 <= i < |dirs| && c in Ray(b, color, from, dirs[i])
  {
    if |dirs| > 0 {
      SlideMember(b, color, from, dirs[1..], c);
      if c in Slide(b, color, from, dirs[1..]) {
        var i :| 0 <= i < |dirs[1..]| && c in Ray(b, color, from, dirs[1..][i]);
        assert c in Ray(b, color, from, dirs[i + 1]);
      }
      if exists i :: 0 <= i < |dirs| && c in Ray(b, color, from, dirs[i]) {
        var i :| 0 <= i < |dirs| && c in Ray(b, color, from, dirs[i]);
        if i > 0 {
          assert c in Ray(b, color, from, dirs[1..][i - 1]);
        }
      }
    }
  }

  /** Two lines leaving the same coordinate in unit directions meet again only
      when they are the same line, at the same step. */
  lemma AlongMeet(c: Coord, d: Offset, e: Offset, k: int, j: int)
    requires IsDirection(d) && IsDirection(e) && k >= 1 && j >= 1
    requires Along(c, d, k) == Along(c, e, j)
    ensures d == e && k == j
  {
  }

  /** A coordinate `k` steps along `d` is covered by the rays of a direction list
      containing `d` exactly when the ray of `d` covers it: no other direction
      reaches it. */
  lemma SlideAlong(b: Board, color: Color, from: Square, dirs: seq<Offset>, d: Offset, k: int)
    requires forall i :: 0 <= i < |dirs| ==> IsDirection(dirs[i])
    requires d in dirs && k >= 1
    ensures Along(from, d, k) in Slide(b, color, from, dirs) <==> Along(from, d, k) in Ray(b, color, from, d)
  {
    var c := Along(from, d, k);
    SlideMember(b, color, from, dirs, c);
    if c in Slide(b, color, from, dirs) {
      var i :| 0 <= i < |dirs| && c in Ray(b, color, from, dirs[i]);
      var m := RaySound(b, color, from, dirs[i], c);
      AlongMeet(from, d, dirs[i], k, m);
    }
  }

  /** For a sliding piece as a whole: the first occupied square in one of its
      directions is covered exactly when it holds an enemy piece, and nothing
      beyond it in that direction is covered, by any of its rays. */
  lemma SlideStopsAtBlocker(b: Board, color: Color, from: Square, dirs: seq<Offset>, d: Offset, j: int)
    requires forall i :: 0 <= i < |dirs| ==> IsDirection(dirs[i])
    requires d in dirs && j >= 1
    requires Occupied(b, Along(from, d, j)) && ClearBefore(b, from, d, j)
    ensures Along(from, d, j) in Slide(b, color, from, dirs) <==> !IsFriend(b, color, Along(from, d, j))
    ensures forall k :: k > j ==> Along(from, d, k) !in Slide(b, color, from, dirs)
  {
    RayStopsAtBlocker(b, color, from, d, j);
    SlideAlong(b, color, from, dirs, d, j);
    forall k | k > j
      ensures Along(from, d, k) !in Slide(b, color, from, dirs)
    {
      SlideAlong(b, color, from, dirs, d, k);
    }
  }

  // ---------------------------------------------------------------------------
  // The calculator

  /** The squares a piece of kind `k` and colour `color` on `from` covers. */
  function Cover(b: Board, from: Square, k: Kind, color: Color): (r: seq<Coord>)
    ensures forall c :: c in r ==> CanAttack(b, color, c) && c != from
    ensures k != Pawn ==> forall c :: c in r ==> OnBoard(c)
  {
    match k
    case Pawn =>
      var r := PawnCover(b, from, color);
      assert forall c :: c in r ==> c != from by {
        forall c | c in r ensures c != from { PawnOnBoard(b, from, color, c); }
      }
      r
    case Knight => Jumps(b, from, color, KnightOffsets)
    case Bishop => Slide(b, color, from, BishopLines)
    case Rook => Slide(b, color, from, RookLines)
    case Queen => Slide(b, color, from, QueenLines)
    case King => Jumps(b, from, color, KingOffsets)
  }

  /** `getAttackedSquares(from, pieceType, color)`: an unrecognised piece type
      covers nothing. Never a friendly square, never `from` itself, and on the
      board for every kind but the pawn. */
  function AttackedSquares(b: Board, from: Square, pieceType: string, color: Color): (r: seq<Coord>)
    ensures ParseKind(pieceType) == None ==> r == []
    ensures forall c :: c in r ==> c != from && !IsFriend(b, color, c)
    ensures ParseKind(pieceType) != Some(Pawn) ==> forall c :: c in r ==> OnBoard(c)
  {
    match ParseKind(pieceType)
    case None => []
    case Some(k) => Cover(b, from, k, color)
  }

  /** The queen covers, in order, what a rook and then a bishop on the same
      square cover; as sets, the union of the two. */
  lemma QueenIsRookPlusBishop(b: Board, from: Square, color: Color)
    ensures Cover(b, from, Queen, color) == Cover(b, from, Rook, color) + Cover(b, from, Bishop, color)
    ensures forall c :: c in Cover(b, from, Queen, color) <==>
      c in Cover(b, from, Rook, color) || c in Cover(b, from, Bishop, color)
  {
    assert QueenLines == RookLines + BishopLines;
    SlideAppend(b, color, from, RookLines, BishopLines);
  }

  /** The directions a sliding kind moves in, in the source's loop order. */
  predicate SlidesAlong(k: Kind, d: Offset) {
    || (k == Bishop && d in BishopLines)
    || (k == Rook && d in RookLines)
    || (k == Queen && d in QueenLines)
  }

  /** A bishop, rook or queen covers the first occupied square in one of its
      directions exactly when it holds an enemy piece, and covers nothing
      beyond it in that direction. */
  lemma CoverStopsAtBlocker(b: Board, from: Square, k: Kind, color: Color, d: Offset, j: int)
    requires SlidesAlong(k, d) && j >= 1
    requires Occupied(b, Along(from, d, j)) && ClearBefore(b, from, d, j)
    ensures Along(from, d, j) in Cover(b, from, k, color) <==> !IsFriend(b, color, Along(from, d, j))
    ensures forall n :: n > j ==> Along(from, d, n) !in Cover(b, from, k, color)
  {
    var dirs := if k == Bishop then BishopLines else if k == Rook then RookLines else QueenLines;
    SlideStopsAtBlocker(b, color, from, dirs, d, j);
  }

  /** The rays of a direction list cover a coordinate exactly when it is
      reached along one of those directions. */
  lemma SlideReaches(b: Board, color: Color, from: Square, dirs: seq<Offset>, c: Coord)
    requires forall i :: 0 <= i < |dirs| ==> IsDirection(dirs[i])
    ensures c in Slide(b, color, from, dirs) <==> exists d, n :: d in dirs && Reaches(b, color, from, d, c, n)
  {
    SlideMember(b, color, from, dirs, c);
    if c in Slide(b, color, from, dirs) {
      var i :| 0 <= i < |dirs| && c in Ray(b, color, from, dirs[i]);
      var n := RaySound(b, color, from, dirs[i], c);
    }
    if exists d, n :: d in dirs && Reaches(b, color, from, d, c, n) {
      var d, n :| d in dirs && Reaches(b, color, from, d, c, n);
      RayComplete(b, color, from, d, c, n);
      var i :| 0 <= i < |dirs| && dirs[i] == d;
    }
  }

  /** A bishop, rook or queen covers a coordinate exactly when it is reached
      along one of the piece's directions: on the board, with every square
      before it empty, and empty or holding an enemy piece. */
  lemma SlidingExactly(b: Board, from: Square, k: Kind, color: Color, c: Coord)
    requires k == Bishop || k == Rook || k == Queen
    ensures c in Cover(b, from, k, color) <==>
      exists d, n :: SlidesAlong(k, d) && Reaches(b, color, from, d, c, n)
  {
    var dirs := if k == Bishop then BishopLines else if k == Rook then RookLines else QueenLines;
    SlideReaches(b, color, from, dirs, c);
    assert forall d :: d in dirs <==> SlidesAlong(k, d);
  }

  function Abs(x: int): nat {
    if x < 0 then -x else x
  }

  /** An L-shaped leap: one file and two ranks, or two files and one rank. */
  predicate KnightLeap(o: Offset) {
    (Abs(o.df) == 1 && Abs(o.dr) == 2) || (Abs(o.df) == 2 && Abs(o.dr) == 1)
  }

  /** The knight's offset table lists exactly the eight L-shaped leaps. */
  lemma KnightOffsetsAreLeaps(o: Offset)
    ensures o in KnightOffsets <==> KnightLeap(o)
  {
  }

  /** The king's offset table lists exactly the eight unit steps. */
  lemma KingOffsetsAreSteps(o: Offset)
    ensures o in KingOffsets <==> IsDirection(o)
  {
  }

  /** The knight covers exactly the on-board L-shaped targets that pass `canAttack`. */
  lemma KnightExactly(b: Board, from: Square, color: Color, c: Coord)
    ensures c in Cover(b, from, Knight, color) <==> OnBoard(c) && CanAttack(b, color, c) && KnightLeap(Between(from, c))
  {
    JumpsExactly(b, from, color, KnightOffsets, c);
    KnightOffsetsAreLeaps(Between(from, c));
  }

  /** The king covers exactly the on-board neighbouring squares that pass `canAttack`. */
  lemma KingExactly(b: Board, from: Square, color: Color, c: Coord)
    ensures c in Cover(b, from, King, color) <==> OnBoard(c) && CanAttack(b, color, c) && IsDirection(Between(from, c))
  {
    JumpsExactly(b, from, color, KingOffsets, c);
    KingOffsetsAreSteps(Between(from, c));
  }

  /** `getProtectedSquares`'s filter: the squares of `cs` that hold a friendly piece. */
  function KeepFriends(b: Board, color: Color, cs: seq<Coord>): (r: seq<Square>)
    ensures forall c :: c in r <==> c in cs && IsFriend(b, color, c)
    ensures (forall c :: c in cs ==> !IsFriend(b, color, c)) ==> r == []
  {
    if |cs| == 0 then []
    else if IsFriend(b, color, cs[0]) then
      var s: Square := cs[0];
      [s] + KeepFriends(b, color, cs[1..])
    else KeepFriends(b, color, cs[1..])
  }

  /** `getProtectedSquares(from, pieceType, color)` as written: the friendly
      squares among the attacked squares. Because the attacked squares never
      hold a friendly piece, the result is empty whatever the board, piece and
      colour. */
  function ProtectedSquares(b: Board, from: Square, pieceType: string, color: Color): (r: seq<Square>)
    ensures r == []
  {
    var r := KeepFriends(b, color, AttackedSquares(b, from, pieceType, color));
    r
  }
}
