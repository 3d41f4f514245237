/**
 Board geometry shared by the coverage calculator and the arrow overlay:
 file/rank coordinates, the 64 on-board squares, algebraic names ("e4"),
 colours, piece kinds and the board snapshot that the chess rules library
 hands out (`game.get(square)`).
 */
module Squares {
  import opened Wrappers

  /** A raw (file, rank) pair, both counted from 0: a1 is (0, 0), h8 is (7, 7).
      Raw pairs may lie off the board; the pawn branch of the coverage
      calculator can produce such a pair. */
  datatype Coord = Coord(file: int, rank: int)

  predicate OnBoard(c: Coord) {
    0 <= c.file < 8 && 0 <= c.rank < 8
  }

  /** One of the 64 squares of the board. */
  type Square = c: Coord | OnBoard(c) witness Coord(0, 0)

  datatype Color = White | Black

  datatype Kind = Pawn | Knight | Bishop | Rook | Queen | King

  datatype Piece = Piece(kind: Kind, color: Color)

  /** A snapshot of the occupied squares; a square that is not a key is empty. */
  type Board = map<Square, Piece>

  /** `game.get(name)`: the piece on a coordinate, or None when the square is
      empty or when the coordinate names no square at all. */
  function At(b: Board, c: Coord): (r: Option<Piece>)
    ensures r.Some? ==> OnBoard(c) && c in b && b[c] == r.value
    ensures OnBoard(c) && c in b ==> r.Some?
  {
    if OnBoard(c) && c in b then Some(b[c]) else None
  }

  /** The algebraic name of a square: file letter 'a'..'h', then rank digit '1'..'8'. */
  function Name(s: Square): (t: string)
    ensures |t| == 2
    ensures 'a' <= t[0] <= 'h' && '1' <= t[1] <= '8'
  {
    [('a' as int + s.file) as char, ('1' as int + s.rank) as char]
  }

  /** Reads a two-character square name; None when either character is out of range. */
  function Parse(t: string): (r: Option<Square>)
    ensures r.Some? <==> |t| == 2 && 'a' <= t[0] <= 'h' && '1' <= t[1] <= '8'
  {
    if |t| == 2 && 'a' <= t[0] <= 'h' && '1' <= t[1] <= '8' then
      Some(Coord(t[0] as int - 'a' as int, t[1] as int - '1' as int))
    else
      None
  }

  /** Naming a square and reading the name back gives the square. */
  lemma ParseName(s: Square)
    ensures Parse(Name(s)) == Some(s)
  {
  }

  /** Every name that parses is the name of the square it parses to, so squares
      and their names are interchangeable (the source compares names as strings). */
  lemma NameParse(t: string)
    requires Parse(t).Some?
    ensures Name(Parse(t).value) == t
  {
    var s := Parse(t).value;
    assert Name(s)[0] == t[0] && Name(s)[1] == t[1];
  }

  /** Different squares have different names. */
  lemma NameInjective(s: Square, u: Square)
    requires Name(s) == Name(u)
    ensures s == u
  {
    ParseName(s);
    ParseName(u);
  }
}
