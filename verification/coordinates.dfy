/** Board coordinates: the `XY` value type with its arithmetic and range tests
    (general.cpp), plus the row-major numbering of the 64 squares that every
    board and matrix in this model uses. */
module Coordinates {

  /** A pair of integer coordinates; `x` is the column, `y` the row. */
  datatype XY = XY(x: int, y: int)

  /** The coordinate the program uses for "no square". */
  const NoSquare := XY(-1, -1)

  /** `operator==`: true exactly when both coordinates agree. */
  function Same(a: XY, b: XY): (r: bool)
    ensures r <==> a == b
  {
    a.x == b.x && a.y == b.y
  }

  /** `operator+` and `operator+=` (the latter only differs in writing back). */
  function Plus(a: XY, b: XY): XY
  {
    XY(a.x + b.x, a.y + b.y)
  }

  /** `operator-` and `operator-=`. */
  function Minus(a: XY, b: XY): XY
  {
    XY(a.x - b.x, a.y - b.y)
  }

  /** Adding then subtracting the same vector gives back the point, and the
      other way round. */
  lemma PlusMinusInverse(p: XY, v: XY)
    ensures Minus(Plus(p, v), v) == p
    ensures Plus(Minus(p, v), v) == p
    ensures Plus(p, v).x == p.x + v.x && Plus(p, v).y == p.y + v.y
    ensures Minus(p, v).x == p.x - v.x && Minus(p, v).y == p.y - v.y
  {
  }

  /** `InRange(a, b)`: the half-open box from `a` (included) to `b` (excluded). */
  function InRange(p: XY, a: XY, b: XY): bool
  {
    a.x <= p.x && p.x < b.x && a.y <= p.y && p.y < b.y
  }

  /** `InRange8()`: the point is a square of the chess board. */
  function InRange8(p: XY): (r: bool)
    ensures r <==> 0 <= p.x < 8 && 0 <= p.y < 8
  {
    InRange(p, XY(0, 0), XY(8, 8))
  }

  /** Row-major position of an on-board square: `Board[y][x]` is cell `8 * y + x`. */
  function Idx(p: XY): (i: nat)
    requires InRange8(p)
    ensures i < 64
  {
    8 * p.y + p.x
  }

  /** The square stored at cell `i`. */
  function Cell(i: int): (p: XY)
    requires 0 <= i < 64
    ensures InRange8(p)
  {
    XY(i % 8, i / 8)
  }

  /** `Idx` and `Cell` are mutually inverse. */
  lemma IdxCellInverse(p: XY, i: int)
    requires InRange8(p) && 0 <= i < 64
    ensures Cell(Idx(p)) == p
    ensures Idx(Cell(i)) == i
    ensures Idx(p) == i <==> p == Cell(i)
  {
  }

  /** Distinct squares have distinct cells. */
  lemma IdxInjective(p: XY, q: XY)
    requires InRange8(p) && InRange8(q)
    ensures Idx(p) == Idx(q) <==> p == q
  {
  }
}
