/** Values shared by the three spiral iterators: optional items, grid points,
    the integer widths of the crate's public signatures and the two distances
    that define square and diamond rings. */
module Common {

  datatype Option<+T> = None | Some(value: T)

  /** A grid position, or an offset from a spiral's centre, as (x, y). */
  type Point = (int, int)

  /** The Rust `i32` used for centre coordinates. */
  type i32 = v: int | -0x8000_0000 <= v < 0x8000_0000

  /** The Rust `u8` used for the Euclidean reflection code. */
  type u8 = v: int | 0 <= v < 0x100

  /** The Rust `u16` used for `max_distance`. */
  type u16 = v: int | 0 <= v < 0x1_0000

  function Abs(a: int): nat {
    if a < 0 then -a else a
  }

  /** Chebyshev distance of an offset from the centre: max(|x|, |y|). */
  function ChebyshevNorm(p: Point): nat {
    if Abs(p.0) < Abs(p.1) then Abs(p.1) else Abs(p.0)
  }

  /** Manhattan distance of an offset from the centre: |x| + |y|. */
  function ManhattanNorm(p: Point): nat {
    Abs(p.0) + Abs(p.1)
  }

  /** q is one unit away from p along exactly one axis (4-adjacency). */
  predicate AxisStep(p: Point, q: Point) {
    (Abs(q.0 - p.0) == 1 && q.1 == p.1) || (q.0 == p.0 && Abs(q.1 - p.1) == 1)
  }

  /** q is one unit away from p along both axes at once. */
  predicate DiagonalStep(p: Point, q: Point) {
    Abs(q.0 - p.0) == 1 && Abs(q.1 - p.1) == 1
  }

  /** An item as a caller sees it: the offset moved to the centre (cx, cy). */
  function Translate(cx: int, cy: int, item: Option<Point>): Option<Point> {
    match item
    case None => None
    case Some(p) => Some((cx + p.0, cy + p.1))
  }
}
