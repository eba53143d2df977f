/** `EuclideanIterator`: a lookup table of the offsets (x, y) with
    0 <= x <= y < max_distance, each reported under the eight reflections of
    the plane that permute and negate the two axes. */
module Euclidean {
  import opened Common

  /** Row y of the lookup table: (0, y), (1, y), ..., (y, y). */
  function Row(y: nat): (row: seq<Point>)
    ensures |row| == y + 1
    ensures forall x | 0 <= x <= y :: row[x] == (x, y)
  {
    seq(y + 1, x requires 0 <= x => (x, y))
  }

  /** The table `build_lut_table(m)` returns: the centre, then rows 0 to m - 1. */
  function LutTable(m: nat): seq<Point> {
    if m == 0 then [(0, 0)] else LutTable(m - 1) + Row(m - 1)
  }

  /** The table holds 1 + m(m + 1)/2 entries. */
  lemma {:induction false} LutLength(m: nat)
    ensures 2 * (|LutTable(m)| - 1) == m * (m + 1)
    ensures |LutTable(m)| == 1 + m * (m + 1) / 2
  {
    if m > 0 {
      LutLength(m - 1);
    }
  }

  /** Entry (x, y) sits at index 1 + y(y + 1)/2 + x: row by row, and along
      a row by growing x. */
  lemma {:induction false} LutAt(m: nat, x: nat, y: nat)
    requires x <= y < m
    ensures 1 + y * (y + 1) / 2 + x < |LutTable(m)|
    ensures LutTable(m)[1 + y * (y + 1) / 2 + x] == (x, y)
  {
    LutLength(m);
    LutLength(m - 1);
    if y < m - 1 {
      LutAt(m - 1, x, y);
      LutLength(y + 1);
      assert 1 + y * (y + 1) / 2 + x < |LutTable(m - 1)| by {
        if y + 1 < m - 1 {
          LutLengthMonotone(y + 1, m - 1);
        }
      }
    }
  }

  /** A longer table extends a shorter one. */
  lemma {:induction false} LutLengthMonotone(a: nat, b: nat)
    requires a <= b
    ensures |LutTable(a)| <= |LutTable(b)|
    decreases b
  {
    if a < b {
      LutLengthMonotone(a, b - 1);
    }
  }

  /** Every entry lies in the octant 0 <= x <= y < m, except the centre
      at index 0; and rows never go back: y grows with the index. */
  lemma {:induction false} LutEntries(m: nat)
    ensures LutTable(m)[0] == (0, 0)
    ensures forall k | 1 <= k < |LutTable(m)| :: 0 <= LutTable(m)[k].0 <= LutTable(m)[k].1 < m
    ensures forall j, k | 0 <= j <= k < |LutTable(m)| :: LutTable(m)[j].1 <= LutTable(m)[k].1
  {
    if m > 0 {
      LutEntries(m - 1);
      var lut, prev := LutTable(m), LutTable(m - 1);
      assert forall k | |prev| <= k < |lut| :: lut[k] == (k - |prev|, m - 1);
    }
  }

  /** Builds the lookup table with the nested loops of `build_lut_table`.
      A negative max_distance gives the empty range of rows. */
  method BuildLutTable(maxDistance: int) returns (lut: seq<Point>)
    ensures lut == LutTable(if maxDistance < 0 then 0 else maxDistance)
  {
    lut := [(0, 0)];
    var y := 0;
    while y < maxDistance
      invariant 0 <= y && (maxDistance >= 0 ==> y <= maxDistance) && (maxDistance < 0 ==> y == 0)
      invariant lut == LutTable(y)
    {
      var x := 0;
      while x < y + 1
        invariant 0 <= x <= y + 1
        invariant lut == LutTable(y) + Row(y)[..x]
      {
        lut := lut + [(x, y)];
        x := x + 1;
      }
      y := y + 1;
    }
  }

  /** Reflection `dir` of an offset: 0 to 3 keep the axes and negate y, x or
      both, 4 to 7 swap them first; any other code has no reflection. */
  function Reflect(dir: u8, p: Point): (r: Option<Point>)
    ensures r.Some? <==> dir < 8
  {
    var (x, y) := p;
    match dir
    case 0 => Some((x, y))
    case 1 => Some((x, -y))
    case 2 => Some((-x, y))
    case 3 => Some((-x, -y))
    case 4 => Some((y, x))
    case 5 => Some((y, -x))
    case 6 => Some((-y, x))
    case 7 => Some((-y, -x))
    case _ => None
  }

  /** The eight reflections keep both the square distance max(|x|, |y|) and
      the Euclidean distance of an offset. */
  lemma {:induction false} ReflectKeepsDistance(dir: u8, p: Point)
    requires dir < 8
    ensures ChebyshevNorm(Reflect(dir, p).value) == ChebyshevNorm(p)
    ensures var q := Reflect(dir, p).value; q.0 * q.0 + q.1 * q.1 == p.0 * p.0 + p.1 * p.1
  {
    var (x, y) := p;
    assert (-x) * (-x) == x * x && (-y) * (-y) == y * y;
  }

  /** Call n (counting from 0) reads table entry (7 + n) / 8 under reflection
      (7 + n) % 8, as `dir` starts at 7. */
  function Entry(n: nat): nat {
    (7 + n) / 8
  }

  function Dir(n: nat): (d: u8)
    ensures d < 8
  {
    (7 + n) % 8
  }

  /** What the n-th call of `next` reports, as an offset from the centre: the
      reflected table entry, except that the call that finishes the last
      entry reports None instead of its reflection 7. Calls that would read
      past the table are not defined (the source indexes out of bounds). */
  function Item(lut: seq<Point>, n: nat): Option<Point>
    requires Entry(n) < |lut|
  {
    if Dir(n) == 7 && Entry(n) + 1 == |lut| then None
    else Reflect(Dir(n), lut[Entry(n)])
  }

  /** Call `8k + d - 7` reads entry k under reflection d. */
  lemma {:induction false} EntryDir(k: nat, d: nat)
    requires 8 * k + d >= 7 && d < 8
    ensures Entry(8 * k + d - 7) == k && Dir(8 * k + d - 7) == d
  {
  }

  /** Call n reads inside a table of L entries exactly up to call 8(L - 1). */
  lemma {:induction false} EntryInside(n: nat, size: nat)
    ensures Entry(n) < size <==> n <= 8 * (size - 1)
  {
  }

  /** Later calls read the same or a later entry. */
  lemma {:induction false} EntryMonotone(i: nat, j: nat)
    requires i <= j
    ensures Entry(i) <= Entry(j)
  {
  }

  /** The only call that reports None is call 8(|lut| - 1): the iterator
      reports 8 offsets per table entry, less one, after the first. */
  lemma {:induction false} NoneExactly(lut: seq<Point>, n: nat)
    requires Entry(n) < |lut|
    ensures Item(lut, n) == None <==> n == 8 * (|lut| - 1)
  {
    EntryInside(n, |lut|);
    if n == 8 * (|lut| - 1) {
      EntryDir(|lut| - 1, 7);
    }
  }

  /** Every call before call 8(|lut| - 1) reports an offset, and that call
      reports None. */
  lemma {:induction false} CountTable(lut: seq<Point>)
    requires |lut| >= 1
    ensures forall n | 0 <= n <= 8 * (|lut| - 1) :: Entry(n) < |lut|
    ensures forall n | 0 <= n < 8 * (|lut| - 1) :: Item(lut, n).Some?
    ensures Item(lut, 8 * (|lut| - 1)) == None
  {
    forall n | 0 <= n <= 8 * (|lut| - 1)
      ensures Entry(n) < |lut|
    {
      EntryInside(n, |lut|);
    }
    forall n | 0 <= n < 8 * (|lut| - 1)
      ensures Item(lut, n).Some?
    {
      NoneExactly(lut, n);
    }
    NoneExactly(lut, 8 * (|lut| - 1));
  }

  /** A table for max_distance m is read by 4m(m + 1) calls, up to the None. */
  lemma {:induction false} CallCount(m: nat)
    ensures 8 * (|LutTable(m)| - 1) == 4 * m * (m + 1)
  {
    LutLength(m);
    assert 4 * m * (m + 1) == 4 * (m * (m + 1));
  }

  /** For max_distance m the iterator reports 4m(m + 1) offsets, then None. */
  lemma {:induction false} Count(m: nat)
    ensures 8 * (|LutTable(m)| - 1) == 4 * m * (m + 1)
    ensures forall n | 0 <= n <= 4 * m * (m + 1) :: Entry(n) < |LutTable(m)|
    ensures forall n | 0 <= n < 4 * m * (m + 1) :: Item(LutTable(m), n).Some?
    ensures Item(LutTable(m), 4 * m * (m + 1)) == None
  {
    CallCount(m);
    CountTable(LutTable(m));
  }

  /** The reported offset's distance max(|dx|, |dy|) is the row of the entry
      the call reads. */
  lemma {:induction false} ItemNorm(m: nat, n: nat)
    requires Entry(n) < |LutTable(m)| && Item(LutTable(m), n).Some?
    ensures ChebyshevNorm(Item(LutTable(m), n).value) == LutTable(m)[Entry(n)].1
  {
    LutEntries(m);
    ReflectKeepsDistance(Dir(n), LutTable(m)[Entry(n)]);
  }

  /** Every reported offset lies in the square max(|dx|, |dy|) < m ... */
  lemma {:induction false} ItemInSquare(m: nat, n: nat)
    requires Entry(n) < |LutTable(m)| && Item(LutTable(m), n).Some?
    ensures ChebyshevNorm(Item(LutTable(m), n).value) < m
  {
    LutEntries(m);
    ItemNorm(m, n);
    if m == 0 {
      NoneExactly(LutTable(m), n);
    }
  }

  /** The octant entry and the reflection that give offset p; reflection 7
      is needed only off the diagonal. */
  lemma {:induction false} Unreflect(p: Point) returns (x: nat, y: nat, d: u8)
    ensures x <= y && y == ChebyshevNorm(p) && d < 8
    ensures Reflect(d, (x, y)) == Some(p)
    ensures d == 7 ==> x < y
  {
    var (a, b) := p;
    var signs: nat := (if a < 0 then 2 else 0) + (if b < 0 then 1 else 0);
    if Abs(a) <= Abs(b) {
      x, y, d := Abs(a), Abs(b), signs;
    } else {
      x, y, d := Abs(b), Abs(a), 4 + signs;
    }
  }

  /** The table index of an octant entry (x, y) with y < m; off the diagonal
      the entry after it is in the table too. */
  lemma {:induction false} EntryIndex(m: nat, x: nat, y: nat) returns (k: nat)
    requires x <= y < m
    ensures 1 <= k < |LutTable(m)| && LutTable(m)[k] == (x, y)
    ensures x < y ==> k + 1 < |LutTable(m)|
  {
    k := 1 + y * (y + 1) / 2 + x;
    LutAt(m, x, y);
    if x < y {
      LutAt(m, x + 1, y);
    }
  }

  /** Reflection d of entry k is reported by call 8k + d - 7, before the
      None, provided reflection 7 is not taken of the last entry. */
  lemma {:induction false} CallOf(lut: seq<Point>, k: nat, d: u8, p: Point) returns (n: nat)
    requires 1 <= k < |lut| && d < 8 && (d == 7 ==> k + 1 < |lut|)
    requires Reflect(d, lut[k]) == Some(p)
    ensures n < 8 * (|lut| - 1) && Entry(n) < |lut| && Item(lut, n) == Some(p)
  {
    n := 8 * k + d - 7;
    EntryDir(k, d);
  }

  /** ... and every offset of that square is reported by some call before
      the None. */
  lemma {:induction false} SquareInItems(m: nat, p: Point)
    requires ChebyshevNorm(p) < m
    ensures exists n | 0 <= n < 4 * m * (m + 1) ::
              Entry(n) < |LutTable(m)| && Item(LutTable(m), n) == Some(p)
  {
    var x, y, d := Unreflect(p);
    var k := EntryIndex(m, x, y);
    var n := CallOf(LutTable(m), k, d, p);
    CallCount(m);
    assert 0 <= n < 4 * m * (m + 1);
  }

  /** The reported offsets move outwards in max(|dx|, |dy|): the order is by
      rows of the table, not by true Euclidean distance. */
  lemma {:induction false} NormMonotone(m: nat, i: nat, j: nat)
    requires i <= j && Entry(j) < |LutTable(m)|
    requires Item(LutTable(m), i).Some? && Item(LutTable(m), j).Some?
    ensures ChebyshevNorm(Item(LutTable(m), i).value) <= ChebyshevNorm(Item(LutTable(m), j).value)
  {
    EntryMonotone(i, j);
    ItemNorm(m, i);
    ItemNorm(m, j);
    LutEntries(m);
  }

  /** Concretely, for m >= 5, call 73 reports (3, 3) and call 81 the nearer
      offset (0, 4). */
  lemma {:induction false} NotEuclideanOrder(m: nat)
    requires m >= 5
    ensures Entry(81) < |LutTable(m)|
    ensures Item(LutTable(m), 73) == Some((3, 3)) && Item(LutTable(m), 81) == Some((0, 4))
    ensures 0 * 0 + 4 * 4 < 3 * 3 + 3 * 3
  {
    LutAt(m, 3, 3);
    LutAt(m, 0, 4);
    LutLength(m);
    EntryDir(10, 0);
    EntryDir(11, 0);
  }

  /** The centre is in the table twice (as the first entry and as row 0), so
      the first nine calls all report it; for m == 1 that is all but the
      last, which reports None. */
  lemma {:induction false} CentreRepeated(m: nat, n: nat)
    requires m >= 1 && n < (if m == 1 then 8 else 9)
    ensures Entry(n) < |LutTable(m)| && Item(LutTable(m), n) == Some((0, 0))
  {
    LutAt(m, 0, 0);
    LutLength(m);
    LutEntries(m);
    NoneExactly(LutTable(m), n);
  }

  class EuclideanIterator {
    const startX: i32
    const startY: i32
    const lut: seq<Point>

    var i: nat
    var dir: u8

    /** How many times `next` has been called. */
    ghost var calls: nat

    /** Call `calls` reads entry i under reflection dir. */
    ghost predicate Valid()
      reads this
    {
      dir < 8 && 8 * i + dir == 7 + calls
    }

    constructor (x: i32, y: i32, maxDistance: u16)
      ensures startX == x && startY == y && lut == LutTable(maxDistance)
      ensures i == 0 && dir == 7
      ensures Valid() && calls == 0
    {
      startX, startY := x, y;
      var table := BuildLutTable(maxDistance);
      lut := table;
      i, dir := 0, 7;
      calls := 0;
    }

    /** Call number `calls` (counting from 0) returns `Item(lut, calls)`
        shifted to the centre. The source indexes the table without a bounds
        check, so `i` must be inside it. */
    method Next() returns (r: Option<Point>)
      requires Valid() && i < |lut|
      modifies this
      ensures Valid() && calls == old(calls) + 1
      ensures Entry(old(calls)) < |lut| && r == Translate(startX, startY, Item(lut, old(calls)))
      ensures dir == if old(dir) == 7 then 0 else old(dir) + 1
      ensures i == if old(dir) == 7 then old(i) + 1 else old(i)
    {
      EntryDir(i, dir);
      var pos := Reflect(dir, lut[i]);
      if pos == None {
        assert false;
      }
      dir := dir + 1;
      if dir >= 8 {
        dir := 0;
        i := i + 1;
        if i >= |lut| {
          r := None;
          calls := calls + 1;
          return;
        }
      }
      r := Some((startX + pos.value.0, startY + pos.value.1));
      calls := calls + 1;
    }
  }
}
