/** `ManhattanIterator`: a spiral over diamond rings. Ring r >= 1 holds the 4r
    offsets with |dx| + |dy| == r, walked with diagonal steps. */
module Manhattan {
  import opened Common
  import Rings

  /** Point `pos` of diamond ring `ring`, in the order the iterator walks the
      ring: from (ring, 0) up-left to (0, ring), down-left to (-ring, 0),
      down-right to (0, -ring) and up-right to (ring - 1, -1). Ring 0 is the
      centre. */
  function RingPoint(ring: nat, pos: nat): (p: Point)
    requires pos < Rings.RingSize(4, ring)
    ensures ManhattanNorm(p) == ring
  {
    var r: int, t: int := ring, pos;
    if r == 0 then (0, 0)
    else if t < r then (r - t, t)
    else if t < 2 * r then (r - t, 2 * r - t)
    else if t < 3 * r then (t - 3 * r, 2 * r - t)
    else (t - 3 * r, t - 4 * r)
  }

  /** Where a point of diamond ring `ring` sits on that ring. */
  function RingPosition(ring: nat, p: Point): (pos: nat)
    requires ring >= 1 && ManhattanNorm(p) == ring
    ensures pos < Rings.RingSize(4, ring) && RingPoint(ring, pos) == p
  {
    var r: int := ring;
    if p.0 > 0 && p.1 >= 0 then p.1
    else if p.0 <= 0 && p.1 > 0 then r - p.0
    else if p.0 < 0 && p.1 <= 0 then 2 * r - p.1
    else 3 * r + p.0
  }

  /** Each point of a ring is walked at one position only. */
  lemma {:induction false} RingPositionOf(ring: nat, pos: nat)
    requires ring >= 1 && pos < Rings.RingSize(4, ring)
    ensures RingPosition(ring, RingPoint(ring, pos)) == pos
  {
  }

  /** The offset `n` steps after the first point of ring `ring`, walking
      each ring in turn and moving out to the next when it is done. */
  function WalkFrom(ring: nat, n: nat): Point
    decreases n
  {
    if n < Rings.RingSize(4, ring) then RingPoint(ring, n)
    else WalkFrom(ring + 1, n - Rings.RingSize(4, ring))
  }

  /** The n-th offset of the unbounded diamond walk (n = 0 is the centre). */
  function Offset(n: nat): Point {
    WalkFrom(0, n)
  }

  /** Walking on from a ring lands on the ring and position `LocateFrom` names. */
  lemma {:induction false} WalkFromLocate(ring: nat, n: nat)
    ensures var loc := Rings.LocateFrom(4, ring, n);
            WalkFrom(ring, n) == RingPoint(loc.0, loc.1)
    decreases n
  {
    if n >= Rings.RingSize(4, ring) {
      WalkFromLocate(ring + 1, n - Rings.RingSize(4, ring));
    }
  }

  /** The n-th offset is the point at the ring and position `Locate` names. */
  lemma {:induction false} OffsetLocate(n: nat)
    ensures var loc := Rings.Locate(4, n);
            Offset(n) == RingPoint(loc.0, loc.1)
  {
    WalkFromLocate(0, n);
  }

  /** The step of the unbounded walk at which offset p is reached. */
  function WalkIndex(p: Point): nat {
    var ring := ManhattanNorm(p);
    Rings.RingStart(4, ring) + if ring == 0 then 0 else RingPosition(ring, p)
  }

  /** The walk reaches every offset of the plane ... */
  lemma {:induction false} WalkReaches(p: Point)
    ensures Offset(WalkIndex(p)) == p
  {
    var ring := ManhattanNorm(p);
    var pos := if ring == 0 then 0 else RingPosition(ring, p);
    Rings.LocateAt(4, ring, pos);
    OffsetLocate(WalkIndex(p));
  }

  /** ... and each of them at one step only. */
  lemma {:induction false} WalkOnce(n: nat)
    ensures WalkIndex(Offset(n)) == n
  {
    var (ring, pos) := Rings.Locate(4, n);
    OffsetLocate(n);
    if ring >= 1 {
      RingPositionOf(ring, pos);
    }
  }

  /** Along a ring the walk moves one unit along both axes ... */
  lemma {:induction false} RingSteps(ring: nat, pos: nat)
    requires ring >= 1 && pos + 1 < Rings.RingSize(4, ring)
    ensures DiagonalStep(RingPoint(ring, pos), RingPoint(ring, pos + 1))
  {
  }

  /** ... and from the last point of a ring it moves out to the next ring
      with two units right and one up. */
  lemma {:induction false} RingChangeSteps(ring: nat)
    requires ring >= 1
    ensures var p := RingPoint(ring, Rings.RingSize(4, ring) - 1);
            RingPoint(ring + 1, 0) == (p.0 + 2, p.1 + 1)
  {
  }

  /** After the centre, consecutive offsets of the walk are diagonal
      neighbours on the same ring, or the jump (+2, +1) out to the next ring. */
  lemma {:induction false} WalkSteps(n: nat)
    requires n >= 1
    ensures var p, q := Offset(n), Offset(n + 1);
            if ManhattanNorm(q) == ManhattanNorm(p) then DiagonalStep(p, q)
            else ManhattanNorm(q) == ManhattanNorm(p) + 1 && q == (p.0 + 2, p.1 + 1)
  {
    var loc := Rings.Locate(4, n);
    var ring, pos := loc.0, loc.1;
    assert Offset(n) == RingPoint(ring, pos) by {
      OffsetLocate(n);
    }
    assert ring >= 1;
    if pos + 1 < Rings.RingSize(4, ring) {
      assert Offset(n + 1) == RingPoint(ring, pos + 1) by {
        OffsetLocate(n + 1);
        Rings.LocateAt(4, ring, pos + 1);
      }
      RingSteps(ring, pos);
    } else {
      assert Offset(n + 1) == RingPoint(ring + 1, 0) by {
        OffsetLocate(n + 1);
        Rings.LocateAt(4, ring + 1, 0);
      }
      RingChangeSteps(ring);
    }
  }

  /** Diamond ring m >= 1 starts at step 1 + 2m(m - 1). */
  lemma {:induction false} RingStartDiamond(m: nat)
    requires m >= 1
    ensures Rings.RingStart(4, m) == 1 + 2 * m * (m - 1)
  {
    if m > 1 {
      RingStartDiamond(m - 1);
    }
  }

  /** What the n-th call of `next` reports, as an offset from the centre:
      the walk's n-th offset, except that for max_distance m >= 2 the call
      that would reach ring m reports None instead. */
  function Item(m: nat, n: nat): Option<Point> {
    if 2 <= m && n == Rings.RingStart(4, m) then None else Some(Offset(n))
  }

  /** Exactly one call reports None, and only when max_distance is at least 2:
      the one after 1 + 2m(m - 1) offsets. */
  lemma {:induction false} NoneExactly(m: nat, n: nat)
    ensures Item(m, n) == None <==> 2 <= m && n == 1 + 2 * m * (m - 1)
  {
    if 2 <= m {
      RingStartDiamond(m);
    }
  }

  /** From the second call on, consecutive items are diagonal neighbours on
      one ring, or the jump (+2, +1) out to the next ring. */
  lemma {:induction false} ItemSteps(m: nat, n: nat)
    requires n >= 1 && Item(m, n).Some? && Item(m, n + 1).Some?
    ensures var p, q := Item(m, n).value, Item(m, n + 1).value;
            if ManhattanNorm(q) == ManhattanNorm(p) then DiagonalStep(p, q)
            else ManhattanNorm(q) == ManhattanNorm(p) + 1 && q == (p.0 + 2, p.1 + 1)
  {
    WalkSteps(n);
  }

  /** The offsets reported before the first None, for max_distance m >= 2. */
  function Order(m: nat): seq<Point> {
    seq(Rings.RingStart(4, m), n requires 0 <= n => Offset(n))
  }

  /** The offsets walked before ring m are exactly those with |dx| + |dy| < m. */
  lemma {:induction false} OrderCovers(m: nat, p: Point)
    ensures p in Order(m) <==> ManhattanNorm(p) < m
  {
    var order := Order(m);
    if p in order {
      var n :| 0 <= n < |order| && order[n] == p;
      Rings.InsideRing(4, m, n);
      OffsetLocate(n);
    }
    if ManhattanNorm(p) < m {
      var n := WalkIndex(p);
      WalkReaches(p);
      OffsetLocate(n);
      Rings.InsideRing(4, m, n);
      assert order[n] == p;
    }
  }

  /** The walk never reports an offset twice. */
  lemma {:induction false} OrderDistinct(m: nat, i: nat, j: nat)
    requires i < j < |Order(m)|
    ensures Order(m)[i] != Order(m)[j]
  {
    WalkOnce(i);
    WalkOnce(j);
  }

  /** For max_distance m >= 2 the iterator reports 1 + 2m(m - 1) offsets,
      which are every offset with |dx| + |dy| <= m - 1, each once, then None. */
  lemma {:induction false} Exhausts(m: nat)
    requires m >= 2
    ensures |Order(m)| == 1 + 2 * m * (m - 1)
    ensures forall n | 0 <= n < |Order(m)| :: Item(m, n) == Some(Order(m)[n])
    ensures Item(m, |Order(m)|) == None
    ensures forall p :: p in Order(m) <==> ManhattanNorm(p) < m
    ensures forall i, j | 0 <= i < j < |Order(m)| :: Order(m)[i] != Order(m)[j]
  {
    RingStartDiamond(m);
    forall p ensures p in Order(m) <==> ManhattanNorm(p) < m {
      OrderCovers(m, p);
    }
    forall i, j | 0 <= i < j < |Order(m)| ensures Order(m)[i] != Order(m)[j] {
      OrderDistinct(m, i, j);
    }
  }

  /** Whatever max_distance is, the first call reports the centre and the
      second the offset (1, 0). */
  lemma {:induction false} FirstItems(m: nat)
    ensures Item(m, 0) == Some((0, 0)) && Item(m, 1) == Some((1, 0))
  {
    if 2 <= m {
      Rings.RingStartMonotone(4, 1, m);
    }
  }

  /** A call after the None resumes the walk one point further on, so the
      iterator then reports offsets on ring m, outside the requested radius. */
  lemma {:induction false} ResumesAfterNone(m: nat)
    requires m >= 2
    ensures Item(m, Rings.RingStart(4, m) + 1) == Some((m - 1, 1))
  {
    Rings.LocateAt(4, m, 1);
    Rings.RingStartMonotone(4, m, m + 1);
    OffsetLocate(Rings.RingStart(4, m) + 1);
  }

  /** The call that walks to offset p reports it, unless p is the first
      point of ring max_distance. */
  lemma {:induction false} ItemAtPoint(m: nat, p: Point)
    ensures Item(m, WalkIndex(p)) == if 2 <= m && p == (m, 0) then None else Some(p)
  {
    WalkReaches(p);
    if 2 <= m {
      var first := (m, 0);
      assert WalkIndex(first) == Rings.RingStart(4, m);
      WalkReaches(first);
    }
  }

  /** Where the iterator stands after its second call: (x, y) lies on the
      side of the diamond of radius `layer` that `leg` walks. */
  predicate OnLeg(x: int, y: int, layer: int, leg: int) {
    && layer >= 1
    && (|| (leg == 0 && x + y == layer && 0 <= y < layer)
        || (leg == 1 && y - x == layer && 0 < y <= layer)
        || (leg == 2 && x + y == -layer && -layer <= x < 0)
        || (leg == 3 && x - y == layer && 0 <= x < layer))
  }

  /** The walk step the iterator stands at, read off its leg state. */
  function StateIndex(x: int, y: int, layer: int, leg: int): int {
    if layer < 1 then 0
    else if leg == 0 then Rings.RingStart(4, layer) + y
    else if leg == 1 then Rings.RingStart(4, layer) + layer - x
    else if leg == 2 then Rings.RingStart(4, layer) + 2 * layer - y
    else Rings.RingStart(4, layer) + 3 * layer + x
  }

  /** The leg state names the step at which the walk reaches (x, y). */
  lemma {:induction false} StateIndexIsWalkIndex(x: int, y: int, layer: int, leg: int)
    requires OnLeg(x, y, layer, leg)
    ensures StateIndex(x, y, layer, leg) == WalkIndex((x, y))
  {
  }

  /** The call that moves the iterator to a leg state reports its point,
      unless that point is the first point of ring max_distance. */
  lemma {:induction false} ItemAtState(m: nat, x: int, y: int, layer: int, leg: int)
    requires OnLeg(x, y, layer, leg)
    ensures Item(m, StateIndex(x, y, layer, leg))
         == if 2 <= m && (x, y) == (m, 0) then None else Some((x, y))
  {
    StateIndexIsWalkIndex(x, y, layer, leg);
    ItemAtPoint(m, (x, y));
  }

  /** The first call reports the centre. */
  lemma {:induction false} CentreCall(m: nat, cx: int, cy: int, r: Option<Point>)
    requires r == Some((cx, cy))
    ensures r == Translate(cx, cy, Item(m, 0))
  {
    FirstItems(m);
  }

  /** A call on leg 0, which starts from (2, -1) after the centre and turns
      onto leg 1 at the top corner. */
  lemma {:induction false} Leg0Call(m: nat, cx: int, cy: int, calls: nat, x: int, y: int, layer: int, x': int, y': int, leg': int, r: Option<Point>)
    requires calls >= 1
    requires calls == 1 ==> x == 2 && y == -1 && layer == 1
    requires calls > 1 ==> OnLeg(x, y, layer, 0) && calls == StateIndex(x, y, layer, 0) + 1
    requires x' == x - 1 && y' == y + 1 && leg' == if x' == 0 then 1 else 0
    requires r == Some((cx + x', cy + y'))
    ensures OnLeg(x', y', layer, leg') && calls + 1 == StateIndex(x', y', layer, leg') + 1
    ensures r == Translate(cx, cy, Item(m, calls))
  {
    ItemAtState(m, x', y', layer, leg');
  }

  /** A call on leg 1, turning onto leg 2 at the left corner. */
  lemma {:induction false} Leg1Call(m: nat, cx: int, cy: int, calls: nat, x: int, y: int, layer: int, x': int, y': int, leg': int, r: Option<Point>)
    requires OnLeg(x, y, layer, 1) && calls == StateIndex(x, y, layer, 1) + 1
    requires x' == x - 1 && y' == y - 1 && leg' == if y' == 0 then 2 else 1
    requires r == Some((cx + x', cy + y'))
    ensures OnLeg(x', y', layer, leg') && calls + 1 == StateIndex(x', y', layer, leg') + 1
    ensures r == Translate(cx, cy, Item(m, calls))
  {
    ItemAtState(m, x', y', layer, leg');
  }

  /** A call on leg 2, turning onto leg 3 at the bottom corner. */
  lemma {:induction false} Leg2Call(m: nat, cx: int, cy: int, calls: nat, x: int, y: int, layer: int, x': int, y': int, leg': int, r: Option<Point>)
    requires OnLeg(x, y, layer, 2) && calls == StateIndex(x, y, layer, 2) + 1
    requires x' == x + 1 && y' == y - 1 && leg' == if x' == 0 then 3 else 2
    requires r == Some((cx + x', cy + y'))
    ensures OnLeg(x', y', layer, leg') && calls + 1 == StateIndex(x', y', layer, leg') + 1
    ensures r == Translate(cx, cy, Item(m, calls))
  {
    ItemAtState(m, x', y', layer, leg');
  }

  /** A call on leg 3; on reaching the x axis the walk moves out to the first
      point of the next ring, and reports None if that ring is max_distance. */
  lemma {:induction false} Leg3Call(m: nat, cx: int, cy: int, calls: nat, x: int, y: int, layer: int, x': int, y': int, layer': int, leg': int, r: Option<Point>)
    requires OnLeg(x, y, layer, 3) && calls == StateIndex(x, y, layer, 3) + 1
    requires y' == y + 1
    requires if y' == 0 then x' == x + 2 && leg' == 0 && layer' == layer + 1
             else x' == x + 1 && leg' == 3 && layer' == layer
    requires r == if y' == 0 && layer' == m then None else Some((cx + x', cy + y'))
    ensures OnLeg(x', y', layer', leg') && calls + 1 == StateIndex(x', y', layer', leg') + 1
    ensures r == Translate(cx, cy, Item(m, calls))
  {
    if y' == 0 {
      Rings.RingStartMonotone(4, layer, layer + 1);
    }
    ItemAtState(m, x', y', layer', leg');
  }

  class ManhattanIterator {
    const maxDistance: u16
    const startX: i32
    const startY: i32

    var x: int
    var y: int
    var layer: int
    /** -1 before the centre is reported, then 0 (up-left), 1 (down-left),
        2 (down-right), 3 (up-right). */
    var leg: int

    /** How many times `next` has been called. */
    ghost var calls: nat

    ghost predicate Valid()
      reads this
    {
      && (calls == 0 ==> leg == -1 && x == 2 && y == -1 && layer == 1)
      && (calls == 1 ==> leg == 0 && x == 2 && y == -1 && layer == 1)
      && (calls > 1 ==> OnLeg(x, y, layer, leg) && calls == StateIndex(x, y, layer, leg) + 1)
    }

    constructor (x: i32, y: i32, maxDistance: u16)
      ensures this.maxDistance == maxDistance && startX == x && startY == y
      ensures this.x == 2 && this.y == -1 && layer == 1 && leg == -1
      ensures Valid() && calls == 0
    {
      this.maxDistance := maxDistance;
      startX, startY := x, y;
      this.x, this.y := 2, -1;
      layer, leg := 1, -1;
      calls := 0;
    }

    /** From the second call on, the iterator stands on the diamond of
        radius `layer`. */
    lemma {:induction false} OnRing()
      requires Valid() && calls >= 2
      ensures ManhattanNorm((x, y)) == layer
    {
    }

    /** Call number `calls` (counting from 0) returns `Item(maxDistance, calls)`
        shifted to the centre. */
    method Next() returns (r: Option<Point>)
      requires Valid()
      modifies this
      ensures Valid() && calls == old(calls) + 1
      ensures r == Translate(startX, startY, Item(maxDistance, old(calls)))
      ensures old(leg) == -1 ==> r == Some((startX, startY)) && leg == 0 && x == old(x) && y == old(y)
      ensures leg == old(leg) || (old(leg) < 3 && leg == old(leg) + 1) || (old(leg) == 3 && leg == 0)
      ensures layer == if old(leg) == 3 && leg == 0 then old(layer) + 1 else old(layer)
    {
      var x', y', layer', leg' := x, y, layer, leg;
      if leg == -1 {
        leg' := 0;
        r := Some((startX, startY));
        CentreCall(maxDistance, startX, startY, r);
      } else if leg == 0 {
        x', y' := x - 1, y + 1;
        if x' == 0 {
          leg' := 1;
        }
        r := Some((startX + x', startY + y'));
        Leg0Call(maxDistance, startX, startY, calls, x, y, layer, x', y', leg', r);
      } else if leg == 1 {
        x', y' := x - 1, y - 1;
        if y' == 0 {
          leg' := 2;
        }
        r := Some((startX + x', startY + y'));
        Leg1Call(maxDistance, startX, startY, calls, x, y, layer, x', y', leg', r);
      } else if leg == 2 {
        x', y' := x + 1, y - 1;
        if x' == 0 {
          leg' := 3;
        }
        r := Some((startX + x', startY + y'));
        Leg2Call(maxDistance, startX, startY, calls, x, y, layer, x', y', leg', r);
      } else if leg == 3 {
        x', y' := x + 1, y + 1;
        if y' == 0 {
          x' := x' + 1;
          leg' := 0;
          layer' := layer + 1;
          if layer' == maxDistance as int {
            r := None;
          } else {
            r := Some((startX + x', startY + y'));
          }
        } else {
          r := Some((startX + x', startY + y'));
        }
        Leg3Call(maxDistance, startX, startY, calls, x, y, layer, x', y', layer', leg', r);
      } else {
        assert false;
      }
      x, y, layer, leg := x', y', layer', leg';
      calls := calls + 1;
    }
  }
}
