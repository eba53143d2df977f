/** `ChebyshevIterator`: a spiral over square rings. Ring r >= 1 holds the 8r
    offsets with max(|dx|, |dy|) == r. */
module Chebyshev {
  import opened Common
  import Rings

  /** Point `pos` of square ring `ring`, in the order the iterator walks the
      ring: up the right edge from (ring, 1 - ring) to (ring, ring), left along
      the top to (-ring, ring), down the left edge to (-ring, -ring) and right
      along the bottom to (ring, -ring). Ring 0 is the centre. */
  function RingPoint(ring: nat, pos: nat): (p: Point)
    requires pos < Rings.RingSize(8, ring)
    ensures ChebyshevNorm(p) == ring
  {
    var r: int, t: int := ring, pos;
    if r == 0 then (0, 0)
    else if t < 2 * r then (r, t - r + 1)
    else if t < 4 * r then (3 * r - 1 - t, r)
    else if t < 6 * r then (-r, 5 * r - 1 - t)
    else (t - 7 * r + 1, -r)
  }

  /** Where a point of square ring `ring` sits on that ring. */
  function RingPosition(ring: nat, p: Point): (pos: nat)
    requires ring >= 1 && ChebyshevNorm(p) == ring
    ensures pos < Rings.RingSize(8, ring) && RingPoint(ring, pos) == p
  {
    var r: int := ring;
    if p.0 == r && p.1 > -r then p.1 + r - 1
    else if p.1 == r then 3 * r - 1 - p.0
    else if p.0 == -r then 5 * r - 1 - p.1
    else p.0 + 7 * r - 1
  }

  /** Each point of a ring is walked at one position only. */
  lemma {:induction false} RingPositionOf(ring: nat, pos: nat)
    requires ring >= 1 && pos < Rings.RingSize(8, ring)
    ensures RingPosition(ring, RingPoint(ring, pos)) == pos
  {
  }

  /** The offset `n` steps after the first point of ring `ring`, walking
      each ring in turn and moving out to the next when it is done. */
  function WalkFrom(ring: nat, n: nat): Point
    decreases n
  {
    if n < Rings.RingSize(8, ring) then RingPoint(ring, n)
    else WalkFrom(ring + 1, n - Rings.RingSize(8, ring))
  }

  /** The n-th offset of the unbounded square walk (n = 0 is the centre). */
  function Offset(n: nat): Point {
    WalkFrom(0, n)
  }

  /** Walking on from a ring lands on the ring and position `LocateFrom` names. */
  lemma {:induction false} WalkFromLocate(ring: nat, n: nat)
    ensures var loc := Rings.LocateFrom(8, ring, n);
            WalkFrom(ring, n) == RingPoint(loc.0, loc.1)
    decreases n
  {
    if n >= Rings.RingSize(8, ring) {
      WalkFromLocate(ring + 1, n - Rings.RingSize(8, ring));
    }
  }

  /** The n-th offset is the point at the ring and position `Locate` names. */
  lemma {:induction false} OffsetLocate(n: nat)
    ensures var loc := Rings.Locate(8, n);
            Offset(n) == RingPoint(loc.0, loc.1)
  {
    WalkFromLocate(0, n);
  }

  /** The step of the unbounded walk at which offset p is reached. */
  function WalkIndex(p: Point): nat {
    var ring := ChebyshevNorm(p);
    Rings.RingStart(8, ring) + if ring == 0 then 0 else RingPosition(ring, p)
  }

  /** The walk reaches every offset of the plane ... */
  lemma {:induction false} WalkReaches(p: Point)
    ensures Offset(WalkIndex(p)) == p
  {
    var ring := ChebyshevNorm(p);
    var pos := if ring == 0 then 0 else RingPosition(ring, p);
    Rings.LocateAt(8, ring, pos);
    OffsetLocate(WalkIndex(p));
  }

  /** ... and each of them at one step only. */
  lemma {:induction false} WalkOnce(n: nat)
    ensures WalkIndex(Offset(n)) == n
  {
    var (ring, pos) := Rings.Locate(8, n);
    OffsetLocate(n);
    if ring >= 1 {
      RingPositionOf(ring, pos);
    }
  }

  /** Along a ring the walk moves one unit along one axis ... */
  lemma {:induction false} RingSteps(ring: nat, pos: nat)
    requires pos + 1 < Rings.RingSize(8, ring)
    ensures AxisStep(RingPoint(ring, pos), RingPoint(ring, pos + 1))
  {
  }

  /** ... and so it does from the last point of a ring to the next ring. */
  lemma {:induction false} RingChangeSteps(ring: nat)
    ensures AxisStep(RingPoint(ring, Rings.RingSize(8, ring) - 1), RingPoint(ring + 1, 0))
  {
  }

  /** Consecutive offsets of the walk are 4-adjacent. */
  lemma {:induction false} WalkSteps(n: nat)
    ensures AxisStep(Offset(n), Offset(n + 1))
  {
    var loc := Rings.Locate(8, n);
    var ring, pos := loc.0, loc.1;
    assert Offset(n) == RingPoint(ring, pos) by {
      OffsetLocate(n);
    }
    if pos + 1 < Rings.RingSize(8, ring) {
      assert Offset(n + 1) == RingPoint(ring, pos + 1) by {
        OffsetLocate(n + 1);
        Rings.LocateAt(8, ring, pos + 1);
      }
      RingSteps(ring, pos);
    } else {
      assert Offset(n + 1) == RingPoint(ring + 1, 0) by {
        OffsetLocate(n + 1);
        Rings.LocateAt(8, ring + 1, 0);
      }
      RingChangeSteps(ring);
    }
  }

  /** Square ring m starts at step (2m - 1)^2. */
  lemma {:induction false} RingStartSquare(m: nat)
    requires m >= 1
    ensures Rings.RingStart(8, m) == (2 * m - 1) * (2 * m - 1)
  {
    if m > 1 {
      RingStartSquare(m - 1);
    }
  }

  /** What the n-th call of `next` reports, as an offset from the centre:
      the walk's n-th offset, except that for max_distance m >= 1 the call
      that would reach ring m reports None instead. */
  function Item(m: nat, n: nat): Option<Point> {
    if 1 <= m && n == Rings.RingStart(8, m) then None else Some(Offset(n))
  }

  /** Exactly one call reports None, and only when max_distance is at least 1:
      the one after (2m - 1)^2 offsets. */
  lemma {:induction false} NoneExactly(m: nat, n: nat)
    ensures Item(m, n) == None <==> 1 <= m && n == (2 * m - 1) * (2 * m - 1)
  {
    if 1 <= m {
      RingStartSquare(m);
    }
  }

  /** Consecutive items are 4-adjacent. */
  lemma {:induction false} ItemSteps(m: nat, n: nat)
    requires Item(m, n).Some? && Item(m, n + 1).Some?
    ensures AxisStep(Item(m, n).value, Item(m, n + 1).value)
  {
    WalkSteps(n);
  }

  /** The offsets reported before the first None, for max_distance m >= 1. */
  function Order(m: nat): seq<Point> {
    seq(Rings.RingStart(8, m), n requires 0 <= n => Offset(n))
  }

  /** The offsets walked before ring m are exactly those with
      max(|dx|, |dy|) < m. */
  lemma {:induction false} OrderCovers(m: nat, p: Point)
    ensures p in Order(m) <==> ChebyshevNorm(p) < m
  {
    var order := Order(m);
    if p in order {
      var n :| 0 <= n < |order| && order[n] == p;
      Rings.InsideRing(8, m, n);
      OffsetLocate(n);
    }
    if ChebyshevNorm(p) < m {
      var n := WalkIndex(p);
      WalkReaches(p);
      OffsetLocate(n);
      Rings.InsideRing(8, m, n);
      assert order[n] == p;
    }
  }

  /** The walk never reports an offset twice. */
  lemma {:induction false} OrderDistinct(m: nat, i: nat, j: nat)
    requires i < j < |Order(m)|
    ensures Order(m)[i] != Order(m)[j]
  {
    WalkOnce(i);
    WalkOnce(j);
  }

  /** For max_distance m >= 1 the iterator reports (2m - 1)^2 offsets, which
      are every offset with max(|dx|, |dy|) <= m - 1, each once, then None. */
  lemma {:induction false} Exhausts(m: nat)
    requires m >= 1
    ensures |Order(m)| == (2 * m - 1) * (2 * m - 1)
    ensures forall n | 0 <= n < |Order(m)| :: Item(m, n) == Some(Order(m)[n])
    ensures Item(m, |Order(m)|) == None
    ensures forall p :: p in Order(m) <==> ChebyshevNorm(p) < m
    ensures forall i, j | 0 <= i < j < |Order(m)| :: Order(m)[i] != Order(m)[j]
  {
    RingStartSquare(m);
    forall p ensures p in Order(m) <==> ChebyshevNorm(p) < m {
      OrderCovers(m, p);
    }
    forall i, j | 0 <= i < j < |Order(m)| ensures Order(m)[i] != Order(m)[j] {
      OrderDistinct(m, i, j);
    }
  }

  /** A call after the None resumes the walk one point further on, so the
      iterator then reports offsets on ring m, outside the requested radius. */
  lemma {:induction false} ResumesAfterNone(m: nat)
    requires m >= 1
    ensures Item(m, Rings.RingStart(8, m) + 1) == Some((m, 2 - m))
  {
    Rings.LocateAt(8, m, 1);
    Rings.RingStartMonotone(8, m, m + 1);
    OffsetLocate(Rings.RingStart(8, m) + 1);
  }

  /** The call that walks to offset p reports it, unless p is the first
      point of ring max_distance. */
  lemma {:induction false} ItemAtPoint(m: nat, p: Point)
    ensures Item(m, WalkIndex(p)) == if 1 <= m && p == (m, 1 - m) then None else Some(p)
  {
    WalkReaches(p);
    if 1 <= m {
      var first := (m, 1 - m);
      assert WalkIndex(first) == Rings.RingStart(8, m);
      WalkReaches(first);
    }
  }

  /** Where the iterator stands after reporting the centre: (x, y) lies on the
      edge that `leg` walks around the square of half-width `layer`. Leg 0
      walks the bottom edge of the ring inside (y == 1 - layer) and ends on
      the first point of ring `layer`. */
  predicate OnLeg(x: int, y: int, layer: int, leg: int) {
    && layer >= 1
    && (|| (leg == 0 && y == 1 - layer && 1 - layer <= x <= layer - 1)
        || (leg == 1 && x == layer && 1 - layer <= y <= layer - 1)
        || (leg == 2 && y == layer && 1 - layer <= x <= layer)
        || (leg == 3 && x == -layer && 1 - layer <= y <= layer))
  }

  /** The walk step the iterator stands at, read off its leg state. */
  function StateIndex(x: int, y: int, layer: int, leg: int): int {
    if layer < 1 then 0
    else if leg == 0 then
      (if layer == 1 then 0 else Rings.RingStart(8, layer - 1) + x + 7 * (layer - 1) - 1)
    else if leg == 1 then Rings.RingStart(8, layer) + y + layer - 1
    else if leg == 2 then Rings.RingStart(8, layer) + 3 * layer - 1 - x
    else Rings.RingStart(8, layer) + 5 * layer - 1 - y
  }

  /** The leg state names the step at which the walk reaches (x, y). */
  lemma {:induction false} StateIndexIsWalkIndex(x: int, y: int, layer: int, leg: int)
    requires OnLeg(x, y, layer, leg)
    ensures StateIndex(x, y, layer, leg) == WalkIndex((x, y))
  {
  }

  /** The call that moves the iterator to a leg state reports its point,
      unless that point is the first point of ring max_distance. */
  lemma {:induction false} ItemAtState(m: nat, x: int, y: int, layer: int, leg: int)
    requires OnLeg(x, y, layer, leg)
    ensures Item(m, StateIndex(x, y, layer, leg))
         == if 1 <= m && (x, y) == (m, 1 - m) then None else Some((x, y))
  {
    StateIndexIsWalkIndex(x, y, layer, leg);
    ItemAtPoint(m, (x, y));
  }

  /** One step along leg 0, turning onto leg 1 at the corner. */
  lemma {:induction false} Leg0Step(x: int, y: int, layer: int, x': int, leg': int)
    requires OnLeg(x, y, layer, 0)
    requires x' == x + 1 && leg' == if x' == layer then 1 else 0
    ensures OnLeg(x', y, layer, leg') && StateIndex(x', y, layer, leg') == StateIndex(x, y, layer, 0) + 1
  {
  }

  /** One step along leg 1, turning onto leg 2 at the corner. */
  lemma {:induction false} Leg1Step(x: int, y: int, layer: int, y': int, leg': int)
    requires OnLeg(x, y, layer, 1)
    requires y' == y + 1 && leg' == if y' == layer then 2 else 1
    ensures OnLeg(x, y', layer, leg') && StateIndex(x, y', layer, leg') == StateIndex(x, y, layer, 1) + 1
  {
  }

  /** One step along leg 2, turning onto leg 3 at the corner. */
  lemma {:induction false} Leg2Step(x: int, y: int, layer: int, x': int, leg': int)
    requires OnLeg(x, y, layer, 2)
    requires x' == x - 1 && leg' == if -x' == layer then 3 else 2
    ensures OnLeg(x', y, layer, leg') && StateIndex(x', y, layer, leg') == StateIndex(x, y, layer, 2) + 1
  {
  }

  /** One step along leg 3; at the corner the walk moves out to the next
      square and starts its leg 0. */
  lemma {:induction false} Leg3Step(x: int, y: int, layer: int, y': int, layer': int, leg': int)
    requires OnLeg(x, y, layer, 3)
    requires y' == y - 1
    requires if -y' == layer then leg' == 0 && layer' == layer + 1 else leg' == 3 && layer' == layer
    ensures OnLeg(x, y', layer', leg') && StateIndex(x, y', layer', leg') == StateIndex(x, y, layer, 3) + 1
  {
  }

  /** The first call reports the centre and sets out along leg 0. */
  lemma {:induction false} CentreCall(m: nat, cx: int, cy: int, r: Option<Point>)
    requires r == Some((cx, cy))
    ensures OnLeg(0, 0, 1, 0) && 1 == StateIndex(0, 0, 1, 0) + 1
    ensures r == Translate(cx, cy, Item(m, 0))
  {
    ItemAtState(m, 0, 0, 1, 0);
  }

  /** A call on leg 0; reaching the first point of ring m reports None. */
  lemma {:induction false} Leg0Call(m: nat, cx: int, cy: int, calls: nat, x: int, y: int, layer: int, x': int, leg': int, r: Option<Point>)
    requires OnLeg(x, y, layer, 0) && calls == StateIndex(x, y, layer, 0) + 1
    requires x' == x + 1 && leg' == if x' == layer then 1 else 0
    requires r == if x' == layer && layer == m then None else Some((cx + x', cy + y))
    ensures OnLeg(x', y, layer, leg') && calls + 1 == StateIndex(x', y, layer, leg') + 1
    ensures r == Translate(cx, cy, Item(m, calls))
  {
    Leg0Step(x, y, layer, x', leg');
    ItemAtState(m, x', y, layer, leg');
  }

  /** A call on leg 1. */
  lemma {:induction false} Leg1Call(m: nat, cx: int, cy: int, calls: nat, x: int, y: int, layer: int, y': int, leg': int, r: Option<Point>)
    requires OnLeg(x, y, layer, 1) && calls == StateIndex(x, y, layer, 1) + 1
    requires y' == y + 1 && leg' == if y' == layer then 2 else 1
    requires r == Some((cx + x, cy + y'))
    ensures OnLeg(x, y', layer, leg') && calls + 1 == StateIndex(x, y', layer, leg') + 1
    ensures r == Translate(cx, cy, Item(m, calls))
  {
    Leg1Step(x, y, layer, y', leg');
    ItemAtState(m, x, y', layer, leg');
  }

  /** A call on leg 2. */
  lemma {:induction false} Leg2Call(m: nat, cx: int, cy: int, calls: nat, x: int, y: int, layer: int, x': int, leg': int, r: Option<Point>)
    requires OnLeg(x, y, layer, 2) && calls == StateIndex(x, y, layer, 2) + 1
    requires x' == x - 1 && leg' == if -x' == layer then 3 else 2
    requires r == Some((cx + x', cy + y))
    ensures OnLeg(x', y, layer, leg') && calls + 1 == StateIndex(x', y, layer, leg') + 1
    ensures r == Translate(cx, cy, Item(m, calls))
  {
    Leg2Step(x, y, layer, x', leg');
    ItemAtState(m, x', y, layer, leg');
  }

  /** A call on leg 3, moving out a ring at the corner. */
  lemma {:induction false} Leg3Call(m: nat, cx: int, cy: int, calls: nat, x: int, y: int, layer: int, y': int, layer': int, leg': int, r: Option<Point>)
    requires OnLeg(x, y, layer, 3) && calls == StateIndex(x, y, layer, 3) + 1
    requires y' == y - 1
    requires if -y' == layer then leg' == 0 && layer' == layer + 1 else leg' == 3 && layer' == layer
    requires r == Some((cx + x, cy + y'))
    ensures OnLeg(x, y', layer', leg') && calls + 1 == StateIndex(x, y', layer', leg') + 1
    ensures r == Translate(cx, cy, Item(m, calls))
  {
    Leg3Step(x, y, layer, y', layer', leg');
    ItemAtState(m, x, y', layer', leg');
  }

  class ChebyshevIterator {
    const maxDistance: u16
    const startX: i32
    const startY: i32

    var x: int
    var y: int
    var layer: int
    /** -1 before the centre is reported, then 0 (x grows), 1 (y grows),
        2 (x shrinks), 3 (y shrinks). */
    var leg: int

    /** How many times `next` has been called. */
    ghost var calls: nat

    ghost predicate Valid()
      reads this
    {
      && (calls == 0 ==> leg == -1 && x == 0 && y == 0 && layer == 1)
      && (calls > 0 ==> OnLeg(x, y, layer, leg) && calls == StateIndex(x, y, layer, leg) + 1)
    }

    constructor (x: i32, y: i32, maxDistance: u16)
      ensures this.maxDistance == maxDistance && startX == x && startY == y
      ensures this.x == 0 && this.y == 0 && layer == 1 && leg == -1
      ensures Valid() && calls == 0
    {
      this.maxDistance := maxDistance;
      startX, startY := x, y;
      this.x, this.y := 0, 0;
      layer, leg := 1, -1;
      calls := 0;
    }

    /** After the first call the iterator stands on the square of radius
        `layer`, except on leg 0, where it is still on the square inside it. */
    lemma {:induction false} OnRing()
      requires Valid() && calls >= 1
      ensures ChebyshevNorm((x, y)) == if leg == 0 then layer - 1 else layer
    {
    }

    /** Call number `calls` (counting from 0) returns `Item(maxDistance, calls)`
        shifted to the centre. */
    method Next() returns (r: Option<Point>)
      requires Valid()
      modifies this
      ensures Valid() && calls == old(calls) + 1
      ensures r == Translate(startX, startY, Item(maxDistance, old(calls)))
      ensures old(leg) == -1 ==> r == Some((startX, startY)) && leg == 0
      ensures leg == old(leg) || (old(leg) < 3 && leg == old(leg) + 1) || (old(leg) == 3 && leg == 0)
      ensures layer == if old(leg) == 3 && leg == 0 then old(layer) + 1 else old(layer)
    {
      ghost var x0, y0, layer0 := x, y, layer;
      if leg == -1 {
        leg := 0;
        r := Some((startX + x, startY + y));
        CentreCall(maxDistance, startX, startY, r);
      } else if leg == 0 {
        x := x + 1;
        r := Some((startX + x, startY + y));
        if x == layer {
          leg := 1;
          if layer == maxDistance as int {
            r := None;
          }
        }
        Leg0Call(maxDistance, startX, startY, calls, x0, y, layer, x, leg, r);
      } else if leg == 1 {
        y := y + 1;
        if y == layer {
          leg := 2;
        }
        r := Some((startX + x, startY + y));
        Leg1Call(maxDistance, startX, startY, calls, x, y0, layer, y, leg, r);
      } else if leg == 2 {
        x := x - 1;
        if -x == layer {
          leg := 3;
        }
        r := Some((startX + x, startY + y));
        Leg2Call(maxDistance, startX, startY, calls, x0, y, layer, x, leg, r);
      } else if leg == 3 {
        y := y - 1;
        if -y == layer {
          leg := 0;
          layer := layer + 1;
        }
        r := Some((startX + x, startY + y));
        Leg3Call(maxDistance, startX, startY, calls, x, y0, layer0, y, layer, leg, r);
      } else {
        assert false;
      }
      calls := calls + 1;
    }
  }
}
