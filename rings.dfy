/** Bookkeeping shared by the square and the diamond spiral: the walk visits
    ring 0 (the centre, one point), then ring 1, ring 2, ..., where ring
    r >= 1 holds k * r points (k = 8 for squares, 4 for diamonds). The n-th
    point of the walk is identified by its ring and its position on it. */
module Rings {

  /** Number of points on ring `ring`. */
  function RingSize(k: nat, ring: nat): (r: nat)
    requires k >= 1
    ensures r >= 1
  {
    if ring == 0 then 1 else k * ring
  }

  /** Index, in walk order, of the first point of ring `ring`: the number of
      points on the rings inside it. */
  function RingStart(k: nat, ring: nat): nat
    requires k >= 1
  {
    if ring == 0 then 0 else RingStart(k, ring - 1) + RingSize(k, ring - 1)
  }

  /** The ring and position of the point `n` steps after the first point of
      ring `from`. */
  function LocateFrom(k: nat, from: nat, n: nat): (r: (nat, nat))
    requires k >= 1
    ensures r.0 >= from && r.1 < RingSize(k, r.0)
    ensures RingStart(k, r.0) + r.1 == RingStart(k, from) + n
    decreases n
  {
    if n < RingSize(k, from) then (from, n)
    else LocateFrom(k, from + 1, n - RingSize(k, from))
  }

  /** The ring and position of the n-th point of the walk. */
  function Locate(k: nat, n: nat): (r: (nat, nat))
    requires k >= 1
    ensures r.1 < RingSize(k, r.0) && RingStart(k, r.0) + r.1 == n
  {
    LocateFrom(k, 0, n)
  }

  /** Rings start further out the further out they are. */
  lemma {:induction false} RingStartMonotone(k: nat, a: nat, b: nat)
    requires k >= 1 && a < b
    ensures RingStart(k, a) + RingSize(k, a) <= RingStart(k, b)
    decreases b
  {
    if a + 1 < b {
      RingStartMonotone(k, a, b - 1);
    }
  }

  /** Two (ring, position) pairs that name the same index are the same pair. */
  lemma {:induction false} SameIndex(k: nat, a: nat, b: nat, ring: nat, pos: nat)
    requires k >= 1 && b < RingSize(k, a) && pos < RingSize(k, ring)
    requires RingStart(k, a) + b == RingStart(k, ring) + pos
    ensures a == ring && b == pos
  {
    if a < ring {
      RingStartMonotone(k, a, ring);
    } else if ring < a {
      RingStartMonotone(k, ring, a);
    }
  }

  /** A ring and a position on it name exactly one index, and back. */
  lemma {:induction false} LocateAt(k: nat, ring: nat, pos: nat)
    requires k >= 1 && pos < RingSize(k, ring)
    ensures Locate(k, RingStart(k, ring) + pos) == (ring, pos)
  {
    var r := Locate(k, RingStart(k, ring) + pos);
    SameIndex(k, r.0, r.1, ring, pos);
  }

  /** The n-th point lies inside ring m exactly when n precedes ring m's start. */
  lemma {:induction false} InsideRing(k: nat, m: nat, n: nat)
    requires k >= 1
    ensures Locate(k, n).0 < m <==> n < RingStart(k, m)
  {
    var r := Locate(k, n);
    if r.0 < m {
      RingStartMonotone(k, r.0, m);
    } else if m < r.0 {
      RingStartMonotone(k, m, r.0);
    }
  }
}
