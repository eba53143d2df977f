# spiral: the three spiral iterators in Dafny

The `spiral` crate lists the integer grid points around a centre, ring by
ring. It has three pull iterators, each built with
`new(x, y, max_distance)` and advanced by `next`:

- `ChebyshevIterator` walks square rings. After the centre, ring L walks
  four legs: x + 1, then y + 1, then x − 1, then y − 1. It returns `None`
  when leg 0 reaches `x == layer == max_distance`.
- `ManhattanIterator` walks diamond rings with diagonal steps. It starts
  from the offset (2, −1), so its first step lands on (1, 0). On leg 3 it
  moves out to the next ring with one extra x + 1, and only then tests for
  termination.
- `EuclideanIterator` builds a lookup table of the offsets with
  0 <= x <= y < max_distance. It reports each entry under the eight
  reflections that permute and negate the axes, cycling a reflection
  code `dir` that starts at 7.

The `Spiral` enum groups the three iterators.

Each iterator is a Dafny `class` with the struct's fields. `next` is a
method that updates them, and `new` is the constructor. `build_lut_table`
is a method with the two nested loops. The reflection `match` is a function.

Each class keeps a ghost call counter `calls`. `Next` is proved against a
specification function `Item(m, n)`: what call n reports, as an offset from
the centre. Lemmas about `Item` prove:

- counts;
- exact coverage;
- distinctness;
- the step shapes;
- the first items;
- behaviour after `None`;
- the test and doc-comment grids, cell by cell.

Modules:

- `Common`: `Option`, points, the Rust integer widths, the two norms and
  `Translate`.
- `Rings`: bookkeeping shared by the square and the diamond walk. Ring r
  holds k·r points, and this module locates the n-th point.
- `Chebyshev`, `Manhattan`, `Euclidean`: one module per iterator.
- `Spirals`: the enum.
- `Tests`: the crate's unit tests and doc grids.

Behaviour of the code that the model keeps as it is:

- None of the iterators is fused. Chebyshev and Manhattan set the next leg
  before returning `None`, so a later call resumes the walk on the ring
  outside the radius (`ResumesAfterNone`). Each iterator returns `None`
  once, at the end of its radius; the crate's own tests stop there.
- `ManhattanIterator` tests for termination only after `layer` (which
  starts at 1) has grown. So it never returns `None` when max_distance <= 1
  (`Manhattan.NoneExactly`): with radius 0 or 1 the walk goes on past the
  centre without end.
- `ChebyshevIterator` never returns `None` when max_distance is 0.
- `EuclideanIterator` indexes its table without a bounds check, so `Next`
  requires `i < |lut|`.
- Euclidean reports duplicates: the centre is in the table twice, and
  entries on an axis or a diagonal have equal reflections.
- Euclidean never reports the last entry's reflection 7, because that call
  returns `None`.
- Euclidean orders offsets by max(|x|, |y|), not by Euclidean distance
  (`NotEuclideanOrder`).

`start_x`, `start_y`, `max_distance` and the Euclidean table are never
written by `next`. They are `const` fields of the classes.

## Model

| member | source | states |
|---|---|---|
| Chebyshev.ChebyshevIterator.constructor | src/lib.rs:56-67 | the iterator starts at offset (0, 0), layer 1, leg −1 (centre), with the given centre and max_distance, before call 0 |
| Chebyshev.ChebyshevIterator.Next | src/lib.rs:73-112 | call n returns the centre plus `Item(max_distance, n)`; the first call returns the centre and sets leg 0; leg only cycles 0→1→2→3→0 and layer grows by 1 exactly on the 3→0 change; the iterator invariant is kept |
| Chebyshev.ChebyshevIterator.OnRing | src/lib.rs:79-107 | after the first call the offset lies on the square ring `layer`, except on leg 0, where it is still on ring `layer − 1` |
| Chebyshev.RingPoint | src/lib.rs:79-107 | point `pos` of square ring r (in walk order) has max(\|x\|, \|y\|) == r |
| Chebyshev.RingPosition | src/lib.rs:79-107 | every point of square ring r ≥ 1 is walked, at a position inside the ring |
| Chebyshev.RingPositionOf | src/lib.rs:79-107 | each point of a square ring is walked at one position only |
| Chebyshev.WalkReaches | src/lib.rs:79-107 | the unbounded square walk reaches every offset of the plane |
| Chebyshev.WalkOnce | src/lib.rs:79-107 | the unbounded square walk visits each offset once |
| Chebyshev.RingSteps | src/lib.rs:79-107 | along a square ring consecutive points are 4-adjacent |
| Chebyshev.RingChangeSteps | src/lib.rs:101-107 | the last point of ring r and the first of ring r + 1 are 4-adjacent |
| Chebyshev.WalkSteps | src/lib.rs:79-107 | consecutive offsets of the square walk are 4-adjacent |
| Chebyshev.ItemSteps | src/lib.rs:79-107 | consecutive items that are both reported are 4-adjacent |
| Chebyshev.RingStartSquare | src/lib.rs:79-107 | square ring m starts at call (2m − 1)² |
| Chebyshev.Item | src/lib.rs:73-111 | what call n (counting from 0) of `next` returns: the n-th point of the unbounded square walk (ring by ring, each ring from its leg-0 start), except that call RingStart(m) returns None when m ≥ 1; its meaning is stated by the lemmas below |
| Chebyshev.NoneExactly | src/lib.rs:81-86 | a call returns None iff max_distance m ≥ 1 and it is call (2m − 1)² |
| Chebyshev.OrderCovers | src/lib.rs:79-88 | the offsets reported before ring m are exactly those with max(\|x\|, \|y\|) < m |
| Chebyshev.OrderDistinct | src/lib.rs:79-88 | no offset is reported twice before the None |
| Chebyshev.Exhausts | src/lib.rs:79-88 | for m ≥ 1 the iterator reports (2m − 1)² offsets, which cover the square max(\|x\|, \|y\|) ≤ m − 1, each once, then None |
| Chebyshev.ResumesAfterNone | src/lib.rs:82-85 | the call after the None reports (m, 2 − m), on ring m |
| Chebyshev.ItemAtPoint | src/lib.rs:79-88 | the call that walks to an offset reports it, except the first point (m, 1 − m) of ring m |
| Chebyshev.StateIndexIsWalkIndex | src/lib.rs:79-107 | the (x, y, layer, leg) state names the walk step that reached (x, y) |
| Chebyshev.ItemAtState | src/lib.rs:79-111 | the call that moves to a leg state reports its point, or None at (m, 1 − m) |
| Chebyshev.Leg0Step | src/lib.rs:79-88 | a leg-0 step (x + 1, turning at x == layer) keeps a valid leg state one walk step further on |
| Chebyshev.Leg1Step | src/lib.rs:89-94 | a leg-1 step (y + 1, turning at y == layer) keeps a valid leg state one walk step further on |
| Chebyshev.Leg2Step | src/lib.rs:95-100 | a leg-2 step (x − 1, turning at −x == layer) keeps a valid leg state one walk step further on |
| Chebyshev.Leg3Step | src/lib.rs:101-107 | a leg-3 step (y − 1, moving to the next layer at −y == layer) keeps a valid leg state one walk step further on |
| Chebyshev.CentreCall | src/lib.rs:76-78 | the first call reports the centre |
| Chebyshev.Leg0Call | src/lib.rs:79-88 | a leg-0 call returns the centre plus `Item(m, n)`, None exactly when it reaches x == layer == max_distance |
| Chebyshev.Leg1Call | src/lib.rs:89-94 | a leg-1 call returns the centre plus `Item(m, n)` |
| Chebyshev.Leg2Call | src/lib.rs:95-100 | a leg-2 call returns the centre plus `Item(m, n)` |
| Chebyshev.Leg3Call | src/lib.rs:101-107 | a leg-3 call returns the centre plus `Item(m, n)`, including the move to the next layer |
| Manhattan.ManhattanIterator.constructor | src/lib.rs:160-171 | the iterator starts at offset (2, −1), layer 1, leg −1, with the given centre and max_distance, before call 0 |
| Manhattan.ManhattanIterator.Next | src/lib.rs:177-223 | call n returns the centre plus `Item(max_distance, n)`; the first call returns the centre without moving x and y and sets leg 0; leg only cycles 0→1→2→3→0 and layer grows by 1 exactly on the 3→0 change; the iterator invariant is kept |
| Manhattan.ManhattanIterator.OnRing | src/lib.rs:185-218 | from the second call on, \|x\| + \|y\| == layer |
| Manhattan.RingPoint | src/lib.rs:185-218 | point `pos` of diamond ring r (in walk order) has \|x\| + \|y\| == r |
| Manhattan.RingPosition | src/lib.rs:185-218 | every point of diamond ring r ≥ 1 is walked, at a position inside the ring |
| Manhattan.RingPositionOf | src/lib.rs:185-218 | each point of a diamond ring is walked at one position only |
| Manhattan.WalkReaches | src/lib.rs:185-218 | the unbounded diamond walk reaches every offset of the plane |
| Manhattan.WalkOnce | src/lib.rs:185-218 | the unbounded diamond walk visits each offset once |
| Manhattan.RingSteps | src/lib.rs:185-205 | along a diamond ring x and y each change by ±1 together |
| Manhattan.RingChangeSteps | src/lib.rs:206-212 | from the last point of ring r the walk moves (+2, +1) to the first point of ring r + 1 |
| Manhattan.WalkSteps | src/lib.rs:185-218 | after the centre, consecutive offsets are diagonal neighbours on one ring, or the (+2, +1) jump one ring out |
| Manhattan.ItemSteps | src/lib.rs:185-218 | the same for consecutive reported items from call 1 on |
| Manhattan.RingStartDiamond | src/lib.rs:185-218 | diamond ring m ≥ 1 starts at call 1 + 2m(m − 1) |
| Manhattan.Item | src/lib.rs:177-222 | what call n (counting from 0) of `next` returns: the n-th point of the unbounded diamond walk, except that call RingStart(m) returns None when m ≥ 2; its meaning is stated by the lemmas below |
| Manhattan.NoneExactly | src/lib.rs:206-216 | a call returns None iff max_distance m ≥ 2 and it is call 1 + 2m(m − 1); for m ≤ 1 the iterator never ends |
| Manhattan.OrderCovers | src/lib.rs:185-218 | the offsets reported before ring m are exactly those with \|x\| + \|y\| < m |
| Manhattan.OrderDistinct | src/lib.rs:185-218 | no offset is reported twice before the None |
| Manhattan.Exhausts | src/lib.rs:185-218 | for m ≥ 2 the iterator reports 1 + 2m(m − 1) offsets, which cover the diamond \|x\| + \|y\| ≤ m − 1, each once, then None |
| Manhattan.FirstItems | src/lib.rs:166-191 | the first call reports the centre and the second the offset (1, 0), whatever max_distance is |
| Manhattan.ResumesAfterNone | src/lib.rs:209-216 | the call after the None reports (m − 1, 1), on ring m |
| Manhattan.ItemAtPoint | src/lib.rs:185-218 | the call that walks to an offset reports it, except the first point (m, 0) of ring m |
| Manhattan.StateIndexIsWalkIndex | src/lib.rs:185-218 | the (x, y, layer, leg) state names the walk step that reached (x, y) |
| Manhattan.ItemAtState | src/lib.rs:185-222 | the call that moves to a leg state reports its point, or None at (m, 0) |
| Manhattan.CentreCall | src/lib.rs:180-184 | the first call reports the centre |
| Manhattan.Leg0Call | src/lib.rs:185-191 | a leg-0 call (x − 1, y + 1, turning at x == 0), including the first one from (2, −1), returns the centre plus `Item(m, n)` and keeps a valid leg state |
| Manhattan.Leg1Call | src/lib.rs:192-198 | a leg-1 call (x − 1, y − 1, turning at y == 0) returns the centre plus `Item(m, n)` and keeps a valid leg state |
| Manhattan.Leg2Call | src/lib.rs:199-205 | a leg-2 call (x + 1, y − 1, turning at x == 0) returns the centre plus `Item(m, n)` and keeps a valid leg state |
| Manhattan.Leg3Call | src/lib.rs:206-218 | a leg-3 call (x + 1, y + 1; at y == 0 one more x + 1, the next layer and None if it is max_distance) returns the centre plus `Item(m, n)` |
| Euclidean.LutTable | src/lib.rs:273-285 | what `build_lut_table(m)` returns: the centre (0, 0), then the rows y = 0 … m − 1, each (0, y) … (y, y); its length, index formula and bounds are the lemmas below |
| Euclidean.LutLength | src/lib.rs:273-285 | the table of max_distance m has 1 + m(m + 1)/2 entries |
| Euclidean.LutAt | src/lib.rs:278-282 | entry (x, y) with x ≤ y < m sits at index 1 + y(y + 1)/2 + x: rows in order of y, x growing along a row |
| Euclidean.EntryIndex | src/lib.rs:278-282 | every octant entry (x, y) with y < m has an index k ≥ 1 in the table; off the diagonal entry k + 1 is in the table too |
| Euclidean.LutLengthMonotone | src/lib.rs:278-282 | a table for a larger radius is at least as long |
| Euclidean.LutEntries | src/lib.rs:273-285 | entry 0 is (0, 0); every other entry has 0 ≤ x ≤ y < m; y never decreases along the table |
| Euclidean.BuildLutTable | src/lib.rs:273-285 | the nested loops build exactly the table (the centre, then rows 0 to m − 1); a negative max_distance gives only the centre |
| Euclidean.Reflect | src/lib.rs:295-306 | a reflection exists exactly for the codes 0 to 7 |
| Euclidean.ReflectKeepsDistance | src/lib.rs:295-306 | the eight reflections keep max(\|x\|, \|y\|) and x² + y² |
| Euclidean.Dir | src/lib.rs:308-316 | the reflection code of every call is below 8 |
| Euclidean.Item | src/lib.rs:291-319 | what call n (counting from 0) of `next` returns on table lut: reflection (7 + n) mod 8 of entry (7 + n) div 8, except that the call that would take reflection 7 past the last entry returns None |
| Euclidean.EntryDir | src/lib.rs:308-316 | call 8k + d − 7 reads entry k under reflection d |
| Euclidean.CallOf | src/lib.rs:308-316 | reflection d of entry k is reported by a call before the None, unless it is reflection 7 of the last entry |
| Euclidean.EntryInside | src/lib.rs:292-293 | call n reads inside a table of L entries iff n ≤ 8(L − 1) |
| Euclidean.EntryMonotone | src/lib.rs:308-316 | later calls read the same or a later entry |
| Euclidean.NoneExactly | src/lib.rs:308-316 | the only call that returns None is call 8(\|lut\| − 1) |
| Euclidean.CountTable | src/lib.rs:291-319 | every call before 8(\|lut\| − 1) reads inside the table and reports an offset; that call returns None |
| Euclidean.CallCount | src/lib.rs:273-316 | the table for max_distance m is read by 4m(m + 1) calls before the None |
| Euclidean.Count | src/lib.rs:262-319 | for max_distance m the iterator reports 4m(m + 1) offsets, then None |
| Euclidean.ItemNorm | src/lib.rs:291-306 | a reported offset's max(\|x\|, \|y\|) is the row y of the entry read |
| Euclidean.ItemInSquare | src/lib.rs:291-319 | every reported offset has max(\|x\|, \|y\|) < m |
| Euclidean.Unreflect | src/lib.rs:295-306 | every offset is a reflection of an entry 0 ≤ x ≤ y; reflection 7 is needed only off the diagonal |
| Euclidean.SquareInItems | src/lib.rs:291-319 | every offset with max(\|x\|, \|y\|) < m is reported by some call before the None |
| Euclidean.NormMonotone | src/lib.rs:278-319 | max(\|x\|, \|y\|) of the reported offsets never decreases |
| Euclidean.NotEuclideanOrder | src/lib.rs:278-319 | for m ≥ 5, call 73 reports (3, 3) and call 81 the nearer (0, 4): the order is not by Euclidean distance |
| Euclidean.CentreRepeated | src/lib.rs:273-316 | the first nine calls (eight when m == 1) all report the centre |
| Euclidean.EuclideanIterator.constructor | src/lib.rs:262-271 | the iterator holds the table `build_lut_table(max_distance)`, i == 0, dir == 7, before call 0 |
| Euclidean.EuclideanIterator.Next | src/lib.rs:291-319 | requires i < \|lut\|; call n returns the centre plus `Item(lut, n)`; dir cycles 0..7 and i grows by 1 exactly when dir wraps from 7 |
| Tests.ChebyshevTest | src/lib.rs:416-433 | `ChebyshevIterator::new(2, 2, 3)` reports the 25 cells of the 5 × 5 test grid in its numbering, then None |
| Tests.ChebyshevTestCell | src/lib.rs:425-432 | one checked item of that test |
| Tests.ChebyshevTestRun | src/lib.rs:425-432 | the test loop drains the iterator class, asserts for every item that it lands on the grid cell numbered by its position (the `assert_eq!` of the loop), and takes 25 items |
| Tests.ManhattanTest | src/lib.rs:397-414 | `ManhattanIterator::new(2, 2, 3)` reports the 13 numbered cells of the 5 × 5 test grid in their numbering, then None |
| Tests.ManhattanTestCell | src/lib.rs:406-413 | one checked item of that test |
| Tests.ManhattanTestRun | src/lib.rs:406-413 | the test loop drains the iterator class, asserts for every item that it lands on the grid cell numbered by its position (the `assert_eq!` of the loop), and takes 13 items |
| Tests.ChebyshevDoc | src/lib.rs:43-53 | `ChebyshevIterator::new(3, 3, 4)` follows the 7 × 7 doc grid: 49 items, then None |
| Tests.ManhattanDocInner | src/lib.rs:151-157 | the first 13 items of `ManhattanIterator::new(3, 3, 4)` follow the 7 × 7 doc grid |
| Tests.ManhattanDocOuter | src/lib.rs:151-157 | items 13 to 24 follow the doc grid |
| Tests.ManhattanDocOuterFirst | src/lib.rs:151-157 | items 13 to 18 (the first half of the outer ring) follow the doc grid |
| Tests.ManhattanDocOuterSecond | src/lib.rs:151-157 | items 19 to 24 (the second half of the outer ring) follow the doc grid |
| Tests.ManhattanDoc | src/lib.rs:151-157 | `ManhattanIterator::new(3, 3, 4)` follows the 7 × 7 doc grid: 25 items, then None |
| Tests.EuclideanOutputRun | src/lib.rs:355-363 | draining `EuclideanIterator::new(3, 3, 4)` meets the table-bounds precondition of every call, writes only inside the 7 × 7 buffer and takes 80 items |

## Left out

- Integer widths: centres are `i32` and max_distance is `u16`. The walk
  state and the reported points are unbounded `int`s. The model does not
  capture the panic (debug builds) or wrap-around (release builds) of
  `start + offset` near the ends of the `i32` range.
- The catch-all arms of `next` (src/lib.rs:108, 219) cannot be reached.
  The class invariants keep `leg` in −1..3, and the model proves that
  branch dead.
- The reflection catch-all (src/lib.rs:305) is kept in `Reflect`, which
  returns None for codes ≥ 8. The class invariant keeps `dir` below 8, so
  `Next` never takes that arm.
- Chebyshev.ChebyshevIterator.Next: the 4-adjacency of consecutive items is
  not in the method's own contract. It follows from its `Item` postcondition
  and `Chebyshev.ItemSteps`; stating it per call made the proof too costly.
- Manhattan.ManhattanIterator.Next: the diagonal step and \|x\| + \|y\| ==
  layer are not in the method's own contract. They follow from its `Item`
  postcondition, `Manhattan.ItemSteps` and `ManhattanIterator.OnRing`.
- The crate's `Iterator` trait plumbing: only `next` is modelled. A `for`
  loop over an iterator appears as the loops of the `Tests` methods.
- The `Spiral` enum has no behaviour. It is a datatype over the three
  classes.
- The printing of the `output` test (src/lib.rs:326-395) is I/O. Only
  its Euclidean loop is modelled, as a bounds check (`Tests.EuclideanOutputRun`).
  The Manhattan and Chebyshev loops of that test draw the doc grids covered
  by `Tests.ManhattanDoc` and `Tests.ChebyshevDoc`.
- Allocation failure of the table `Vec` is not modelled. The table is a
  `seq`.
- benches/benchmarks.rs only times the iterators and is not part of this
  model.
- Two doc-comment slips are not behaviour and are not modelled: the
  Manhattan example builds a `ChebyshevIterator` (src/lib.rs:145-147), and
  the Euclidean doc calls its spiral diamond-shaped (src/lib.rs:232).
