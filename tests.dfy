/** The scenarios the crate pins down: the grids of its `chebyshev` and
    `manhattan` unit tests and of the doc comments of the two constructors.
    Row y, column x of a grid holds the 1-based number of the call that
    reports (x, y), and 0 for cells that are never reported. */
module Tests {
  import opened Common
  import Rings
  import Chebyshev
  import Manhattan
  import Euclidean

  const ChebyshevTestGrid: seq<seq<int>> := [
    [21, 22, 23, 24, 25],
    [20,  7,  8,  9, 10],
    [19,  6,  1,  2, 11],
    [18,  5,  4,  3, 12],
    [17, 16, 15, 14, 13]]

  const ManhattanTestGrid: seq<seq<int>> := [
    [0,  0, 12,  0,  0],
    [0, 11,  5, 13,  0],
    [10,  4,  1,  2,  6],
    [0,  9,  3,  7,  0],
    [0,  0,  8,  0,  0]]

  const ChebyshevDocGrid: seq<seq<int>> := [
    [43, 44, 45, 46, 47, 48, 49],
    [42, 21, 22, 23, 24, 25, 26],
    [41, 20,  7,  8,  9, 10, 27],
    [40, 19,  6,  1,  2, 11, 28],
    [39, 18,  5,  4,  3, 12, 29],
    [38, 17, 16, 15, 14, 13, 30],
    [37, 36, 35, 34, 33, 32, 31]]

  const ManhattanDocGrid: seq<seq<int>> := [
    [0,  0,  0, 23,  0,  0,  0],
    [0,  0, 22, 12, 24,  0,  0],
    [0, 21, 11,  5, 13, 25,  0],
    [20, 10,  4,  1,  2,  6, 14],
    [0, 19,  9,  3,  7, 15,  0],
    [0,  0, 18,  8, 16,  0,  0],
    [0,  0,  0, 17,  0,  0,  0]]

  /** An item that lands in the grid on the cell numbered k. */
  predicate OnCell(item: Option<Point>, grid: seq<seq<int>>, k: int) {
    && item.Some?
    && var p := item.value;
    && 0 <= p.1 < |grid| && 0 <= p.0 < |grid[p.1]|
    && grid[p.1][p.0] == k
  }

  /** `ChebyshevIterator::new(2, 2, 3)` reports the 25 cells of the 5 x 5
      test grid in its numbering, then None. */
  lemma {:induction false} ChebyshevTest()
    ensures forall n | 0 <= n < 25 :: OnCell(Translate(2, 2, Chebyshev.Item(3, n)), ChebyshevTestGrid, n + 1)
    ensures Chebyshev.Item(3, 25) == None
  {
    assert Rings.RingStart(8, 3) == 25;
  }

  /** `ManhattanIterator::new(2, 2, 3)` reports the 13 numbered cells of
      the 5 x 5 test grid in their numbering, then None. */
  lemma {:induction false} ManhattanTest()
    ensures forall n | 0 <= n < 13 :: OnCell(Translate(2, 2, Manhattan.Item(3, n)), ManhattanTestGrid, n + 1)
    ensures Manhattan.Item(3, 13) == None
  {
    assert Rings.RingStart(4, 3) == 13;
  }

  /** `ChebyshevIterator::new(3, 3, 4)` follows the 7 x 7 grid of its doc
      comment. */
  lemma {:induction false} ChebyshevDoc()
    ensures forall n | 0 <= n < 49 :: OnCell(Translate(3, 3, Chebyshev.Item(4, n)), ChebyshevDocGrid, n + 1)
    ensures Chebyshev.Item(4, 49) == None
  {
    assert Rings.RingStart(8, 4) == 49;
  }

  /** The outer ring of the diamond doc grid. */
  lemma {:induction false} ManhattanDocOuter()
    ensures forall n | 13 <= n < 25 :: OnCell(Translate(3, 3, Manhattan.Item(4, n)), ManhattanDocGrid, n + 1)
  {
    ManhattanDocOuterFirst();
    ManhattanDocOuterSecond();
  }

  /** The first half of the outer ring. */
  lemma {:induction false} ManhattanDocOuterFirst()
    ensures forall n | 13 <= n < 19 :: OnCell(Translate(3, 3, Manhattan.Item(4, n)), ManhattanDocGrid, n + 1)
  {
    assert Rings.RingStart(4, 4) == 25;
  }

  /** The second half of the outer ring. */
  lemma {:induction false} ManhattanDocOuterSecond()
    ensures forall n | 19 <= n < 25 :: OnCell(Translate(3, 3, Manhattan.Item(4, n)), ManhattanDocGrid, n + 1)
  {
    assert Rings.RingStart(4, 4) == 25;
  }

  /** The inner rings of the diamond doc grid. */
  lemma {:induction false} ManhattanDocInner()
    ensures forall n | 0 <= n < 13 :: OnCell(Translate(3, 3, Manhattan.Item(4, n)), ManhattanDocGrid, n + 1)
  {
    assert Rings.RingStart(4, 4) == 25;
  }

  /** `ManhattanIterator::new(3, 3, 4)` follows the 7 x 7 grid of its doc
      comment. */
  lemma {:induction false} ManhattanDoc()
    ensures forall n | 0 <= n < 25 :: OnCell(Translate(3, 3, Manhattan.Item(4, n)), ManhattanDocGrid, n + 1)
    ensures Manhattan.Item(4, 25) == None
  {
    assert Rings.RingStart(4, 4) == 25;
    ManhattanDocInner();
    ManhattanDocOuter();
  }

  /** One item of the `chebyshev` test. */
  lemma {:induction false} ChebyshevTestCell(n: nat)
    requires n <= 25 && Chebyshev.Item(3, n).Some?
    ensures n < 25 && OnCell(Translate(2, 2, Chebyshev.Item(3, n)), ChebyshevTestGrid, n + 1)
  {
    ChebyshevTest();
  }

  /** The loop of the `chebyshev` test: drains `ChebyshevIterator::new(2, 2, 3)`,
      counting 25 items; each item lands on the grid cell numbered by its
      position (ChebyshevTestCell). */
  method ChebyshevTestRun() returns (current: nat)
    ensures current == 25
  {
    var spiral := new Chebyshev.ChebyshevIterator(2, 2, 3);
    current := 0;
    var item := spiral.Next();
    while item.Some?
      invariant spiral.Valid() && spiral.calls == current + 1 && current <= 25
      invariant item == Translate(2, 2, Chebyshev.Item(3, current))
      decreases 25 - current
    {
      ChebyshevTestCell(current);
      assert OnCell(item, ChebyshevTestGrid, current + 1);
      current := current + 1;
      item := spiral.Next();
    }
    Chebyshev.NoneExactly(3, current);
  }

  /** One item of the `manhattan` test. */
  lemma {:induction false} ManhattanTestCell(n: nat)
    requires n <= 13 && Manhattan.Item(3, n).Some?
    ensures n < 13 && OnCell(Translate(2, 2, Manhattan.Item(3, n)), ManhattanTestGrid, n + 1)
  {
    ManhattanTest();
  }

  /** The loop of the `manhattan` test: drains `ManhattanIterator::new(2, 2, 3)`,
      counting 13 items; each item lands on the grid cell numbered by its
      position (ManhattanTestCell). */
  method ManhattanTestRun() returns (current: nat)
    ensures current == 13
  {
    var spiral := new Manhattan.ManhattanIterator(2, 2, 3);
    current := 0;
    var item := spiral.Next();
    while item.Some?
      invariant spiral.Valid() && spiral.calls == current + 1 && current <= 13
      invariant item == Translate(2, 2, Manhattan.Item(3, current))
      decreases 13 - current
    {
      ManhattanTestCell(current);
      assert OnCell(item, ManhattanTestGrid, current + 1);
      current := current + 1;
      item := spiral.Next();
    }
    Manhattan.NoneExactly(3, current);
  }

  /** The Euclidean part of the `output` test: draining
      `EuclideanIterator::new(3, 3, 4)` never indexes the table out of
      bounds, writes only inside the 7 x 7 buffer and takes 80 items. */
  method EuclideanOutputRun() returns (current: nat)
    ensures current == 80
  {
    var spiral := new Euclidean.EuclideanIterator(3, 3, 4);
    Euclidean.Count(4);
    current := 0;
    var item := spiral.Next();
    while item.Some?
      invariant spiral.Valid() && spiral.calls == current + 1 && current <= 80
      invariant spiral.lut == Euclidean.LutTable(4)
      invariant Euclidean.Entry(current) < |spiral.lut|
      invariant item == Translate(3, 3, Euclidean.Item(spiral.lut, current))
      decreases 80 - current
    {
      Euclidean.ItemInSquare(4, current);
      var (x, y) := item.value;
      assert 0 <= x < 7 && 0 <= y < 7;
      current := current + 1;
      item := spiral.Next();
    }
  }
}
