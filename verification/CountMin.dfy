/** Count-min sketches: a row-major matrix of counters in which an element owns
    one cell per row. The two hash functions are parameters. */
module CountMin {
  import opened Bytes

  datatype Sketch = Sketch(width: nat, depth: nat, h1: Bytes -> u64, h2: Bytes -> u64) {
    predicate Valid() { width > 0 && depth > 0 }

    /** h1 + row * h2 in wrapping 64-bit arithmetic, modulo the width. */
    function Column(e: Bytes, row: nat): (c: nat)
      requires width > 0
      ensures c < width
    {
      ((h1(e) + row * h2(e)) % (U64_MAX + 1)) % width
    }

    function Cell(e: Bytes, row: nat): nat
      requires width > 0
    {
      row * width + Column(e, row)
    }

    predicate Holds(c: seq<int>) {
      Valid() && |c| == width * depth
    }
  }

  lemma CellInRange(s: Sketch, row: nat, col: nat)
    requires s.Valid() && row < s.depth && col < s.width
    ensures row * s.width + col < s.width * s.depth
  {
    var last := s.depth - 1;
    assert row * s.width <= last * s.width;
    assert last * s.width + s.width == s.depth * s.width;
  }

  lemma CellsDiffer(width: nat, row: nat, col: nat, row': nat, col': nat)
    requires col < width && col' < width && row < row'
    ensures row * width + col < row' * width + col'
  {
    assert (row + 1) * width <= row' * width;
    assert (row + 1) * width == row * width + width;
  }

  /** The counters after the first `k` rows of `e` have grown by `n`. */
  function Bump(s: Sketch, c: seq<int>, e: Bytes, n: int, k: nat): (c': seq<int>)
    requires s.Holds(c) && k <= s.depth
    ensures |c'| == |c|
    decreases k
  {
    if k == 0 then c
    else
      CellInRange(s, k - 1, s.Column(e, k - 1));
      var b := Bump(s, c, e, n, k - 1);
      b[s.Cell(e, k - 1) := b[s.Cell(e, k - 1)] + n]
  }

  function Incremented(s: Sketch, c: seq<int>, e: Bytes, n: int): (c': seq<int>)
    requires s.Holds(c)
    ensures |c'| == |c|
  {
    Bump(s, c, e, n, s.depth)
  }

  function At(s: Sketch, c: seq<int>, row: nat, col: nat): int
    requires s.Holds(c) && row < s.depth && col < s.width
  {
    CellInRange(s, row, col);
    c[row * s.width + col]
  }

  lemma BumpOne(s: Sketch, c: seq<int>, e: Bytes, n: int, row: nat)
    requires s.Holds(c) && row < s.depth
    ensures s.Cell(e, row) < |c|
    ensures Bump(s, c, e, n, 0) == c
    ensures Bump(s, c, e, n, row + 1)
         == var b := Bump(s, c, e, n, row); b[s.Cell(e, row) := b[s.Cell(e, row)] + n]
  {
    CellInRange(s, row, s.Column(e, row));
  }

  lemma OwnCell(s: Sketch, c: seq<int>, e: Bytes, row: nat)
    requires s.Holds(c) && row < s.depth
    ensures s.Cell(e, row) < |c| && c[s.Cell(e, row)] == At(s, c, row, s.Column(e, row))
  {
    CellInRange(s, row, s.Column(e, row));
  }

  lemma UpdateAt(s: Sketch, c: seq<int>, row': nat, col': nat, v: int, row: nat, col: nat)
    requires s.Holds(c) && row < s.depth && col < s.width && row' < s.depth && col' < s.width
    requires row' * s.width + col' < |c|
    ensures At(s, c[row' * s.width + col' := v], row, col)
         == if row == row' && col == col' then v else At(s, c, row, col)
  {
    CellInRange(s, row, col);
    if row < row' {
      CellsDiffer(s.width, row, col, row', col');
    } else if row > row' {
      CellsDiffer(s.width, row', col', row, col);
    }
  }

  /** Only the element's own cell of each row grows. */
  lemma {:induction false} BumpAt(s: Sketch, c: seq<int>, e: Bytes, n: int, k: nat, row: nat, col: nat)
    requires s.Holds(c) && k <= s.depth && row < s.depth && col < s.width
    ensures At(s, Bump(s, c, e, n, k), row, col)
         == At(s, c, row, col) + if row < k && col == s.Column(e, row) then n else 0
    decreases k
  {
    hide Sketch.Column, At, Bump;
    BumpOne(s, c, e, n, 0);
    if k > 0 {
      BumpOne(s, c, e, n, k - 1);
      BumpAt(s, c, e, n, k - 1, row, col);
      var b := Bump(s, c, e, n, k - 1);
      OwnCell(s, b, e, k - 1);
      UpdateAt(s, b, k - 1, s.Column(e, k - 1), b[s.Cell(e, k - 1)] + n, row, col);
    }
  }

  // ---------------------------------------------------------------------
  // Estimates
  // ---------------------------------------------------------------------

  /** The least of the element's cells in the first `k` rows, starting from the largest i64. */
  function MinTo(s: Sketch, c: seq<int>, e: Bytes, k: nat): int
    requires s.Holds(c) && k <= s.depth
    decreases k
  {
    if k == 0 then I64_MAX else Least(MinTo(s, c, e, k - 1), At(s, c, k - 1, s.Column(e, k - 1)))
  }

  function Estimate(s: Sketch, c: seq<int>, e: Bytes): int
    requires s.Holds(c)
  {
    MinTo(s, c, e, s.depth)
  }

  ghost predicate Bounded(s: Sketch, c: seq<int>) {
    s.Holds(c) && forall i :: 0 <= i < |c| ==> -(I64_MAX + 1) <= c[i] <= I64_MAX
  }

  lemma AtBounded(s: Sketch, c: seq<int>, row: nat, col: nat)
    requires Bounded(s, c) && row < s.depth && col < s.width
    ensures -(I64_MAX + 1) <= At(s, c, row, col) <= I64_MAX
  {
    CellInRange(s, row, col);
  }

  /** Every cell of `e` is at least `low`, so its estimate is too. */
  lemma {:induction false} MinAtLeast(s: Sketch, c: seq<int>, e: Bytes, k: nat, low: int)
    requires s.Holds(c) && k <= s.depth && low <= I64_MAX
    requires forall row :: 0 <= row < k ==> low <= At(s, c, row, s.Column(e, row))
    ensures low <= MinTo(s, c, e, k)
    decreases k
  {
    if k > 0 {
      MinAtLeast(s, c, e, k - 1, low);
    }
  }

  lemma {:induction false} MinAtMost(s: Sketch, c: seq<int>, e: Bytes, k: nat, row: nat)
    requires s.Holds(c) && k <= s.depth && row < k
    ensures MinTo(s, c, e, k) <= At(s, c, row, s.Column(e, row))
    decreases k
  {
    if row < k - 1 {
      MinAtMost(s, c, e, k - 1, row);
    }
  }

  /** Raising cells raises estimates; an element's own estimate rises by the whole increment. */
  lemma IncrementRaises(s: Sketch, c: seq<int>, e: Bytes, n: nat, x: Bytes)
    requires s.Holds(c) && Bounded(s, c) && Bounded(s, Incremented(s, c, e, n))
    ensures Estimate(s, Incremented(s, c, e, n), x) >= Estimate(s, c, x)
    ensures Estimate(s, Incremented(s, c, e, n), e) >= Estimate(s, c, e) + n
  {
    var c' := Incremented(s, c, e, n);
    forall row | 0 <= row < s.depth
      ensures At(s, c', row, s.Column(x, row)) >= Estimate(s, c, x)
      ensures At(s, c', row, s.Column(e, row)) >= Estimate(s, c, e) + n
    {
      BumpAt(s, c, e, n, s.depth, row, s.Column(x, row));
      BumpAt(s, c, e, n, s.depth, row, s.Column(e, row));
      MinAtMost(s, c, x, s.depth, row);
      MinAtMost(s, c, e, s.depth, row);
    }
    MinAtMost(s, c, x, s.depth, 0);
    MinAtMost(s, c, e, s.depth, 0);
    CellInRange(s, 0, s.Column(x, 0));
    CellInRange(s, 0, s.Column(e, 0));
    MinAtLeast(s, c', x, s.depth, Estimate(s, c, x));
    MinAtLeast(s, c', e, s.depth, Estimate(s, c, e) + n);
  }

  // ---------------------------------------------------------------------
  // Overflow
  // ---------------------------------------------------------------------

  /** The increment overflows no counter of the element. */
  ghost predicate Room(s: Sketch, c: seq<int>, e: Bytes, n: int)
    requires s.Holds(c)
  {
    forall row :: 0 <= row < s.depth ==> -(I64_MAX + 1) <= At(s, c, row, s.Column(e, row)) + n <= I64_MAX
  }

  lemma RoomKeepsBounds(s: Sketch, c: seq<int>, e: Bytes, n: int)
    requires Bounded(s, c) && Room(s, c, e, n)
    ensures Bounded(s, Incremented(s, c, e, n))
  {
    BumpBounds(s, c, e, n, s.depth);
  }

  lemma {:induction false} BumpBounds(s: Sketch, c: seq<int>, e: Bytes, n: int, k: nat)
    requires Bounded(s, c) && Room(s, c, e, n) && k <= s.depth
    ensures Bounded(s, Bump(s, c, e, n, k))
    decreases k
  {
    hide Sketch.Column, Sketch.Cell, Bump, At;
    BumpOne(s, c, e, n, 0);
    if k > 0 {
      BumpBounds(s, c, e, n, k - 1);
      BumpAt(s, c, e, n, k - 1, k - 1, s.Column(e, k - 1));
      OwnCell(s, Bump(s, c, e, n, k - 1), e, k - 1);
      BumpOne(s, c, e, n, k - 1);
    }
  }

  lemma EstimateIsI64(s: Sketch, c: seq<int>, e: Bytes)
    requires Bounded(s, c)
    ensures -(I64_MAX + 1) <= Estimate(s, c, e) <= I64_MAX
  {
    hide At, MinTo;
    MinAtMost(s, c, e, s.depth, 0);
    AtBounded(s, c, 0, s.Column(e, 0));
    forall row | 0 <= row < s.depth ensures -(I64_MAX + 1) <= At(s, c, row, s.Column(e, row)) {
      AtBounded(s, c, row, s.Column(e, row));
    }
    MinAtLeast(s, c, e, s.depth, -(I64_MAX + 1));
  }
}
