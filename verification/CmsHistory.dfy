/** What CMS keys promise over their whole lives, merges of other keys included. All keys
    of a history share one set of dimensions; a failed operation changes nothing. */
module CmsHistory {
  import opened Bytes
  import opened CountMin
  import opened Cms
  import opened CmsMerge

  // ---------------------------------------------------------------------
  // Row sums
  // ---------------------------------------------------------------------

  /** The sum of the first `k` counters of a row. */
  function SumTo(s: Sketch, c: seq<int>, row: nat, k: nat): int
    requires s.Holds(c) && row < s.depth && k <= s.width
    decreases k
  {
    if k == 0 then 0 else SumTo(s, c, row, k - 1) + At(s, c, row, k - 1)
  }

  function RowSum(s: Sketch, c: seq<int>, row: nat): int
    requires s.Holds(c) && row < s.depth
  {
    SumTo(s, c, row, s.width)
  }

  /** Every row sums to the header total. */
  ghost predicate Conserves(s: Sketch, st: State) {
    s.Holds(st.counters) && forall row :: 0 <= row < s.depth ==> RowSum(s, st.counters, row) == st.total
  }

  ghost predicate NonNegative(c: seq<int>) { forall i :: 0 <= i < |c| ==> c[i] >= 0 }

  lemma {:induction false} IncrementSums(s: Sketch, c: seq<int>, e: Bytes, n: int, row: nat, k: nat)
    requires s.Holds(c) && row < s.depth && k <= s.width
    ensures SumTo(s, Incremented(s, c, e, n), row, k)
         == SumTo(s, c, row, k) + if s.Column(e, row) < k then n else 0
    decreases k
  {
    hide At, Bump, Sketch.Column;
    if k > 0 {
      IncrementSums(s, c, e, n, row, k - 1);
      BumpAt(s, c, e, n, s.depth, row, k - 1);
    }
  }

  lemma {:induction false} SumBounds(s: Sketch, c: seq<int>, row: nat, k: nat, col: nat)
    requires s.Holds(c) && NonNegative(c) && row < s.depth && k <= s.width && col < s.width
    ensures SumTo(s, c, row, k) >= 0
    ensures col < k ==> At(s, c, row, col) <= SumTo(s, c, row, k)
    decreases k
  {
    if k > 0 {
      SumBounds(s, c, row, k - 1, col);
      CellInRange(s, row, k - 1);
      CellInRange(s, row, col);
    }
  }

  // ---------------------------------------------------------------------
  // Increments
  // ---------------------------------------------------------------------

  /** What a subtraction loses when the total stops at zero. */
  function Lost(total: u64, count: i64): nat {
    if total + count < 0 then -(total + count) else 0
  }

  /** One item moves every row sum by its count and the total by that plus what is lost. */
  lemma OneItem(s: Sketch, st: State, item: Item, row: nat)
    requires Sound(s, st) && CountOne(s, st, item).Some? && row < s.depth
    ensures var next := CountOne(s, st, item).value.0;
      next.total - RowSum(s, next.counters, row)
      == st.total - RowSum(s, st.counters, row) + Lost(st.total, item.count)
  {
    IncrementSums(s, st.counters, item.element, item.count, row, s.width);
  }

  function CountSum(items: seq<Item>): int {
    if items == [] then 0 else CountSum(items[..|items| - 1]) + items[|items| - 1].count
  }

  /** No prefix of the batch takes the total below zero. */
  predicate NeverNegative(total: u64, items: seq<Item>) {
    items == [] || (NeverNegative(total, items[..|items| - 1]) && total + CountSum(items) >= 0)
  }

  /** The gap between total and row sums never shrinks, and stays where it is exactly when
      no prefix takes the total below zero. */
  lemma {:induction false} BatchGap(s: Sketch, st: State, items: seq<Item>, row: nat)
    requires Sound(s, st) && CountAll(s, st, items).Some? && row < s.depth
    ensures var last := CountAll(s, st, items).value.state;
      var before, after := st.total - RowSum(s, st.counters, row), last.total - RowSum(s, last.counters, row);
      && before <= after
      && (before == after <==> NeverNegative(st.total, items))
      && (NeverNegative(st.total, items) ==> last.total == st.total + CountSum(items))
    decreases |items|
  {
    hide RowSum, CountOne;
    if items != [] {
      var n := |items| - 1;
      var mid := CountAll(s, st, items[..n]).value.state;
      BatchGap(s, st, items[..n], row);
      OneItem(s, mid, items[n], row);
      OneTotal(s, mid, items[n]);
    }
  }

  lemma OneTotal(s: Sketch, st: State, item: Item)
    requires Sound(s, st) && CountOne(s, st, item).Some?
    ensures CountOne(s, st, item).value.0.total == st.total + item.count + Lost(st.total, item.count)
  {}

  /** The row-sum law survives a batch if and only if no prefix of its counts takes the
      total below zero. */
  lemma ConservedExactly(s: Sketch, st: State, items: seq<Item>)
    requires Sound(s, st) && CountAll(s, st, items).Some? && Conserves(s, st)
    ensures Conserves(s, CountAll(s, st, items).value.state) <==> NeverNegative(st.total, items)
  {
    hide RowSum, NeverNegative, CountAll;
    forall row | 0 <= row < s.depth
      ensures var last := CountAll(s, st, items).value.state;
        RowSum(s, last.counters, row) == last.total <==> NeverNegative(st.total, items)
    {
      BatchGap(s, st, items, row);
    }
    assert RowSum(s, CountAll(s, st, items).value.state.counters, 0) == CountAll(s, st, items).value.state.total
      <==> NeverNegative(st.total, items);
  }

  /** A concrete batch that breaks the law: subtract one from an empty one-counter key. */
  lemma SubtractionBreaksTheLaw(h1: Bytes -> u64, h2: Bytes -> u64, e: Bytes)
    ensures var s, st, items := Sketch(1, 1, h1, h2), State([0], 0), [Item(e, -1)];
      && Sound(s, st) && Conserves(s, st)
      && CountAll(s, st, items).Some? && !Conserves(s, CountAll(s, st, items).value.state)
  {
    var s, st, items := Sketch(1, 1, h1, h2), State([0], 0), [Item(e, -1)];
    TinySum(s, st);
    assert s.Column(e, 0) == 0;
    assert items[..0] == [];
    assert CountAll(s, st, items[..0]) == Some(Staged(st, []));
    assert Room(s, st.counters, e, -1);
    ConservedExactly(s, st, items);
    assert CountSum(items) == CountSum(items[..0]) - 1;
  }

  lemma TinySum(s: Sketch, st: State)
    requires s.width == s.depth == 1 && st == State([0], 0)
    ensures Sound(s, st) && Conserves(s, st)
  {
    assert SumTo(s, st.counters, 0, 1) == SumTo(s, st.counters, 0, 0) + At(s, st.counters, 0, 0);
  }

  // ---------------------------------------------------------------------
  // Merges
  // ---------------------------------------------------------------------

  lemma {:induction false} DotAdds(a: seq<int>, b: seq<int>, sum: seq<int>, weights: seq<int>)
    requires |a| == |b| == |sum| == |weights|
    requires forall k :: 0 <= k < |sum| ==> sum[k] == a[k] + b[k]
    ensures Dot(sum, weights) == Dot(a, weights) + Dot(b, weights)
    decreases |a|
  {
    if a != [] {
      var n := |a| - 1;
      DotAdds(a[..n], b[..n], sum[..n], weights[..n]);
      Distributes(a[n], b[n], weights[n]);
    }
  }

  lemma Distributes(a: int, b: int, w: int)
    ensures (a + b) * w == a * w + b * w
  {}

  lemma {:induction false} DotOrdered(a: seq<int>, b: seq<int>, weights: seq<int>)
    requires |a| == |b| == |weights|
    requires forall k :: 0 <= k < |a| ==> a[k] <= b[k] && weights[k] >= 0
    ensures Dot(a, weights) <= Dot(b, weights)
    decreases |a|
  {
    if a != [] {
      var n := |a| - 1;
      DotOrdered(a[..n], b[..n], weights[..n]);
      Monotone(a[n], b[n], weights[n]);
    }
  }

  lemma Monotone(a: int, b: int, w: int)
    requires a <= b && w >= 0
    ensures a * w <= b * w
  {}

  lemma {:induction false} DotZero(a: seq<int>, weights: seq<int>)
    requires |a| == |weights| && forall k :: 0 <= k < |a| ==> a[k] == 0
    ensures Dot(a, weights) == 0
    decreases |a|
  {
    if a != [] {
      DotZero(a[..|a| - 1], weights[..|a| - 1]);
    }
  }

  ghost predicate AllHold(s: Sketch, sources: seq<Source>) {
    forall k :: 0 <= k < |sources| ==>
      sources[k].width == s.width && sources[k].depth == s.depth && s.Holds(sources[k].state.counters)
  }

  /** The row sums of every source. */
  ghost function Sums(s: Sketch, sources: seq<Source>, row: nat, k: nat): (v: seq<int>)
    requires AllHold(s, sources) && row < s.depth && k <= s.width
    ensures |v| == |sources|
  {
    seq(|sources|, i requires 0 <= i < |sources| => SumTo(s, sources[i].state.counters, row, k))
  }

  /** A row of a merge sums to the weighted sum of the sources' rows. */
  lemma {:induction false} MergedSums(s: Sketch, sources: seq<Source>, weights: seq<int>, row: nat, k: nat)
    requires s.Valid() && AllHold(s, sources) && |sources| == |weights| && row < s.depth && k <= s.width
    ensures SumTo(s, Merged(s, sources, weights), row, k) == Dot(Sums(s, sources, row, k), weights)
    decreases k
  {
    if k == 0 {
      DotZero(Sums(s, sources, row, 0), weights);
    } else {
      MergedSums(s, sources, weights, row, k - 1);
      CellInRange(s, row, k - 1);
      var cell := row * s.width + (k - 1);
      SumsSplit(s, sources, row, k);
      DotAdds(Sums(s, sources, row, k - 1), Column(sources, cell), Sums(s, sources, row, k), weights);
    }
  }

  lemma SumsSplit(s: Sketch, sources: seq<Source>, row: nat, k: nat)
    requires s.Valid() && AllHold(s, sources) && row < s.depth && 0 < k <= s.width
    ensures row * s.width + (k - 1) < s.width * s.depth
    ensures forall i :: 0 <= i < |sources| ==>
      Sums(s, sources, row, k)[i] == Sums(s, sources, row, k - 1)[i] + Column(sources, row * s.width + (k - 1))[i]
  {
    CellInRange(s, row, k - 1);
  }

  /** A merge of keys that obey the row-sum law obeys it, whatever the weights. */
  lemma MergeConserves(s: Sketch, dst: State, sources: seq<Source>, weights: seq<int>)
    requires Sound(s, dst) && Conserves(s, dst) && AllHold(s, sources) && Readable(sources)
    requires forall k :: 0 <= k < |sources| ==> Conserves(s, sources[k].state)
    requires MergeInto(s, dst, sources, weights).Some?
    ensures Conserves(s, MergeInto(s, dst, sources, weights).value)
  {
    hide CounterFits, TotalFits;
    if sources != [] {
      forall row | 0 <= row < s.depth
        ensures RowSum(s, Merged(s, sources, weights), row) == Dot(Totals(sources), weights)
      {
        MergedSums(s, sources, weights, row, s.width);
        forall k | 0 <= k < |sources| ensures Sums(s, sources, row, s.width)[k] == Totals(sources)[k] {
          assert RowSum(s, sources[k].state.counters, row) == sources[k].state.total;
        }
        assert Sums(s, sources, row, s.width) == Totals(sources);
      }
    }
  }

  // ---------------------------------------------------------------------
  // Whole lives
  // ---------------------------------------------------------------------

  /** A key is created, counts batches, and is overwritten by merges of other keys. */
  datatype History =
    | Created
    | Counted(before: History, items: seq<Item>)
    | Combined(before: History, sources: seq<History>, weights: seq<i64>)

  function Fresh(s: Sketch): State { State(Zeros(s.width * s.depth), 0) }

  ghost function SourceOf(s: Sketch, st: State): Source { Source(s.width, s.depth, st) }

  ghost function After(s: Sketch, h: History): (st: State)
    requires s.Valid()
    ensures Sound(s, st)
    decreases h
  {
    match h
    case Created => Fresh(s)
    case Counted(before, items) =>
      var st := After(s, before);
      (match CountAll(s, st, items)
       case None => st
       case Some(staged) => staged.state)
    case Combined(before, sources, weights) =>
      var st := After(s, before);
      var from := seq(|sources|, k requires 0 <= k < |sources| => SourceOf(s, After(s, sources[k])));
      (match MergeInto(s, st, from, weights)
       case None => st
       case Some(next) => next)
  }

  /** The sources of a merge as it reads them. */
  ghost function Sources(s: Sketch, hs: seq<History>): (from: seq<Source>)
    requires s.Valid()
    ensures |from| == |hs| && Readable(from) && AllHold(s, from)
    ensures forall k :: 0 <= k < |hs| ==> from[k] == SourceOf(s, After(s, hs[k]))
  {
    seq(|hs|, k requires 0 <= k < |hs| => SourceOf(s, After(s, hs[k])))
  }

  lemma AfterCombined(s: Sketch, before: History, sources: seq<History>, weights: seq<i64>)
    requires s.Valid()
    ensures var r := MergeInto(s, After(s, before), Sources(s, sources), weights);
      After(s, Combined(before, sources, weights)) == if r.Some? then r.value else After(s, before)
  {
    hide MergeInto;
    var from := seq(|sources|, k requires 0 <= k < |sources| => SourceOf(s, After(s, sources[k])));
    assert from == Sources(s, sources);
  }

  ghost predicate NoSubtractions(h: History) {
    match h
    case Created => true
    case Counted(before, items) =>
      NoSubtractions(before) && forall i :: 0 <= i < |items| ==> items[i].count >= 0
    case Combined(before, sources, weights) =>
      NoSubtractions(before) && forall k :: 0 <= k < |sources| ==> NoSubtractions(sources[k])
  }

  lemma {:induction false} CountSumGrows(items: seq<Item>, total: u64)
    requires forall i :: 0 <= i < |items| ==> items[i].count >= 0
    ensures CountSum(items) >= 0 && NeverNegative(total, items)
    decreases |items|
  {
    if items != [] {
      CountSumGrows(items[..|items| - 1], total);
    }
  }

  lemma {:induction false} FreshSums(s: Sketch, row: nat, k: nat)
    requires s.Valid() && row < s.depth && k <= s.width
    ensures SumTo(s, Fresh(s).counters, row, k) == 0
    decreases k
  {
    if k > 0 {
      FreshSums(s, row, k - 1);
      CellInRange(s, row, k - 1);
    }
  }

  /** Over every life without negative increments, whatever the merge weights, every row
      sums to the header total. */
  lemma {:induction false} RowsSumToTotal(s: Sketch, h: History)
    requires s.Valid() && NoSubtractions(h)
    ensures Conserves(s, After(s, h))
    decreases h
  {
    hide RowSum, CountAll, MergeInto;
    match h
    case Created =>
      forall row | 0 <= row < s.depth ensures RowSum(s, Fresh(s).counters, row) == 0 {
        FreshIsZero(s, row);
      }
    case Counted(before, items) =>
      RowsSumToTotal(s, before);
      var st := After(s, before);
      if CountAll(s, st, items).Some? {
        CountSumGrows(items, st.total);
        ConservedExactly(s, st, items);
      }
    case Combined(before, sources, weights) =>
      RowsSumToTotal(s, before);
      forall k | 0 <= k < |sources| ensures Conserves(s, After(s, sources[k])) {
        RowsSumToTotal(s, sources[k]);
      }
      var st, from := After(s, before), Sources(s, sources);
      AfterCombined(s, before, sources, weights);
      if MergeInto(s, st, from, weights).Some? {
        MergeConserves(s, st, from, weights);
      }
  }

  lemma FreshIsZero(s: Sketch, row: nat)
    requires s.Valid() && row < s.depth
    ensures RowSum(s, Fresh(s).counters, row) == 0
  {
    FreshSums(s, row, s.width);
  }
}
