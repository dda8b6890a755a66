/** A CMS query lies between the true count and the header total, over every life whose
    increments and merge weights are not negative. */
module CmsBounds {
  import opened Bytes
  import opened CountMin
  import opened Cms
  import opened CmsMerge
  import opened CmsHistory

  /** What a batch really adds to `x`. */
  function ItemSum(items: seq<Item>, x: Bytes): int {
    if items == [] then 0
    else
      var last := items[|items| - 1];
      ItemSum(items[..|items| - 1], x) + if last.element == x then last.count else 0
  }

  /** How often `x` was really counted: failed operations count nothing, a merge weighs
      what its sources counted. */
  ghost function TrueCount(s: Sketch, h: History, x: Bytes): int
    requires s.Valid()
    decreases h
  {
    match h
    case Created => 0
    case Counted(before, items) =>
      TrueCount(s, before, x) + if CountAll(s, After(s, before), items).Some? then ItemSum(items, x) else 0
    case Combined(before, sources, weights) =>
      if sources == [] || MergeInto(s, After(s, before), Sources(s, sources), weights).None? then
        TrueCount(s, before, x)
      else
        Dot(seq(|sources|, k requires 0 <= k < |sources| => TrueCount(s, sources[k], x)), weights)
  }

  ghost predicate NoNegatives(h: History) {
    match h
    case Created => true
    case Counted(before, items) => NoNegatives(before) && forall i :: 0 <= i < |items| ==> items[i].count >= 0
    case Combined(before, sources, weights) =>
      && NoNegatives(before)
      && (forall k :: 0 <= k < |sources| ==> NoNegatives(sources[k]))
      && (forall k :: 0 <= k < |weights| ==> weights[k] >= 0)
  }

  lemma {:induction false} NoNegativesSubtractNothing(h: History)
    requires NoNegatives(h)
    ensures NoSubtractions(h)
    decreases h
  {
    match h
    case Created =>
    case Counted(before, items) => NoNegativesSubtractNothing(before);
    case Combined(before, sources, weights) =>
      NoNegativesSubtractNothing(before);
      forall k | 0 <= k < |sources| ensures NoSubtractions(sources[k]) {
        NoNegativesSubtractNothing(sources[k]);
      }
  }

  /** Every cell of `x` is at least `low`. */
  ghost predicate AtLeast(s: Sketch, c: seq<int>, x: Bytes, low: int) {
    s.Holds(c) && forall row :: 0 <= row < s.depth ==> low <= At(s, c, row, s.Column(x, row))
  }

  lemma ItemKeeps(s: Sketch, st: State, item: Item, x: Bytes, low: int)
    requires Sound(s, st) && CountOne(s, st, item).Some? && item.count >= 0
    requires AtLeast(s, st.counters, x, low)
    ensures AtLeast(s, CountOne(s, st, item).value.0.counters, x, low + if item.element == x then item.count else 0)
  {
    hide At, Bump, Sketch.Column;
    var next := CountOne(s, st, item).value.0;
    forall row | 0 <= row < s.depth
      ensures low + (if item.element == x then item.count else 0) <= At(s, next.counters, row, s.Column(x, row))
    {
      BumpAt(s, st.counters, item.element, item.count, s.depth, row, s.Column(x, row));
    }
  }

  lemma {:induction false} BumpNonNegative(s: Sketch, c: seq<int>, e: Bytes, n: nat, k: nat)
    requires s.Holds(c) && NonNegative(c) && k <= s.depth
    ensures NonNegative(Bump(s, c, e, n, k))
    decreases k
  {
    hide Sketch.Column, Sketch.Cell;
    if k > 0 {
      BumpNonNegative(s, c, e, n, k - 1);
      BumpOne(s, c, e, n, k - 1);
    }
  }

  lemma {:induction false} BatchKeeps(s: Sketch, st: State, items: seq<Item>, x: Bytes, low: int)
    requires Sound(s, st) && CountAll(s, st, items).Some?
    requires forall i :: 0 <= i < |items| ==> items[i].count >= 0
    requires AtLeast(s, st.counters, x, low) && NonNegative(st.counters)
    ensures AtLeast(s, CountAll(s, st, items).value.state.counters, x, low + ItemSum(items, x))
    ensures NonNegative(CountAll(s, st, items).value.state.counters)
    decreases |items|
  {
    hide AtLeast, NonNegative, Estimate, Room;
    if items != [] {
      var n := |items| - 1;
      BatchKeeps(s, st, items[..n], x, low);
      var mid := CountAll(s, st, items[..n]).value.state;
      ItemKeeps(s, mid, items[n], x, low + ItemSum(items[..n], x));
      BumpNonNegative(s, mid.counters, items[n].element, items[n].count, s.depth);
    }
  }

  /** A merge keeps the bounds of its sources, weighed. */
  lemma MergeKeeps(s: Sketch, dst: State, from: seq<Source>, weights: seq<int>, lows: seq<int>, x: Bytes)
    requires Sound(s, dst) && Readable(from) && AllHold(s, from) && from != []
    requires MergeInto(s, dst, from, weights).Some? && |lows| == |from|
    requires forall k :: 0 <= k < |weights| ==> weights[k] >= 0
    requires forall k :: 0 <= k < |from| ==> AtLeast(s, from[k].state.counters, x, lows[k])
    ensures AtLeast(s, MergeInto(s, dst, from, weights).value.counters, x, Dot(lows, weights))
    ensures NonNegative(MergeInto(s, dst, from, weights).value.counters)
  {
    hide Dot, TotalFits, CounterFits, At, AtLeast, NonNegative;
    MergedNonNegative(s, from, weights);
    MergedAtLeast(s, from, weights, lows, x);
  }

  lemma MergedNonNegative(s: Sketch, from: seq<Source>, weights: seq<int>)
    requires s.Valid() && Readable(from) && Accepts(s, from, weights)
    ensures NonNegative(Merged(s, from, weights))
  {}

  lemma MergedAtLeast(s: Sketch, from: seq<Source>, weights: seq<int>, lows: seq<int>, x: Bytes)
    requires s.Valid() && AllHold(s, from) && |lows| == |from| == |weights|
    requires forall k :: 0 <= k < |weights| ==> weights[k] >= 0
    requires forall k :: 0 <= k < |from| ==> AtLeast(s, from[k].state.counters, x, lows[k])
    ensures AtLeast(s, Merged(s, from, weights), x, Dot(lows, weights))
  {
    hide Dot, Sketch.Column, At;
    forall row | 0 <= row < s.depth
      ensures Dot(lows, weights) <= At(s, Merged(s, from, weights), row, s.Column(x, row))
    {
      var col := s.Column(x, row);
      MergedAt(s, from, weights, row, col);
      var values := seq(|from|, k requires 0 <= k < |from| => At(s, from[k].state.counters, row, col));
      DotOrdered(lows, values, weights);
    }
  }

  lemma MergedAt(s: Sketch, from: seq<Source>, weights: seq<int>, row: nat, col: nat)
    requires s.Valid() && AllHold(s, from) && |from| == |weights| && row < s.depth && col < s.width
    ensures At(s, Merged(s, from, weights), row, col)
         == Dot(seq(|from|, k requires 0 <= k < |from| => At(s, from[k].state.counters, row, col)), weights)
  {
    hide Dot;
    CellInRange(s, row, col);
    assert Column(from, row * s.width + col)
        == seq(|from|, k requires 0 <= k < |from| => At(s, from[k].state.counters, row, col));
  }

  lemma {:induction false} CellsCover(s: Sketch, h: History, x: Bytes)
    requires s.Valid() && NoNegatives(h)
    ensures AtLeast(s, After(s, h).counters, x, TrueCount(s, h, x))
    ensures NonNegative(After(s, h).counters)
    decreases h
  {
    hide AtLeast, NonNegative, CountAll, MergeInto;
    match h
    case Created => FreshCovers(s, x);
    case Counted(before, items) =>
      CellsCover(s, before, x);
      if CountAll(s, After(s, before), items).Some? {
        BatchKeeps(s, After(s, before), items, x, TrueCount(s, before, x));
      }
    case Combined(before, sources, weights) =>
      CellsCover(s, before, x);
      AfterCombined(s, before, sources, weights);
      var st, from := After(s, before), Sources(s, sources);
      if MergeInto(s, st, from, weights).Some? {
        if sources == [] {
          assert MergeInto(s, st, from, weights) == Some(st) by { MergeNothing(s, st, from, weights); }
        } else {
          var lows := seq(|sources|, k requires 0 <= k < |sources| => TrueCount(s, sources[k], x));
          forall k | 0 <= k < |sources| ensures AtLeast(s, from[k].state.counters, x, lows[k]) {
            CellsCover(s, sources[k], x);
          }
          assert |weights| == |sources| by { MergeWeights(s, st, from, weights); }
          MergeKeeps(s, st, from, weights, lows, x);
        }
      }
  }

  lemma MergeNothing(s: Sketch, st: State, from: seq<Source>, weights: seq<int>)
    requires Sound(s, st) && Readable(from) && from == [] && MergeInto(s, st, from, weights).Some?
    ensures MergeInto(s, st, from, weights) == Some(st)
  {}

  lemma MergeWeights(s: Sketch, st: State, from: seq<Source>, weights: seq<int>)
    requires Sound(s, st) && Readable(from) && MergeInto(s, st, from, weights).Some?
    ensures |weights| == |from|
  {}

  lemma FreshCovers(s: Sketch, x: Bytes)
    requires s.Valid()
    ensures AtLeast(s, Fresh(s).counters, x, 0) && NonNegative(Fresh(s).counters)
  {
    forall row | 0 <= row < s.depth ensures 0 <= At(s, Fresh(s).counters, row, s.Column(x, row)) {
      CellInRange(s, row, s.Column(x, row));
    }
  }

  /** True count <= query <= total. */
  lemma QueryBetweenTruthAndTotal(s: Sketch, h: History, x: Bytes)
    requires s.Valid() && NoNegatives(h)
    ensures TrueCount(s, h, x) <= Estimate(s, After(s, h).counters, x) <= After(s, h).total
  {
    hide After, TrueCount, At, MinTo, NoNegatives, NoSubtractions;
    var st, low := After(s, h), TrueCount(s, h, x);
    CellsCover(s, h, x);
    NoNegativesSubtractNothing(h);
    RowsSumToTotal(s, h);
    AtBounded(s, st.counters, 0, s.Column(x, 0));
    assert low <= At(s, st.counters, 0, s.Column(x, 0));
    MinAtLeast(s, st.counters, x, s.depth, low);
    MinAtMost(s, st.counters, x, s.depth, 0);
    SumBounds(s, st.counters, 0, s.width, s.Column(x, 0));
    assert RowSum(s, st.counters, 0) == st.total;
  }
}
