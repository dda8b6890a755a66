/** What every counter of a CMS key holds, over any life: the counts of the elements that hash to
    it, merged ones weighed. */
module CmsCells {
  import opened Bytes
  import opened CountMin
  import opened Cms
  import opened CmsMerge
  import opened CmsHistory
  import opened CmsBounds

  /** An element and how much it was counted. */
  datatype Post = Post(element: Bytes, count: int)

  type Ledger = seq<Post>

  function Posted(items: seq<Item>): (l: Ledger)
    ensures |l| == |items|
  {
    seq(|items|, i requires 0 <= i < |items| => Post(items[i].element, items[i].count))
  }

  function Weighed(l: Ledger, weight: int): (r: Ledger)
    ensures |r| == |l|
  {
    seq(|l|, i requires 0 <= i < |l| => Post(l[i].element, weight * l[i].count))
  }

  /** The sources' ledgers one after the other, each weighed. */
  function Together(ledgers: seq<Ledger>, weights: seq<int>): Ledger
    requires |ledgers| == |weights|
  {
    if ledgers == [] then []
    else
      var n := |ledgers| - 1;
      Together(ledgers[..n], weights[..n]) + Weighed(ledgers[n], weights[n])
  }

  /** Everything a key has counted: a batch adds its items, a merge replaces them by those of its
      sources, weighed, and what failed counts nothing. */
  ghost function LedgerOf(s: Sketch, h: History): Ledger
    requires s.Valid()
    decreases h
  {
    match h
    case Created => []
    case Counted(before, items) =>
      LedgerOf(s, before) + if CountAll(s, After(s, before), items).Some? then Posted(items) else []
    case Combined(before, sources, weights) =>
      if |sources| != |weights| || sources == [] || MergeInto(s, After(s, before), Sources(s, sources), weights).None? then
        LedgerOf(s, before)
      else
        Together(seq(|sources|, k requires 0 <= k < |sources| => LedgerOf(s, sources[k])), weights)
  }

  /** The sum of the counts whose element is picked. */
  ghost function Tally(l: Ledger, picks: Bytes -> bool): int {
    if l == [] then 0
    else
      var last := l[|l| - 1];
      Tally(l[..|l| - 1], picks) + if picks(last.element) then last.count else 0
  }

  lemma {:induction false} TallyConcat(a: Ledger, b: Ledger, picks: Bytes -> bool)
    ensures Tally(a + b, picks) == Tally(a, picks) + Tally(b, picks)
    decreases |b|
  {
    if b == [] {
      assert a + b == a;
    } else {
      assert (a + b)[..|a + b| - 1] == a + b[..|b| - 1];
      TallyConcat(a, b[..|b| - 1], picks);
    }
  }

  lemma {:induction false} TallyWeighed(l: Ledger, weight: int, picks: Bytes -> bool)
    ensures Tally(Weighed(l, weight), picks) == Tally(l, picks) * weight
    decreases |l|
  {
    if l != [] {
      var n := |l| - 1;
      assert Weighed(l, weight)[..n] == Weighed(l[..n], weight);
      TallyWeighed(l[..n], weight, picks);
      Distributes(Tally(l[..n], picks), l[n].count, weight);
    }
  }

  lemma {:induction false} TallyTogether(ledgers: seq<Ledger>, weights: seq<int>, tallies: seq<int>, picks: Bytes -> bool)
    requires |ledgers| == |weights| == |tallies|
    requires forall k :: 0 <= k < |ledgers| ==> tallies[k] == Tally(ledgers[k], picks)
    ensures Tally(Together(ledgers, weights), picks) == Dot(tallies, weights)
    decreases |ledgers|
  {
    hide Weighed, Tally;
    if ledgers == [] {
      NothingTallied(picks);
    } else {
      var n := |ledgers| - 1;
      TallyTogether(ledgers[..n], weights[..n], tallies[..n], picks);
      TallyWeighed(ledgers[n], weights[n], picks);
      TallyConcat(Together(ledgers[..n], weights[..n]), Weighed(ledgers[n], weights[n]), picks);
    }
  }

  lemma NothingTallied(picks: Bytes -> bool)
    ensures Tally([], picks) == 0
  {}

  // ---------------------------------------------------------------------
  // Cells
  // ---------------------------------------------------------------------

  ghost function InCell(s: Sketch, row: nat, col: nat): Bytes -> bool
    requires s.Valid()
  {
    e => s.Column(e, row) == col
  }

  lemma {:induction false} BatchCell(s: Sketch, st: State, items: seq<Item>, row: nat, col: nat)
    requires Sound(s, st) && CountAll(s, st, items).Some? && row < s.depth && col < s.width
    ensures At(s, CountAll(s, st, items).value.state.counters, row, col)
         == At(s, st.counters, row, col) + Tally(Posted(items), InCell(s, row, col))
    decreases |items|
  {
    hide At, Sketch.Column, Bump, Estimate, Room;
    if items != [] {
      var n := |items| - 1;
      BatchCell(s, st, items[..n], row, col);
      var mid := CountAll(s, st, items[..n]).value.state;
      BumpAt(s, mid.counters, items[n].element, items[n].count, s.depth, row, col);
      assert Posted(items)[..n] == Posted(items[..n]);
    }
  }

  lemma MergeCell(s: Sketch, st: State, from: seq<Source>, weights: seq<int>, tallies: seq<int>, row: nat, col: nat)
    requires Sound(s, st) && Readable(from) && AllHold(s, from) && from != []
    requires MergeInto(s, st, from, weights).Some? && row < s.depth && col < s.width && |tallies| == |from|
    requires forall k :: 0 <= k < |from| ==> tallies[k] == At(s, from[k].state.counters, row, col)
    ensures |weights| == |from| && At(s, MergeInto(s, st, from, weights).value.counters, row, col) == Dot(tallies, weights)
  {
    hide At, Dot, TotalFits, CounterFits;
    MergeWeights(s, st, from, weights);
    MergedAt(s, from, weights, row, col);
    assert tallies == seq(|from|, k requires 0 <= k < |from| => At(s, from[k].state.counters, row, col));
  }

  /** Over every life, negative counts and weights included, each counter is the sum of what was
      counted for the elements that hash to it. */
  lemma {:induction false} CellsAreTallies(s: Sketch, h: History, row: nat, col: nat)
    requires s.Valid() && row < s.depth && col < s.width
    ensures At(s, After(s, h).counters, row, col) == Tally(LedgerOf(s, h), InCell(s, row, col))
    decreases h
  {
    hide CountAll, MergeInto, Tally, At, InCell, Together;
    var picks := InCell(s, row, col);
    match h
    case Created =>
      NothingTallied(picks);
      FreshCell(s, row, col);
    case Counted(before, items) =>
      CellsAreTallies(s, before, row, col);
      if CountAll(s, After(s, before), items).Some? {
        BatchCell(s, After(s, before), items, row, col);
        TallyConcat(LedgerOf(s, before), Posted(items), picks);
      } else {
        assert LedgerOf(s, h) == LedgerOf(s, before);
      }
    case Combined(before, sources, weights) =>
      CellsAreTallies(s, before, row, col);
      AfterCombined(s, before, sources, weights);
      var st, from := After(s, before), Sources(s, sources);
      if MergeInto(s, st, from, weights).Some? {
        MergeWeights(s, st, from, weights);
        if sources == [] {
          MergeNothing(s, st, from, weights);
        } else {
          var ledgers := seq(|sources|, k requires 0 <= k < |sources| => LedgerOf(s, sources[k]));
          var tallies := seq(|sources|, k requires 0 <= k < |sources| => Tally(ledgers[k], picks));
          forall k | 0 <= k < |sources| ensures tallies[k] == At(s, from[k].state.counters, row, col) {
            CellsAreTallies(s, sources[k], row, col);
          }
          MergeCell(s, st, from, weights, tallies, row, col);
          TallyTogether(ledgers, weights, tallies, picks);
        }
      }
  }

  lemma FreshCell(s: Sketch, row: nat, col: nat)
    requires s.Valid() && row < s.depth && col < s.width
    ensures At(s, Fresh(s).counters, row, col) == 0
  {
    CellInRange(s, row, col);
  }

  // ---------------------------------------------------------------------
  // Queries
  // ---------------------------------------------------------------------

  ghost function Itself(x: Bytes): Bytes -> bool { e => e == x }

  /** The other elements that share the element's cell of a row. */
  ghost function Colliding(s: Sketch, x: Bytes, row: nat): Bytes -> bool
    requires s.Valid()
  {
    e => e != x && s.Column(e, row) == s.Column(x, row)
  }

  lemma {:induction false} CellSplits(s: Sketch, l: Ledger, x: Bytes, row: nat)
    requires s.Valid()
    ensures Tally(l, InCell(s, row, s.Column(x, row))) == Tally(l, Itself(x)) + Tally(l, Colliding(s, x, row))
    decreases |l|
  {
    hide Sketch.Column;
    if l != [] {
      CellSplits(s, l[..|l| - 1], x, row);
    }
  }

  lemma {:induction false} BatchCount(items: seq<Item>, x: Bytes)
    ensures Tally(Posted(items), Itself(x)) == ItemSum(items, x)
    decreases |items|
  {
    if items != [] {
      var n := |items| - 1;
      BatchCount(items[..n], x);
      assert Posted(items)[..n] == Posted(items[..n]);
    }
  }

  /** The true count of an element is what its key has counted of it. */
  lemma {:induction false} TrueCountIsTally(s: Sketch, h: History, x: Bytes)
    requires s.Valid()
    ensures TrueCount(s, h, x) == Tally(LedgerOf(s, h), Itself(x))
    decreases h
  {
    hide CountAll, MergeInto, Tally, Itself, Together, ItemSum;
    match h
    case Created => NothingTallied(Itself(x));
    case Counted(before, items) =>
      TrueCountIsTally(s, before, x);
      if CountAll(s, After(s, before), items).Some? {
        BatchCount(items, x);
        TallyConcat(LedgerOf(s, before), Posted(items), Itself(x));
      } else {
        assert LedgerOf(s, h) == LedgerOf(s, before);
      }
    case Combined(before, sources, weights) =>
      TrueCountIsTally(s, before, x);
      var st, from := After(s, before), Sources(s, sources);
      if sources != [] && MergeInto(s, st, from, weights).Some? {
        MergeWeights(s, st, from, weights);
        var ledgers := seq(|sources|, k requires 0 <= k < |sources| => LedgerOf(s, sources[k]));
        var counts := seq(|sources|, k requires 0 <= k < |sources| => TrueCount(s, sources[k], x));
        forall k | 0 <= k < |sources| ensures counts[k] == Tally(ledgers[k], Itself(x)) {
          TrueCountIsTally(s, sources[k], x);
        }
        TallyTogether(ledgers, weights, counts, Itself(x));
      }
  }

  /** The error of a query is exactly what was counted for the elements that collide with it in the
      row where that is least. */
  lemma ErrorIsCollisions(s: Sketch, h: History, x: Bytes) returns (row: nat)
    requires s.Valid()
    ensures row < s.depth
    ensures Estimate(s, After(s, h).counters, x) == TrueCount(s, h, x) + Tally(LedgerOf(s, h), Colliding(s, x, row))
    ensures forall r :: 0 <= r < s.depth ==>
      Tally(LedgerOf(s, h), Colliding(s, x, row)) <= Tally(LedgerOf(s, h), Colliding(s, x, r))
  {
    hide After, TrueCount, At, LedgerOf, Tally, InCell, Colliding, Itself, Sketch.Column;
    var l, c := LedgerOf(s, h), After(s, h).counters;
    TrueCountIsTally(s, h, x);
    forall r | 0 <= r < s.depth
      ensures At(s, c, r, s.Column(x, r)) == TrueCount(s, h, x) + Tally(l, Colliding(s, x, r))
    {
      CellsAreTallies(s, h, r, s.Column(x, r));
      CellSplits(s, l, x, r);
    }
    row := LeastRow(s, c, x, s.depth);
    forall r | 0 <= r < s.depth ensures Tally(l, Colliding(s, x, row)) <= Tally(l, Colliding(s, x, r)) {
      MinAtMost(s, c, x, s.depth, r);
    }
  }

  lemma {:induction false} LeastRow(s: Sketch, c: seq<int>, x: Bytes, k: nat) returns (row: nat)
    requires Bounded(s, c) && 0 < k <= s.depth
    ensures row < k && MinTo(s, c, x, k) == At(s, c, row, s.Column(x, row))
    decreases k
  {
    hide At, Sketch.Column;
    row := k - 1;
    AtBounded(s, c, row, s.Column(x, row));
    if k > 1 {
      var other := LeastRow(s, c, x, k - 1);
      if At(s, c, other, s.Column(x, other)) < At(s, c, row, s.Column(x, row)) {
        row := other;
      }
    } else {
      assert MinTo(s, c, x, 0) == I64_MAX;
    }
  }
}
