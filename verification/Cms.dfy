/** The CMS key: staging a batch of increments against a file without touching it, and
    the query. Staged counters live in a map keyed by file offset. */
module Cms {
  import opened Bytes
  import opened CountMin
  import opened Counters

  const HEADER_SIZE: nat := 32

  datatype Item = Item(element: Bytes, count: i64)

  /** The counters of a file and the total its header keeps. */
  datatype State = State(counters: seq<int>, total: u64)

  datatype Staged = Staged(state: State, counts: seq<int>)

  ghost predicate Sound(s: Sketch, st: State) { Bounded(s, st.counters) }

  // ---------------------------------------------------------------------
  // One item at a time
  // ---------------------------------------------------------------------

  /** `cms_next_total_count`: additions are checked, subtractions stop at zero. */
  function NextTotal(total: u64, count: i64): Option<u64> {
    if count >= 0 then (if total + count <= U64_MAX then Some(total + count) else None)
    else if total + count < 0 then Some(0) else Some(total + count)
  }

  /** Count one item: the new state and the item's estimate in it. */
  ghost function CountOne(s: Sketch, st: State, item: Item): (r: Option<(State, int)>)
    requires Sound(s, st)
    ensures r.Some? ==> Sound(s, r.value.0)
  {
    if !Room(s, st.counters, item.element, item.count) || NextTotal(st.total, item.count).None? then None
    else
      RoomKeepsBounds(s, st.counters, item.element, item.count);
      var c := Incremented(s, st.counters, item.element, item.count);
      Some((State(c, NextTotal(st.total, item.count).value), Estimate(s, c, item.element)))
  }

  /** A whole batch, or nothing. The i-th count is a query right after the i-th item. */
  ghost function CountAll(s: Sketch, st: State, items: seq<Item>): (r: Option<Staged>)
    requires Sound(s, st)
    ensures r.Some? ==> Sound(s, r.value.state) && |r.value.counts| == |items|
  {
    if items == [] then Some(Staged(st, []))
    else
      var n := |items| - 1;
      match CountAll(s, st, items[..n])
      case None => None
      case Some(Staged(mid, counts)) =>
        match CountOne(s, mid, items[n])
        case None => None
        case Some((last, count)) => Some(Staged(last, counts + [count]))
  }

  lemma {:induction false} CountAllPrefixFails(s: Sketch, st: State, items: seq<Item>, n: nat)
    requires Sound(s, st) && n <= |items|
    requires CountAll(s, st, items[..n]).None?
    ensures CountAll(s, st, items).None?
    decreases |items|
  {
    if n < |items| {
      assert items[..|items| - 1][..n] == items[..n];
      CountAllPrefixFails(s, st, items[..|items| - 1], n);
    } else {
      assert items[..n] == items;
    }
  }

  lemma {:induction false} CountsAreI64(s: Sketch, st: State, items: seq<Item>)
    requires Sound(s, st) && CountAll(s, st, items).Some?
    ensures AllI64(CountAll(s, st, items).value.counts)
    decreases |items|
  {
    hide Estimate, Incremented, Room;
    if items != [] {
      var n := |items| - 1;
      CountsAreI64(s, st, items[..n]);
      EstimateIsI64(s, CountAll(s, st, items).value.state.counters, items[n].element);
    }
  }

  /** Each returned count is the query of that element after that prefix of the batch. */
  lemma {:induction false} CountsArePrefixQueries(s: Sketch, st: State, items: seq<Item>, i: nat)
    requires Sound(s, st) && CountAll(s, st, items).Some? && i < |items|
    ensures CountAll(s, st, items[..i + 1]).Some?
    ensures CountAll(s, st, items).value.counts[i]
         == Estimate(s, CountAll(s, st, items[..i + 1]).value.state.counters, items[i].element)
    decreases |items|
  {
    var n := |items| - 1;
    if i < n {
      CountsArePrefixQueries(s, st, items[..n], i);
      assert items[..n][..i + 1] == items[..i + 1];
    } else {
      assert items[..i + 1] == items;
    }
  }

  // ---------------------------------------------------------------------
  // The staged map
  // ---------------------------------------------------------------------

  function Offset(cell: nat): nat { HEADER_SIZE + 8 * cell }

  /** Every staged offset is a counter's. */
  ghost predicate Cells(staged: map<nat, int>, n: nat) {
    forall o :: o in staged ==> exists i: nat :: i < n && o == Offset(i)
  }

  /** The file's counters seen through the staged ones. */
  function Overlay(c: seq<int>, staged: map<nat, int>): (v: seq<int>)
    ensures |v| == |c|
  {
    seq(|c|, i requires 0 <= i < |c| => if Offset(i) in staged then staged[Offset(i)] else c[i])
  }

  lemma OverlayPut(c: seq<int>, staged: map<nat, int>, i: nat, v: int)
    requires i < |c| && Cells(staged, |c|)
    ensures Cells(staged[Offset(i) := v], |c|)
    ensures Overlay(c, staged[Offset(i) := v]) == Overlay(c, staged)[i := v]
  {}

  /** The staged entries of the first `n` cells in offset order. */
  function InOrder(staged: map<nat, int>, n: nat): (u: seq<(nat, int)>)
  {
    if n == 0 then []
    else if Offset(n - 1) in staged then InOrder(staged, n - 1) + [(Offset(n - 1), staged[Offset(n - 1)])]
    else InOrder(staged, n - 1)
  }

  ghost predicate Increasing(u: seq<(nat, int)>, below: nat) {
    && (forall i :: 0 <= i < |u| ==> u[i].0 < below)
    && (forall i, j :: 0 <= i < j < |u| ==> u[i].0 < u[j].0)
  }

  /** Sorting the staged entries: strictly increasing offsets. */
  lemma {:induction false} InOrderIsSorted(staged: map<nat, int>, n: nat)
    ensures Increasing(InOrder(staged, n), Offset(n))
  {
    if n > 0 {
      InOrderIsSorted(staged, n - 1);
      var shorter := InOrder(staged, n - 1);
      assert forall i :: 0 <= i < |shorter| ==> shorter[i].0 < Offset(n - 1);
    }
  }

  /** Every staged counter is listed with its value, and nothing else is. */
  lemma {:induction false} InOrderHolds(staged: map<nat, int>, n: nat, update: (nat, int))
    ensures update in InOrder(staged, n) <==>
      update.0 in staged && staged[update.0] == update.1 && exists cell: nat :: cell < n && update.0 == Offset(cell)
  {
    if n > 0 {
      InOrderHolds(staged, n - 1, update);
      assert (exists cell: nat :: cell < n && update.0 == Offset(cell)) <==>
        update.0 == Offset(n - 1) || exists cell: nat :: cell < n - 1 && update.0 == Offset(cell);
    }
  }

  // ---------------------------------------------------------------------
  // The code
  // ---------------------------------------------------------------------

  /** The inner loop of `cms_stage_increments`: one item, row by row. */
  method StageOne(s: Sketch, file: seq<int>, staged: map<nat, int>, item: Item)
    returns (r: Result<(map<nat, int>, i64)>)
    requires s.Holds(file) && Cells(staged, |file|) && Bounded(s, Overlay(file, staged))
    ensures r.Ok? <==> Room(s, Overlay(file, staged), item.element, item.count)
    ensures r.Ok? ==>
      && Cells(r.value.0, |file|)
      && Overlay(file, r.value.0) == Incremented(s, Overlay(file, staged), item.element, item.count)
      && r.value.1 == Estimate(s, Overlay(file, r.value.0), item.element)
  {
    hide At, Bump, Sketch.Cell, Sketch.Column, Overlay, Cells;
    var next: map<nat, int>, least: i64 := staged, I64_MAX;
    ghost var view := Overlay(file, staged);
    var e, n := item.element, item.count;
    BumpOne(s, view, e, n, 0);
    for row := 0 to s.depth
      invariant Cells(next, |file|)
      invariant Overlay(file, next) == Bump(s, view, e, n, row)
      invariant forall i :: 0 <= i < row ==> -(I64_MAX + 1) <= At(s, view, i, s.Column(e, i)) + n <= I64_MAX
      invariant least == MinTo(s, Incremented(s, view, e, n), e, row)
    {
      var cell := s.Cell(e, row);
      OwnCell(s, Overlay(file, next), e, row);
      BumpAt(s, view, e, n, row, row, s.Column(e, row));
      BumpAt(s, view, e, n, s.depth, row, s.Column(e, row));
      BumpOne(s, view, e, n, row);
      OverlayAt(file, next, cell);
      var current := if Offset(cell) in next then next[Offset(cell)] else file[cell];
      if current + n > I64_MAX || current + n < -(I64_MAX + 1) { return Err; }
      OverlayPut(file, next, cell, current + n);
      next := next[Offset(cell) := current + n];
      least := Least(least, current + n);
    }
    return Ok((next, least));
  }

  lemma OverlayAt(c: seq<int>, staged: map<nat, int>, i: nat)
    requires i < |c|
    ensures Overlay(c, staged)[i] == if Offset(i) in staged then staged[Offset(i)] else c[i]
  {}

  datatype IncrementPlan = IncrementPlan(counts: seq<int>, updates: seq<(nat, int)>, total: u64)

  /** `cms_stage_increments`: the plan of a batch. */
  method StageIncrements(s: Sketch, file: seq<int>, total: u64, items: seq<Item>)
    returns (r: Result<IncrementPlan>, ghost staged: map<nat, int>)
    requires Bounded(s, file)
    ensures r.Ok? <==> CountAll(s, State(file, total), items).Some?
    ensures r.Ok? ==>
      && Cells(staged, |file|)
      && r.value.updates == InOrder(staged, |file|)
      && CountAll(s, State(file, total), items)
         == Some(Staged(State(Overlay(file, staged), r.value.total), r.value.counts))
  {
    hide Overlay, Cells, Room, Incremented, Estimate;
    var next: map<nat, int>, counts, sum := map[], [], total;
    ghost var start := State(file, total);
    OverlayNothing(file);
    for n := 0 to |items|
      invariant Cells(next, |file|)
      invariant CountAll(s, start, items[..n]) == Some(Staged(State(Overlay(file, next), sum), counts))
    {
      assert items[..n + 1][..n] == items[..n];
      var one := StageOne(s, file, next, items[n]);
      if one.Err? || NextTotal(sum, items[n].count).None? {
        CountAllPrefixFails(s, start, items, n + 1);
        return Err, next;
      }
      next, sum, counts := one.value.0, NextTotal(sum, items[n].count).value, counts + [one.value.1];
    }
    assert items[..|items|] == items;
    return Ok(IncrementPlan(counts, InOrder(next, |file|), sum)), next;
  }

  lemma OverlayNothing(c: seq<int>)
    ensures Cells(map[], |c|) && Overlay(c, map[]) == c
  {}

  /** `cms_query_counts` for one element. */
  method QueryCount(s: Sketch, file: seq<int>, e: Bytes) returns (least: int)
    requires Bounded(s, file)
    ensures least == Estimate(s, file, e)
    ensures forall row :: 0 <= row < s.depth ==> least <= At(s, file, row, s.Column(e, row))
    ensures exists row :: 0 <= row < s.depth && least == At(s, file, row, s.Column(e, row))
  {
    hide At, Sketch.Cell, Sketch.Column;
    least := I64_MAX;
    for row := 0 to s.depth
      invariant least == MinTo(s, file, e, row)
      invariant forall i :: 0 <= i < row ==> least <= At(s, file, i, s.Column(e, i))
      invariant (row == 0 && least == I64_MAX) || exists i :: 0 <= i < row && least == At(s, file, i, s.Column(e, i))
    {
      OwnCell(s, file, e, row);
      AtBounded(s, file, row, s.Column(e, row));
      var next := file[s.Cell(e, row)];
      least := Least(least, next);
    }
  }
}
