/** TopK: a count-min sketch that feeds a bounded heap, and batches of updates to both. */
module TopK {
  import opened Bytes
  import opened CountMin
  import IH = IndexedHeap

  datatype Update = Update(element: Bytes, increment: i64)

  /** The counters and what the heap holds. */
  datatype State = State(counters: seq<int>, heap: IH.Model)

  datatype Staged = Staged(state: State, evicted: seq<Option<Bytes>>)

  ghost predicate Sound(s: Sketch, st: State) {
    Bounded(s, st.counters)
  }

  /** One element of a batch: count it, then offer its new estimate to the heap. */
  ghost function AddOne(s: Sketch, k: nat, st: State, u: Update): (r: Option<(State, Option<Bytes>)>)
    requires Sound(s, st) && k > 0
    ensures r.Some? ==> Sound(s, r.value.0)
  {
    if !Room(s, st.counters, u.element, u.increment) then None
    else
      RoomKeepsBounds(s, st.counters, u.element, u.increment);
      var c := Incremented(s, st.counters, u.element, u.increment);
      EstimateIsI64(s, c, u.element);
      var (heap, evicted) := IH.AddTo(st.heap, k, u.element, Estimate(s, c, u.element));
      Some((State(c, heap), evicted))
  }

  /** A whole batch, or nothing if a counter would overflow on the way. */
  ghost function AddAll(s: Sketch, k: nat, st: State, updates: seq<Update>): (r: Option<Staged>)
    requires Sound(s, st) && k > 0
    ensures r.Some? ==> Sound(s, r.value.state) && |r.value.evicted| == |updates|
  {
    if updates == [] then Some(Staged(st, []))
    else
      var n := |updates| - 1;
      match AddAll(s, k, st, updates[..n])
      case None => None
      case Some(Staged(mid, evicted)) =>
        match AddOne(s, k, mid, updates[n])
        case None => None
        case Some((last, e)) => Some(Staged(last, evicted + [e]))
  }

  lemma {:induction false} AddAllPrefixFails(s: Sketch, k: nat, st: State, updates: seq<Update>, n: nat)
    requires Sound(s, st) && k > 0 && n <= |updates|
    requires AddAll(s, k, st, updates[..n]).None?
    ensures AddAll(s, k, st, updates).None?
    decreases |updates|
  {
    if n < |updates| {
      assert updates[..|updates| - 1][..n] == updates[..n];
      AddAllPrefixFails(s, k, st, updates[..|updates| - 1], n);
    } else {
      assert updates[..n] == updates;
    }
  }

  lemma ReplacedSize(m: IH.Model, e: Bytes, est: i64)
    requires m != map[]
    ensures e in m ==> |m[e := est]| == |m|
    ensures e !in m ==> |(m - {IH.LeastOf(m)})[e := est]| == |m|
  {}

  lemma OfferGrows(m: IH.Model, k: nat, e: Bytes, est: i64)
    requires k > 0
    ensures |m| <= |IH.AddTo(m, k, e, est).0|
  {
    if m != map[] {
      ReplacedSize(m, e, est);
    }
  }

  /** A batch never leaves fewer elements in the heap. */
  lemma {:induction false} HeapGrows(s: Sketch, k: nat, st: State, updates: seq<Update>)
    requires Sound(s, st) && k > 0 && AddAll(s, k, st, updates).Some?
    ensures |st.heap| <= |AddAll(s, k, st, updates).value.state.heap|
    decreases |updates|
  {
    hide Estimate, Incremented, Room, IH.AddTo;
    if updates != [] {
      var n := |updates| - 1;
      HeapGrows(s, k, st, updates[..n]);
      var mid, last := AddAll(s, k, st, updates[..n]).value.state, AddAll(s, k, st, updates).value.state;
      EstimateIsI64(s, last.counters, updates[n].element);
      OfferGrows(mid.heap, k, updates[n].element, Estimate(s, last.counters, updates[n].element));
    }
  }

  /** The heap after the first `n` updates of a batch. */
  ghost function HeapAfter(s: Sketch, k: nat, st: State, updates: seq<Update>, n: nat): IH.Model
    requires Sound(s, st) && k > 0 && n <= |updates| && AddAll(s, k, st, updates).Some?
  {
    if AddAll(s, k, st, updates[..n]).None? then AddAllPrefixFails(s, k, st, updates, n); st.heap
    else AddAll(s, k, st, updates[..n]).value.state.heap
  }

  lemma {:induction false} PrefixSucceeds(s: Sketch, k: nat, st: State, updates: seq<Update>, n: nat)
    requires Sound(s, st) && k > 0 && n <= |updates| && AddAll(s, k, st, updates).Some?
    ensures AddAll(s, k, st, updates[..n]).Some?
    ensures AddAll(s, k, st, updates[..n]).value.evicted == AddAll(s, k, st, updates).value.evicted[..n]
    decreases |updates|
  {
    hide AddOne;
    if n < |updates| {
      assert updates[..|updates| - 1][..n] == updates[..n];
      PrefixSucceeds(s, k, st, updates[..|updates| - 1], n);
    } else {
      assert updates[..n] == updates;
    }
  }

  /** The answer is the element that left, if one did. */
  ghost predicate Leaver(before: IH.Model, after: IH.Model, answer: Option<Bytes>) {
    forall x :: answer == Some(x) <==> x in before && x !in after
  }

  /** Result `n` of a batch names the element that update `n` takes out of the heap. */
  ghost predicate NamesLeavers(s: Sketch, k: nat, st: State, updates: seq<Update>, evicted: seq<Option<Bytes>>)
    requires Sound(s, st) && k > 0 && AddAll(s, k, st, updates).Some?
  {
    && |evicted| == |updates|
    && forall n :: 0 <= n < |updates| ==>
         Leaver(HeapAfter(s, k, st, updates, n), HeapAfter(s, k, st, updates, n + 1), evicted[n])
  }

  lemma BatchEvictions(s: Sketch, k: nat, st: State, updates: seq<Update>)
    requires Sound(s, st) && k > 0 && AddAll(s, k, st, updates).Some?
    ensures NamesLeavers(s, k, st, updates, AddAll(s, k, st, updates).value.evicted)
  {
    hide AddAll, HeapAfter, Leaver;
    forall n | 0 <= n < |updates|
      ensures Leaver(HeapAfter(s, k, st, updates, n), HeapAfter(s, k, st, updates, n + 1),
                     AddAll(s, k, st, updates).value.evicted[n])
    {
      OneEviction(s, k, st, updates, n);
    }
  }

  lemma OneEviction(s: Sketch, k: nat, st: State, updates: seq<Update>, n: nat)
    requires Sound(s, st) && k > 0 && n < |updates| && AddAll(s, k, st, updates).Some?
    ensures Leaver(HeapAfter(s, k, st, updates, n), HeapAfter(s, k, st, updates, n + 1),
                   AddAll(s, k, st, updates).value.evicted[n])
  {
    hide Estimate, Incremented, Room, IH.AddTo;
    PrefixSucceeds(s, k, st, updates, n);
    PrefixSucceeds(s, k, st, updates, n + 1);
    assert updates[..n + 1][..n] == updates[..n];
    var mid, next := AddAll(s, k, st, updates[..n]).value.state, AddAll(s, k, st, updates[..n + 1]).value.state;
    EstimateIsI64(s, next.counters, updates[n].element);
    IH.AddToOffers(mid.heap, k, updates[n].element, Estimate(s, next.counters, updates[n].element));
    assert AddAll(s, k, st, updates[..n + 1]).value.evicted[n] == AddAll(s, k, st, updates).value.evicted[n];
  }

  // ---------------------------------------------------------------------
  // The code: counters and heap updated in place
  // ---------------------------------------------------------------------

  /** `v2_cms_increment`: all new values are computed before any is stored. */
  method CmsIncrement(s: Sketch, counters: seq<int>, e: Bytes, n: i64) returns (r: Result<(seq<int>, i64)>)
    requires Bounded(s, counters)
    ensures r.Ok? <==> Room(s, counters, e, n)
    ensures r.Ok? ==> r.value.0 == Incremented(s, counters, e, n) && r.value.1 == Estimate(s, r.value.0, e)
  {
    hide At, Bump, Sketch.Cell, Sketch.Column;
    var least: i64 := I64_MAX;
    var updates: seq<(nat, int)> := [];
    for row := 0 to s.depth
      invariant |updates| == row
      invariant forall i :: 0 <= i < row ==>
        && updates[i].0 == s.Cell(e, i)
        && updates[i].1 == At(s, counters, i, s.Column(e, i)) + n
        && -(I64_MAX + 1) <= updates[i].1 <= I64_MAX
      invariant least == MinTo(s, Incremented(s, counters, e, n), e, row)
    {
      OwnCell(s, counters, e, row);
      BumpAt(s, counters, e, n, s.depth, row, s.Column(e, row));
      var next := counters[s.Cell(e, row)] + n;
      if next > I64_MAX || next < -(I64_MAX + 1) { return Err; }
      updates := updates + [(s.Cell(e, row), next)];
      least := Least(least, next);
    }
    var c := counters;
    BumpOne(s, counters, e, n, 0);
    for row := 0 to s.depth
      invariant c == Bump(s, counters, e, n, row)
    {
      OwnCell(s, c, e, row);
      BumpAt(s, counters, e, n, row, row, s.Column(e, row));
      BumpOne(s, counters, e, n, row);
      c := c[updates[row].0 := updates[row].1];
    }
    return Ok((c, least));
  }

  /** `v2_stage_mutation` after the file has been read: the new counters, the new heap
      entries and one result per update. */
  method StageMutation(s: Sketch, k: nat, counters: seq<int>, entries: seq<IH.Entry>, updates: seq<Update>)
    returns (r: Result<(seq<int>, seq<IH.Entry>, seq<Option<Bytes>>)>)
    requires Bounded(s, counters) && k > 0
    ensures r.Ok? ==> |entries| <= k && IH.Distinct(entries)
    ensures r.Ok? ==>
      && IH.Distinct(r.value.1) && |r.value.1| <= k
      && AddAll(s, k, State(counters, IH.ModelOf(entries)), updates)
         == Some(Staged(State(r.value.0, IH.ModelOf(r.value.1)), r.value.2))
    ensures r.Err? && |entries| <= k && IH.Distinct(entries) ==>
      AddAll(s, k, State(counters, IH.ModelOf(entries)), updates).None?
  {
    hide Estimate, Incremented, Room, IH.AddTo, IH.ModelOf;
    var made := IH.V2IndexedHeap.New(entries, k);
    if made.None? { return Err; }
    var heap := made.value;
    var c, results := counters, [];
    ghost var start := State(counters, IH.ModelOf(entries));
    for n := 0 to |updates|
      invariant heap.Valid() && heap.capacity == k && fresh(heap)
      invariant AddAll(s, k, start, updates[..n]) == Some(Staged(State(c, heap.Model()), results))
    {
      assert updates[..n + 1][..n] == updates[..n];
      var counted := CmsIncrement(s, c, updates[n].element, updates[n].increment);
      if counted.Err? {
        AddAllPrefixFails(s, k, start, updates, n + 1);
        return Err;
      }
      c := counted.value.0;
      var evicted := heap.Add(updates[n].element, counted.value.1);
      results := results + [evicted];
    }
    assert updates[..|updates|] == updates;
    IH.ContentsIsModel(heap.entries, heap.positions);
    return Ok((c, heap.entries, results));
  }
}
