/** What a TopK key promises over its whole life: batches arrive one after another, a
    batch that overflows a counter changes nothing, and increments are positive. */
module TopKGuarantee {
  import opened Bytes
  import opened CountMin
  import opened TopK
  import IH = IndexedHeap

  /** How often `x` was really counted. */
  function TrueCount(history: seq<Update>, x: Bytes): int {
    if history == [] then 0
    else
      var last := history[|history| - 1];
      TrueCount(history[..|history| - 1], x) + if last.element == x then last.increment else 0
  }

  ghost predicate Added(history: seq<Update>, x: Bytes) {
    exists i :: 0 <= i < |history| && history[i].element == x
  }

  ghost predicate Positive(updates: seq<Update>) {
    forall i :: 0 <= i < |updates| ==> updates[i].increment > 0
  }

  /** The sketch and the heap of a freshly created key. */
  ghost function Empty(s: Sketch): State
    requires s.Valid()
  {
    State(Zeros(s.width * s.depth), map[])
  }

  /** The life of a key: its state, and the updates of the batches that succeeded. */
  ghost function Life(s: Sketch, k: nat, batches: seq<seq<Update>>): (r: (State, seq<Update>))
    requires s.Valid() && k > 0
    ensures Sound(s, r.0)
  {
    if batches == [] then (Empty(s), [])
    else
      var n := |batches| - 1;
      var (st, history) := Life(s, k, batches[..n]);
      match AddAll(s, k, st, batches[n])
      case None => (st, history)
      case Some(staged) => (staged.state, history + batches[n])
  }

  // ---------------------------------------------------------------------
  // The invariant
  // ---------------------------------------------------------------------

  /** No cell of an element is below its true count. */
  ghost predicate NeverBelow(s: Sketch, c: seq<int>, history: seq<Update>) {
    && s.Holds(c)
    && forall x, row :: 0 <= row < s.depth ==> TrueCount(history, x) <= At(s, c, row, s.Column(x, row))
  }

  /** A stored count lies between the truth and the present estimate. */
  ghost predicate Bracketed(s: Sketch, st: State, history: seq<Update>)
    requires s.Holds(st.counters)
  {
    forall y :: y in st.heap ==> TrueCount(history, y) <= st.heap[y] <= Estimate(s, st.counters, y)
  }

  /** Until the heap is full nothing is missing from it. */
  ghost predicate NothingMissing(k: nat, heap: IH.Model, history: seq<Update>) {
    |heap| < k ==> forall x :: Added(history, x) ==> x in heap
  }

  /** Once it is full, whatever is outside was counted at most as often as any entry says. */
  ghost predicate NoneHeavier(k: nat, heap: IH.Model, history: seq<Update>) {
    |heap| == k ==> forall x, y :: x !in heap && y in heap ==> TrueCount(history, x) <= heap[y]
  }

  ghost predicate Inv(s: Sketch, k: nat, st: State, history: seq<Update>) {
    && Sound(s, st) && k > 0
    && Positive(history)
    && |st.heap| <= k
    && NeverBelow(s, st.counters, history)
    && Bracketed(s, st, history)
    && NothingMissing(k, st.heap, history)
    && NoneHeavier(k, st.heap, history)
  }

  lemma {:induction false} TrueCountGrows(history: seq<Update>, x: Bytes)
    requires Positive(history)
    ensures TrueCount(history, x) >= 0
    ensures !Added(history, x) ==> TrueCount(history, x) == 0
    decreases |history|
  {
    if history != [] {
      var shorter := history[..|history| - 1];
      assert forall i :: 0 <= i < |shorter| ==> shorter[i] == history[i];
      TrueCountGrows(shorter, x);
      if Added(shorter, x) {
        var i :| 0 <= i < |shorter| && shorter[i].element == x;
        assert history[i].element == x;
      } else if !Added(history, x) {
        assert history[|history| - 1].element != x;
      }
    }
  }

  lemma CountedOnce(history: seq<Update>, u: Update, x: Bytes)
    ensures TrueCount(history + [u], x) == TrueCount(history, x) + if u.element == x then u.increment else 0
    ensures Added(history + [u], x) <==> Added(history, x) || x == u.element
  {}

  /** An increment raises the element's own cells by exactly what the truth grows. */
  lemma NeverBelowStep(s: Sketch, c: seq<int>, history: seq<Update>, u: Update)
    requires NeverBelow(s, c, history) && u.increment > 0
    ensures NeverBelow(s, Incremented(s, c, u.element, u.increment), history + [u])
  {
    hide At, Bump;
    var c' := Incremented(s, c, u.element, u.increment);
    forall x, row | 0 <= row < s.depth
      ensures TrueCount(history + [u], x) <= At(s, c', row, s.Column(x, row))
    {
      CountedOnce(history, u, x);
      BumpAt(s, c, u.element, u.increment, s.depth, row, s.Column(x, row));
    }
  }

  lemma EstimateCovers(s: Sketch, c: seq<int>, history: seq<Update>, x: Bytes)
    requires Bounded(s, c) && NeverBelow(s, c, history)
    ensures TrueCount(history, x) <= Estimate(s, c, x)
  {
    hide At, MinTo;
    AtBounded(s, c, 0, s.Column(x, 0));
    assert TrueCount(history, x) <= At(s, c, 0, s.Column(x, 0));
    MinAtLeast(s, c, x, s.depth, TrueCount(history, x));
  }

  /** What the counts say about a heap, estimates aside. */
  ghost predicate Ranks(k: nat, m: IH.Model, history: seq<Update>) {
    && |m| <= k
    && (forall y :: y in m ==> TrueCount(history, y) <= m[y])
    && NothingMissing(k, m, history)
    && NoneHeavier(k, m, history)
  }

  /** What one counted element does to a heap that holds it or has room for it. */
  lemma StoredKeepsRanks(k: nat, m: IH.Model, history: seq<Update>, u: Update, est: i64)
    requires Ranks(k, m, history) && Positive(history) && u.increment > 0
    requires u.element in m || |m| < k
    requires u.element in m ==> m[u.element] <= est
    requires TrueCount(history + [u], u.element) <= est
    ensures Ranks(k, m[u.element := est], history + [u])
  {
    hide TrueCount, Added;
    var m' := m[u.element := est];
    assert m'.Keys == m.Keys + {u.element};
    assert u.element in m ==> m'.Keys == m.Keys;
    forall x
      ensures TrueCount(history + [u], x) == TrueCount(history, x) + if u.element == x then u.increment else 0
      ensures Added(history + [u], x) <==> Added(history, x) || x == u.element
      ensures TrueCount(history, x) >= 0
      ensures !Added(history, x) ==> TrueCount(history, x) == 0
    {
      CountedOnce(history, u, x);
      TrueCountGrows(history, x);
    }
    forall x, y | x !in m' && y in m' ensures TrueCount(history + [u], x) <= m'[y] || |m'| < k {
      assert TrueCount(history + [u], y) <= m'[y];
    }
  }

  /** What it does to a full heap that does not hold it. */
  lemma OfferKeepsRanks(k: nat, m: IH.Model, history: seq<Update>, u: Update, est: i64)
    requires Ranks(k, m, history) && k > 0 && |m| == k && u.element !in m
    requires TrueCount(history + [u], u.element) <= est
    ensures est <= m[IH.LeastOf(m)] ==> Ranks(k, m, history + [u])
    ensures est > m[IH.LeastOf(m)] ==> Ranks(k, (m - {IH.LeastOf(m)})[u.element := est], history + [u])
  {
    hide TrueCount, Added;
    var least := IH.LeastOf(m);
    IsLeastCount(m, least);
    var m' := (m - {least})[u.element := est];
    assert m'.Keys == m.Keys - {least} + {u.element};
    forall x
      ensures TrueCount(history + [u], x) == TrueCount(history, x) + if u.element == x then u.increment else 0
    {
      CountedOnce(history, u, x);
    }
  }

  lemma HeapStep(k: nat, m: IH.Model, history: seq<Update>, u: Update, est: i64)
    requires Ranks(k, m, history) && Positive(history) && k > 0 && u.increment > 0
    requires u.element in m ==> m[u.element] <= est
    requires TrueCount(history + [u], u.element) <= est
    ensures Ranks(k, IH.AddTo(m, k, u.element, est).0, history + [u])
  {
    if u.element in m || |m| < k {
      StoredKeepsRanks(k, m, history, u, est);
    } else {
      OfferKeepsRanks(k, m, history, u, est);
    }
  }

  lemma IsLeastCount(m: IH.Model, e: Bytes)
    requires IH.IsLeast(m, e)
    ensures forall y :: y in m ==> m[e] <= m[y]
  {}

  lemma BracketedStep(s: Sketch, k: nat, st: State, history: seq<Update>, u: Update, next: State, evicted: Option<Bytes>)
    requires Inv(s, k, st, history) && u.increment > 0
    requires AddOne(s, k, st, u) == Some((next, evicted))
    requires TrueCount(history + [u], u.element) <= Estimate(s, next.counters, u.element)
    ensures Bracketed(s, next, history + [u])
  {
    hide Estimate, At, Incremented, TrueCount;
    forall y | y in next.heap
      ensures TrueCount(history + [u], y) <= next.heap[y] <= Estimate(s, next.counters, y)
    {
      IncrementRaises(s, st.counters, u.element, u.increment, y);
      CountedOnce(history, u, y);
      if y == u.element && u.element !in st.heap {
        assert next.heap[y] == Estimate(s, next.counters, y);
      }
    }
  }

  lemma AddOneKeeps(s: Sketch, k: nat, st: State, history: seq<Update>, u: Update)
    requires Inv(s, k, st, history) && u.increment > 0 && AddOne(s, k, st, u).Some?
    ensures Inv(s, k, AddOne(s, k, st, u).value.0, history + [u])
  {
    hide IH.AddTo, Estimate, Incremented, TrueCount, Added;
    var (next, evicted) := AddOne(s, k, st, u).value;
    NeverBelowStep(s, st.counters, history, u);
    EstimateCovers(s, next.counters, history + [u], u.element);
    EstimateIsI64(s, next.counters, u.element);
    IncrementRaises(s, st.counters, u.element, u.increment, u.element);
    HeapStep(k, st.heap, history, u, Estimate(s, next.counters, u.element));
    BracketedStep(s, k, st, history, u, next, evicted);
  }

  lemma PositiveSplit(updates: seq<Update>)
    requires updates != [] && Positive(updates)
    ensures Positive(updates[..|updates| - 1]) && updates[|updates| - 1].increment > 0
  {}

  lemma {:induction false} BatchKeeps(s: Sketch, k: nat, st: State, history: seq<Update>, updates: seq<Update>)
    requires Inv(s, k, st, history) && Positive(updates) && AddAll(s, k, st, updates).Some?
    ensures Inv(s, k, AddAll(s, k, st, updates).value.state, history + updates)
    decreases |updates|
  {
    hide AddOne, Positive, NeverBelow, Bracketed, NothingMissing, NoneHeavier;
    if updates == [] {
      assert history + updates == history;
    } else {
      var n := |updates| - 1;
      assert Positive(updates[..n]) && updates[n].increment > 0 by { PositiveSplit(updates); }
      var mid := AddAll(s, k, st, updates[..n]).value.state;
      BatchKeeps(s, k, st, history, updates[..n]);
      AddOneKeeps(s, k, mid, history + updates[..n], updates[n]);
      assert history + updates[..n] + [updates[n]] == history + updates;
    }
  }

  lemma EmptyHolds(s: Sketch, k: nat)
    requires s.Valid() && k > 0
    ensures Inv(s, k, Empty(s), [])
  {
    hide Sketch.Column;
    var st := Empty(s);
    assert st.heap == map[] && Sound(s, st);
    forall x, row | 0 <= row < s.depth ensures TrueCount([], x) <= At(s, st.counters, row, s.Column(x, row)) {
      CellInRange(s, row, s.Column(x, row));
    }
  }

  lemma {:induction false} LifeKeeps(s: Sketch, k: nat, batches: seq<seq<Update>>)
    requires s.Valid() && k > 0
    requires forall i :: 0 <= i < |batches| ==> Positive(batches[i])
    ensures Inv(s, k, Life(s, k, batches).0, Life(s, k, batches).1)
    decreases |batches|
  {
    hide Inv, AddAll, Positive, Empty;
    if batches == [] {
      EmptyHolds(s, k);
    } else {
      var n := |batches| - 1;
      LifeKeeps(s, k, batches[..n]);
      var (st, history) := Life(s, k, batches[..n]);
      if AddAll(s, k, st, batches[n]).Some? {
        BatchKeeps(s, k, st, history, batches[n]);
      }
    }
  }

  // ---------------------------------------------------------------------
  // The guarantees
  // ---------------------------------------------------------------------

  /** Over every life of a key: estimates never undercount, a stored count lies between
      the truth and the estimate, a heap with room holds every element ever added, and
      once it is full no element outside was added more often than any entry says. */
  lemma NoHeavyHitterMissed(s: Sketch, k: nat, batches: seq<seq<Update>>)
    requires s.Valid() && k > 0
    requires forall i :: 0 <= i < |batches| ==> Positive(batches[i])
    ensures var (st, history) := Life(s, k, batches);
      && |st.heap| <= k
      && (forall x :: TrueCount(history, x) <= Estimate(s, st.counters, x))
      && (forall y :: y in st.heap ==> TrueCount(history, y) <= st.heap[y] <= Estimate(s, st.counters, y))
      && (|st.heap| < k ==> forall x :: Added(history, x) ==> x in st.heap)
      && (|st.heap| == k ==> forall x, y :: x !in st.heap && y in st.heap ==> TrueCount(history, x) <= st.heap[y])
  {
    hide Estimate, At, TrueCount, Life;
    LifeKeeps(s, k, batches);
    var (st, history) := Life(s, k, batches);
    forall x ensures TrueCount(history, x) <= Estimate(s, st.counters, x) {
      EstimateCovers(s, st.counters, history, x);
    }
  }

  /** An element added more often than the root of a full heap says is in the heap. */
  lemma HeavyElementIsListed(s: Sketch, k: nat, batches: seq<seq<Update>>, x: Bytes)
    requires s.Valid() && k > 0
    requires forall i :: 0 <= i < |batches| ==> Positive(batches[i])
    requires var (st, history) := Life(s, k, batches);
      st.heap != map[] && TrueCount(history, x) > st.heap[IH.LeastOf(st.heap)]
    ensures x in Life(s, k, batches).0.heap
  {
    hide Estimate, TrueCount, Life, Added;
    NoHeavyHitterMissed(s, k, batches);
    LifeKeeps(s, k, batches);
    var (st, history) := Life(s, k, batches);
    assert IH.IsLeast(st.heap, IH.LeastOf(st.heap));
    TrueCountGrows(history, x);
    TrueCountGrows(history, IH.LeastOf(st.heap));
  }

  /** The least stored count of a full heap never falls. */
  lemma RootNeverFalls(s: Sketch, k: nat, st: State, history: seq<Update>, u: Update)
    requires Inv(s, k, st, history) && u.increment > 0 && AddOne(s, k, st, u).Some?
    requires |st.heap| == k
    ensures var next := AddOne(s, k, st, u).value.0.heap;
      |next| == k && st.heap[IH.LeastOf(st.heap)] <= next[IH.LeastOf(next)]
  {
    hide Estimate, Incremented, TrueCount;
    var next := AddOne(s, k, st, u).value.0;
    IncrementRaises(s, st.counters, u.element, u.increment, u.element);
    EstimateIsI64(s, next.counters, u.element);
    ReplacedSize(st.heap, u.element, Estimate(s, next.counters, u.element));
    IsLeastCount(st.heap, IH.LeastOf(st.heap));
    assert next.heap != map[];
    var root := IH.LeastOf(next.heap);
    assert root in next.heap;
  }

  lemma {:induction false} BatchRootNeverFalls(s: Sketch, k: nat, st: State, history: seq<Update>, updates: seq<Update>)
    requires Inv(s, k, st, history) && Positive(updates) && AddAll(s, k, st, updates).Some? && |st.heap| == k
    ensures var next := AddAll(s, k, st, updates).value.state.heap;
      |next| == k && st.heap[IH.LeastOf(st.heap)] <= next[IH.LeastOf(next)]
    decreases |updates|
  {
    hide AddOne, Positive, NeverBelow, Bracketed, NothingMissing, NoneHeavier;
    if updates != [] {
      var n := |updates| - 1;
      PositiveSplit(updates);
      BatchRootNeverFalls(s, k, st, history, updates[..n]);
      BatchKeeps(s, k, st, history, updates[..n]);
      RootNeverFalls(s, k, AddAll(s, k, st, updates[..n]).value.state, history + updates[..n], updates[n]);
    }
  }

  /** Between any two moments of a life: a full heap stays full, and its least count never falls. */
  lemma {:induction false} RootNeverFallsInLife(s: Sketch, k: nat, batches: seq<seq<Update>>, i: nat)
    requires s.Valid() && k > 0 && i <= |batches| && |Life(s, k, batches[..i]).0.heap| == k
    requires forall j :: 0 <= j < |batches| ==> Positive(batches[j])
    ensures var before, after := Life(s, k, batches[..i]).0.heap, Life(s, k, batches).0.heap;
      |after| == k && before[IH.LeastOf(before)] <= after[IH.LeastOf(after)]
    decreases |batches|
  {
    hide AddAll, Positive, Inv;
    if i == |batches| {
      assert batches[..i] == batches;
    } else {
      var n := |batches| - 1;
      assert batches[..n][..i] == batches[..i];
      RootNeverFallsInLife(s, k, batches[..n], i);
      LifeKeeps(s, k, batches[..n]);
      var (st, history) := Life(s, k, batches[..n]);
      if AddAll(s, k, st, batches[n]).Some? {
        BatchRootNeverFalls(s, k, st, history, batches[n]);
      }
    }
  }

  // ---------------------------------------------------------------------
  // What a stored count is
  // ---------------------------------------------------------------------

  /** The counters after every update of a history. */
  ghost function CountersAfter(s: Sketch, history: seq<Update>): (c: seq<int>)
    requires s.Valid()
    ensures s.Holds(c)
  {
    if history == [] then Zeros(s.width * s.depth)
    else
      var last := history[|history| - 1];
      Incremented(s, CountersAfter(s, history[..|history| - 1]), last.element, last.increment)
  }

  ghost predicate LastAdd(history: seq<Update>, x: Bytes, t: nat) {
    && t < |history| && history[t].element == x
    && forall i :: t < i < |history| ==> history[i].element != x
  }

  /** The count stored for `y` is its estimate right after its last add. */
  ghost predicate StoredAt(s: Sketch, history: seq<Update>, y: Bytes, count: int, t: nat)
    requires s.Valid()
  {
    LastAdd(history, y, t) && count == Estimate(s, CountersAfter(s, history[..t + 1]), y)
  }

  ghost predicate Stored(s: Sketch, st: State, history: seq<Update>)
    requires s.Valid()
  {
    && st.counters == CountersAfter(s, history)
    && forall y :: y in st.heap ==> exists t: nat :: StoredAt(s, history, y, st.heap[y], t)
  }

  lemma LaterAdd(s: Sketch, history: seq<Update>, u: Update, y: Bytes, count: int, t: nat)
    requires s.Valid() && StoredAt(s, history, y, count, t) && u.element != y
    ensures StoredAt(s, history + [u], y, count, t)
  {
    hide Estimate, CountersAfter;
    assert (history + [u])[..t + 1] == history[..t + 1];
  }

  lemma StoredStep(s: Sketch, k: nat, st: State, history: seq<Update>, u: Update)
    requires Sound(s, st) && k > 0 && Stored(s, st, history) && AddOne(s, k, st, u).Some?
    ensures Stored(s, AddOne(s, k, st, u).value.0, history + [u])
  {
    hide Estimate, Incremented, Room, IH.LeastOf, StoredAt;
    var next, after := AddOne(s, k, st, u).value.0, history + [u];
    assert after[..|history|] == history;
    assert next.counters == CountersAfter(s, after);
    forall y | y in next.heap ensures exists t: nat :: StoredAt(s, after, y, next.heap[y], t) {
      if y == u.element {
        NewlyStored(s, history, u);
        assert StoredAt(s, after, y, next.heap[y], |history|);
      } else {
        var t: nat :| StoredAt(s, history, y, st.heap[y], t);
        LaterAdd(s, history, u, y, st.heap[y], t);
      }
    }
  }

  lemma NewlyStored(s: Sketch, history: seq<Update>, u: Update)
    requires s.Valid()
    ensures StoredAt(s, history + [u], u.element, Estimate(s, CountersAfter(s, history + [u]), u.element), |history|)
  {
    hide Estimate, CountersAfter;
    assert (history + [u])[..|history| + 1] == history + [u];
  }

  lemma {:induction false} StoredBatch(s: Sketch, k: nat, st: State, history: seq<Update>, updates: seq<Update>)
    requires Sound(s, st) && k > 0 && Stored(s, st, history) && AddAll(s, k, st, updates).Some?
    ensures Stored(s, AddAll(s, k, st, updates).value.state, history + updates)
    decreases |updates|
  {
    hide AddOne, Stored;
    if updates == [] {
      assert history + updates == history;
    } else {
      var n := |updates| - 1;
      StoredBatch(s, k, st, history, updates[..n]);
      StoredStep(s, k, AddAll(s, k, st, updates[..n]).value.state, history + updates[..n], updates[n]);
      assert history + updates[..n] + [updates[n]] == history + updates;
    }
  }

  /** Over every life each stored count is the element's estimate right after its last add. */
  lemma {:induction false} StoredCountsAreLastEstimates(s: Sketch, k: nat, batches: seq<seq<Update>>)
    requires s.Valid() && k > 0
    ensures Stored(s, Life(s, k, batches).0, Life(s, k, batches).1)
    decreases |batches|
  {
    hide AddAll, Stored;
    if batches == [] {
      StoredEmpty(s);
    } else {
      var n := |batches| - 1;
      StoredCountsAreLastEstimates(s, k, batches[..n]);
      var (st, history) := Life(s, k, batches[..n]);
      if AddAll(s, k, st, batches[n]).Some? {
        StoredBatch(s, k, st, history, batches[n]);
      }
    }
  }

  lemma StoredEmpty(s: Sketch)
    requires s.Valid()
    ensures Stored(s, Empty(s), [])
  {}
}
