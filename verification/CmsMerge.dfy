/** Weighted merge of CMS files: the destination becomes, counter by counter, the weighted
    sum of its sources, computed in chunks with 128-bit accumulators. */
module CmsMerge {
  import opened Bytes
  import opened CountMin
  import opened Counters
  import opened Cms

  const MAX_MERGE_COUNTER_VISITS: nat := 16_777_216
  const CHUNK_COUNTERS: nat := 8_192
  const I128_MAX: nat := 0x7FFF_FFFF_FFFF_FFFF_FFFF_FFFF_FFFF_FFFF

  predicate IsI128(n: int) { -(I128_MAX + 1) <= n <= I128_MAX }

  /** A source file: its dimensions and what it holds. */
  datatype Source = Source(width: nat, depth: nat, state: State)

  // ---------------------------------------------------------------------
  // Weighted sums
  // ---------------------------------------------------------------------

  function Dot(values: seq<int>, weights: seq<int>): int
    requires |values| == |weights|
  {
    if values == [] then 0
    else
      var n := |values| - 1;
      Dot(values[..n], weights[..n]) + values[n] * weights[n]
  }

  lemma DotStep(values: seq<int>, weights: seq<int>, k: nat)
    requires |values| == |weights| && k < |values|
    ensures Dot(values[..k + 1], weights[..k + 1]) == Dot(values[..k], weights[..k]) + values[k] * weights[k]
  {
    assert values[..k + 1][..k] == values[..k] && weights[..k + 1][..k] == weights[..k];
  }

  /** Counter `i` of every source. */
  function Column(sources: seq<Source>, i: nat): (v: seq<int>)
    requires forall k :: 0 <= k < |sources| ==> i < |sources[k].state.counters|
    ensures |v| == |sources|
  {
    seq(|sources|, k requires 0 <= k < |sources| => sources[k].state.counters[i])
  }

  function Totals(sources: seq<Source>): (v: seq<int>)
    ensures |v| == |sources|
  {
    seq(|sources|, k requires 0 <= k < |sources| => sources[k].state.total)
  }

  /** Every partial sum stays within i128, and the final one is a counter again. */
  ghost predicate CounterFits(values: seq<int>, weights: seq<int>)
    requires |values| == |weights|
  {
    && (forall k :: 0 <= k <= |values| ==> IsI128(Dot(values[..k], weights[..k])))
    && 0 <= Dot(values, weights) <= I64_MAX
  }

  /** Every partial total stays within u64. */
  ghost predicate TotalFits(totals: seq<int>, weights: seq<int>)
    requires |totals| == |weights|
  {
    forall k :: 0 <= k <= |totals| ==> 0 <= Dot(totals[..k], weights[..k]) <= U64_MAX
  }

  ghost predicate Matching(s: Sketch, sources: seq<Source>) {
    forall k :: 0 <= k < |sources| ==> sources[k].width == s.width && sources[k].depth == s.depth
  }

  ghost predicate Readable(sources: seq<Source>) {
    forall k :: 0 <= k < |sources| ==> |sources[k].state.counters| == sources[k].width * sources[k].depth
  }

  /** The merge is accepted. */
  ghost predicate Accepts(s: Sketch, sources: seq<Source>, weights: seq<int>)
    requires s.Valid() && Readable(sources)
  {
    && |sources| == |weights|
    && s.width * s.depth * |sources| <= MAX_MERGE_COUNTER_VISITS
    && Matching(s, sources)
    && TotalFits(Totals(sources), weights)
    && forall i :: 0 <= i < s.width * s.depth ==> CounterFits(Column(sources, i), weights)
  }

  /** The unchunked linear combination. */
  function Merged(s: Sketch, sources: seq<Source>, weights: seq<int>): (c: seq<int>)
    requires |sources| == |weights|
    requires forall k :: 0 <= k < |sources| ==> |sources[k].state.counters| == s.width * s.depth
    ensures |c| == s.width * s.depth
  {
    seq(s.width * s.depth, i requires 0 <= i < s.width * s.depth => Dot(Column(sources, i), weights))
  }

  /** What a merge leaves in the destination: no sources, no change. */
  ghost function MergeInto(s: Sketch, dst: State, sources: seq<Source>, weights: seq<int>): (r: Option<State>)
    requires Sound(s, dst) && Readable(sources)
    ensures r.Some? ==> Sound(s, r.value)
  {
    if !Accepts(s, sources, weights) then None
    else if sources == [] then Some(dst)
    else
      assert Totals(sources)[..|sources|] == Totals(sources) && weights[..|sources|] == weights;
      Some(State(Merged(s, sources, weights), Dot(Totals(sources), weights)))
  }

  // ---------------------------------------------------------------------
  // The code
  // ---------------------------------------------------------------------

  /** The sum of counter `i` over the first `k` sources. */
  function Partial(sources: seq<Source>, weights: seq<int>, i: nat, k: nat): int
    requires |sources| == |weights| && k <= |sources|
    requires forall k :: 0 <= k < |sources| ==> i < |sources[k].state.counters|
  {
    Dot(Column(sources, i)[..k], weights[..k])
  }

  ghost predicate PartialsFit(sources: seq<Source>, weights: seq<int>, i: nat, k: nat)
    requires |sources| == |weights| && k <= |sources|
    requires forall k :: 0 <= k < |sources| ==> i < |sources[k].state.counters|
  {
    forall m :: 0 <= m <= k ==> IsI128(Partial(sources, weights, i, m))
  }

  lemma PartialStep(sources: seq<Source>, weights: seq<int>, i: nat, k: nat)
    requires |sources| == |weights| && k < |sources|
    requires forall k :: 0 <= k < |sources| ==> i < |sources[k].state.counters|
    ensures Partial(sources, weights, i, 0) == 0
    ensures Partial(sources, weights, i, k + 1)
         == Partial(sources, weights, i, k) + sources[k].state.counters[i] * weights[k]
    ensures PartialsFit(sources, weights, i, k + 1) <==>
      PartialsFit(sources, weights, i, k) && IsI128(Partial(sources, weights, i, k + 1))
  {
    hide Dot;
    DotNothing(Column(sources, i)[..0], weights[..0]);
    DotStep(Column(sources, i), weights, k);
  }

  lemma {:induction false} PartialsStay(sources: seq<Source>, weights: seq<int>, i: nat)
    requires |sources| == |weights|
    requires forall k :: 0 <= k < |sources| ==> i < |sources[k].state.counters|
    ensures Partial(sources, weights, i, 0) == 0 && PartialsFit(sources, weights, i, 0)
    ensures Partial(sources, weights, i, |sources|) == Dot(Column(sources, i), weights)
    ensures CounterFits(Column(sources, i), weights) <==>
      PartialsFit(sources, weights, i, |sources|) && 0 <= Partial(sources, weights, i, |sources|) <= I64_MAX
  {
    hide Dot;
    DotNothing(Column(sources, i)[..0], weights[..0]);
    assert Column(sources, i)[..|sources|] == Column(sources, i) && weights[..|sources|] == weights;
    var v := Column(sources, i);
    assert forall m :: 0 <= m <= |v| ==> Partial(sources, weights, i, m) == Dot(v[..m], weights[..m]);
  }

  /** Accumulators `from..to` hold the sums of the first `k` sources. */
  ghost predicate Holds(acc: seq<int>, sources: seq<Source>, weights: seq<int>, start: nat, from: nat, to: nat, k: nat)
    requires |sources| == |weights| && k <= |sources| && start <= from <= to <= start + |acc|
    requires forall k :: 0 <= k < |sources| ==> to <= |sources[k].state.counters|
  {
    forall i :: from <= i < to ==>
      acc[i - start] == Partial(sources, weights, i, k) && PartialsFit(sources, weights, i, k)
  }

  /** Add source `k` to the accumulators of one chunk. */
  method Accumulate(acc: array<int>, sources: seq<Source>, weights: seq<int>, n: nat, start: nat, k: nat)
    returns (ok: bool, ghost bad: nat)
    requires |sources| == |weights| && start + acc.Length <= n && k < |sources|
    requires forall k :: 0 <= k < |sources| ==> |sources[k].state.counters| == n
    requires Holds(acc[..], sources, weights, start, start, start + acc.Length, k)
    modifies acc
    ensures ok ==> Holds(acc[..], sources, weights, start, start, start + acc.Length, k + 1)
    ensures !ok ==> start <= bad < start + acc.Length && !PartialsFit(sources, weights, bad, k + 1)
  {
    hide Partial, PartialsFit;
    var end := start + acc.Length;
    for j := 0 to acc.Length
      invariant Holds(acc[..], sources, weights, start, start, start + j, k + 1)
      invariant Holds(acc[..], sources, weights, start, start + j, end, k)
    {
      var i := start + j;
      PartialStep(sources, weights, i, k);
      assert acc[j] == Partial(sources, weights, i, k);
      var sum := acc[j] + sources[k].state.counters[i] * weights[k];
      if !IsI128(sum) { return false, i; }
      acc[j] := sum;
    }
    return true, 0;
  }

  /** One chunk of counters: accumulate every source, then finalize. */
  method MergeChunk(sources: seq<Source>, weights: seq<int>, n: nat, start: nat, count: nat)
    returns (r: Result<seq<int>>)
    requires |sources| == |weights| && start + count <= n
    requires forall k :: 0 <= k < |sources| ==> |sources[k].state.counters| == n
    ensures r.Ok? <==> forall i :: start <= i < start + count ==> CounterFits(Column(sources, i), weights)
    ensures r.Ok? ==> |r.value| == count && AllI64(r.value)
    ensures r.Ok? ==> forall i :: start <= i < start + count ==> r.value[i - start] == Dot(Column(sources, i), weights)
  {
    hide Dot, Partial, PartialsFit, CounterFits;
    var acc := new int[count](_ => 0);
    forall i | start <= i < start + count
      ensures Partial(sources, weights, i, 0) == 0 && PartialsFit(sources, weights, i, 0)
    {
      PartialsStay(sources, weights, i);
    }
    for k := 0 to |sources|
      invariant Holds(acc[..], sources, weights, start, start, start + count, k)
    {
      var ok, bad := Accumulate(acc, sources, weights, n, start, k);
      if !ok {
        LaterPartials(sources, weights, bad, k + 1);
        PartialsStay(sources, weights, bad);
        return Err;
      }
    }
    var output: seq<int> := [];
    for j := 0 to count
      invariant |output| == j && AllI64(output)
      invariant Holds(acc[..], sources, weights, start, start, start + count, |sources|)
      invariant forall i :: start <= i < start + j ==>
        CounterFits(Column(sources, i), weights) && output[i - start] == Dot(Column(sources, i), weights)
    {
      PartialsStay(sources, weights, start + j);
      assert acc[j] == Partial(sources, weights, start + j, |sources|);
      if acc[j] < 0 || acc[j] > I64_MAX { return Err; }
      output := output + [acc[j]];
    }
    return Ok(output);
  }

  lemma LaterPartials(sources: seq<Source>, weights: seq<int>, i: nat, k: nat)
    requires |sources| == |weights| && k <= |sources|
    requires forall k :: 0 <= k < |sources| ==> i < |sources[k].state.counters|
    ensures PartialsFit(sources, weights, i, |sources|) ==> PartialsFit(sources, weights, i, k)
  {}

  lemma DotNothing(v: seq<int>, w: seq<int>)
    requires |v| == |w| == 0
    ensures Dot(v, w) == 0
  {}

  /** The totals loop of `cms_stage_merge`. */
  method MergeTotal(totals: seq<int>, weights: seq<int>) returns (r: Result<u64>)
    requires |totals| == |weights|
    ensures r.Ok? <==> TotalFits(totals, weights)
    ensures r.Ok? ==> r.value == Dot(totals, weights)
  {
    hide Dot;
    var sum: u64 := 0;
    DotNothing(totals[..0], weights[..0]);
    for k := 0 to |totals|
      invariant sum == Dot(totals[..k], weights[..k])
      invariant forall m :: 0 <= m <= k ==> 0 <= Dot(totals[..m], weights[..m]) <= U64_MAX
    {
      DotStep(totals, weights, k);
      var next := sum + totals[k] * weights[k];
      if next < 0 || next > U64_MAX { return Err; }
      sum := next;
    }
    assert totals[..|totals|] == totals && weights[..|totals|] == weights;
    return Ok(sum);
  }

  datatype MergePlan = MergePlan(chunks: seq<seq<int>>, total: Option<u64>)

  /** The chunks one after the other. */
  function Flatten(chunks: seq<seq<int>>): seq<int> {
    if chunks == [] then [] else Flatten(chunks[..|chunks| - 1]) + chunks[|chunks| - 1]
  }

  ghost predicate FullChunks(chunks: seq<seq<int>>, n: int) {
    forall c :: 0 <= c < |chunks| ==> AllI64(chunks[c]) && (c < n ==> |chunks[c]| == CHUNK_COUNTERS)
  }

  /** The chunk loop: all counters of the merge, cut into chunks, unless one does not fit. */
  method MergeChunks(s: Sketch, sources: seq<Source>, weights: seq<int>) returns (r: Result<seq<seq<int>>>)
    requires |sources| == |weights|
    requires forall k :: 0 <= k < |sources| ==> |sources[k].state.counters| == s.width * s.depth
    ensures r.Ok? <==> forall i :: 0 <= i < s.width * s.depth ==> CounterFits(Column(sources, i), weights)
    ensures r.Ok? ==> Flatten(r.value) == Merged(s, sources, weights) && FullChunks(r.value, |r.value| - 1)
  {
    hide Dot, CounterFits;
    var n := s.width * s.depth;
    var start, chunks := 0, [];
    ghost var merged := Merged(s, sources, weights);
    while start < n
      invariant 0 <= start <= n
      invariant Flatten(chunks) == merged[..start]
      invariant forall i :: 0 <= i < start ==> CounterFits(Column(sources, i), weights)
      invariant FullChunks(chunks, if start < n then |chunks| else |chunks| - 1)
    {
      var count := if n - start < CHUNK_COUNTERS then n - start else CHUNK_COUNTERS;
      var chunk := MergeChunk(sources, weights, n, start, count);
      if chunk.Err? { return Err; }
      assert merged[..start + count] == merged[..start] + chunk.value;
      assert (chunks + [chunk.value])[..|chunks|] == chunks;
      chunks := chunks + [chunk.value];
      start := start + count;
    }
    assert merged[..n] == merged;
    return Ok(chunks);
  }

  /** `cms_stage_merge`: the chunk images in order and the new total; no sources, no images. */
  method StageMerge(s: Sketch, dst: State, sources: seq<Source>, weights: seq<int>) returns (r: Result<MergePlan>)
    requires Sound(s, dst) && Readable(sources)
    ensures r.Ok? <==> MergeInto(s, dst, sources, weights).Some?
    ensures r.Ok? && sources == [] ==> r.value == MergePlan([], None) && MergeInto(s, dst, sources, weights) == Some(dst)
    ensures r.Ok? && sources != [] ==>
      && r.value.total.Some?
      && MergeInto(s, dst, sources, weights) == Some(State(Flatten(r.value.chunks), r.value.total.value))
      && FullChunks(r.value.chunks, |r.value.chunks| - 1)
  {
    hide Dot, CounterFits, TotalFits, Merged, FullChunks;
    if |sources| != |weights| { return Err; }
    if s.width * s.depth * |sources| > MAX_MERGE_COUNTER_VISITS { return Err; }
    for k := 0 to |sources|
      invariant forall i :: 0 <= i < k ==> sources[i].width == s.width && sources[i].depth == s.depth
    {
      if sources[k].width != s.width || sources[k].depth != s.depth { return Err; }
    }
    if sources == [] {
      NoSources(s, sources, weights);
      return Ok(MergePlan([], None));
    }
    var total := MergeTotal(Totals(sources), weights);
    if total.Err? { return Err; }
    var chunks := MergeChunks(s, sources, weights);
    if chunks.Err? { return Err; }
    return Ok(MergePlan(chunks.value, Some(total.value)));
  }

  lemma NoSources(s: Sketch, sources: seq<Source>, weights: seq<int>)
    requires s.Valid() && sources == [] && weights == []
    ensures Readable(sources) && Accepts(s, sources, weights)
  {}
}
