/** What users of the three sketches keep through crashes: after any run of committed batches
    from a freshly created file, and any power loss, the recovered file still gives the
    sketch's own guarantee for everything that was committed. */
module SketchGuarantees {
  import opened Bytes
  import opened AfterImages
  import opened Receipt
  import opened SidecarProtocol
  import opened SidecarSafety
  import opened SidecarTheorems
  import opened SidecarSketches
  import opened SketchMutations
  import opened SidecarGates
  import opened SidecarTears
  import opened SketchGates
  import TF = TopKFile
  import CM = CmsMerge
  import CMS = Cms
  import CF = CmsFile
  import CH = CmsHistory
  import CB = CmsBounds
  import BL = Bloom
  import BF = BloomFile
  import BS = BloomStage
  import TK = TopK
  import TG = TopKGuarantee
  import CountMin

  /** `f` may be left by a power loss at the end of a run whose publishes were harmless. */
  ghost predicate LeftBy(s: Setting, base: Bytes, first: Token, run: seq<World>, f: Bytes) {
    && s.Valid() && IsRun(s, base, first, run) && HarmlessRun(s, run)
    && Survives(run[|run| - 1].disk, f, s.tokenOffset)
  }

  ghost predicate Recoverable(s: Setting, w: World, f: Bytes) {
    |f| >= TOKEN_SIZE && (CurrentTxn(s, w.disk).Some? ==> Fits(CurrentTxn(s, w.disk).value.images, |f|))
  }

  /** What recovery makes of the body of `f`. */
  ghost function RecoveredBody(s: Setting, w: World, f: Bytes): Bytes
    requires Recoverable(s, w, f)
  {
    Body(RecoveredFile(f, CurrentTxn(s, w.disk)))
  }

  /** `recover_sidecar`: the header check, then recovery. */
  ghost function Reopened(gate: Bytes -> bool, s: Setting, w: World, f: Bytes): Result<Bytes>
    requires Recoverable(s, w, f)
  {
    if gate(Body(f)) then Ok(RecoveredBody(s, w, f)) else Err
  }

  lemma SurvivorGate(s: Setting, gate: Bytes -> bool, h: Header, base: Bytes, first: Token, run: seq<World>, f: Bytes)
    requires LeftBy(s, base, first, run, f) && Guards(gate, h, base) && LogKeepsHeader(s, h, run[|run| - 1].log)
    ensures |f| == s.FileSize() && h.size <= |f| && (gate(Body(f)) <==> Value(h, f) <= h.limit)
  {
    hide Step, Starts, HarmlessRun, LogKeepsHeader, Value, CleanDisk, Survives;
    RunIsClean(s, h, base, first, run);
    SurvivorHeader(s, h, base, run[|run| - 1].disk, f);
    GateOfFile(s, gate, h, base, f);
  }

  // ---------------------------------------------------------------------
  // Bloom
  // ---------------------------------------------------------------------

  lemma {:induction false} BloomEffectsAreLife(c: BF.Contents, batches: seq<seq<Bytes>>, h1: Bytes -> u64, h2: Bytes -> u64)
    requires c.bits == {} && c.count == 0 && RunEffects(c, BloomEffects(batches, h1, h2)).Some?
    requires BS.FilterOf(c, h1, h2).Valid()
    ensures var f := BS.FilterOf(c, h1, h2); var st := BL.Life(f, batches);
      && st.count <= U64_MAX
      && RunEffects(c, BloomEffects(batches, h1, h2)) == Some(c.(bits := st.bits, count := st.count))
      && forall i :: 0 <= i < |batches| ==> BL.Allowed(f, batches[i])
    decreases |batches|
  {
    hide BL.AddAll;
    if batches != [] {
      var n := |batches| - 1;
      assert BloomEffects(batches, h1, h2)[..n] == BloomEffects(batches[..n], h1, h2);
      BloomEffectsAreLife(c, batches[..n], h1, h2);
      assert forall i :: 0 <= i < n ==> batches[i] == batches[..n][i];
    }
  }

  /** The file is reopened exactly if the count that the power loss left is within the number of
      bits; then it passes its header check again and no committed element is reported absent. */
  lemma BloomKeepsItsPromise(s: Setting, base: Bytes, first: Token, run: seq<World>, f: Bytes,
                             batches: seq<seq<Bytes>>, h1: Bytes -> u64, h2: Bytes -> u64)
    requires LeftBy(s, base, first, run, f)
    requires BF.ReadBloom(base).Ok? && BF.ReadBloom(base).value.bits == {} && BF.ReadBloom(base).value.count == 0
    requires BloomLog(run[|run| - 1].log, batches, h1, h2)
    ensures Recoverable(s, run[|run| - 1], f) && |f| >= 32
    ensures var r := Reopened(BloomGate(), s, run[|run| - 1], f);
      && (r.Ok? <==> FromLe(f[24..32]) <= BF.ReadBloom(base).value.numBits)
      && (r.Ok? ==>
          && BloomGate()(r.value)
          && var c := BF.ReadBloom(r.value).value;
          && var filter := BS.FilterOf(c, h1, h2);
          && filter == BS.FilterOf(BF.ReadBloom(base).value, h1, h2)
          && forall i, e :: 0 <= i < |batches| && e in batches[i] ==> BL.Reported(filter, BS.StateOf(c), e))
  {
    hide Step, Survives, RecoveredFile, CurrentTxn, BloomMutation, BF.ReadBloom, BloomEffects, HarmlessRun, BL.Reported,
      BL.Life, Guards, LogKeepsHeader, LogRaises, FromLe;
    BloomGuards(base);
    BloomLogRaises(s, base, run[|run| - 1].log, batches, h1, h2);
    SurvivorGate(s, BloomGate(), BloomHeader(base), base, first, run, f);
    BloomSurvivesCrashes(s, base, first, run, f, batches, h1, h2);
    var c := BF.ReadBloom(base).value;
    var filter := BS.FilterOf(c, h1, h2);
    BloomEffectsAreLife(c, batches, h1, h2);
    BL.NoFalseNegatives(filter, batches);
    forall i, e | 0 <= i < |batches| && e in batches[i] ensures BL.Added(filter, batches, e) {}
  }

  /** The count of the committed body is the one of the life, within the number of bits. */
  lemma BloomLevel(s: Setting, base: Bytes, first: Token, run: seq<World>,
                   batches: seq<seq<Bytes>>, h1: Bytes -> u64, h2: Bytes -> u64)
    requires s.Valid() && IsRun(s, base, first, run) && Dependable(s, run) && BloomLog(run[|run| - 1].log, batches, h1, h2)
    requires BF.ReadBloom(base).Ok? && BF.ReadBloom(base).value.bits == {} && BF.ReadBloom(base).value.count == 0
    ensures 32 <= |base| && Level(BloomHeader(base), base, run[|run| - 1].log) <= BloomHeader(base).limit
  {
    hide Step, Starts, BloomMutation, Realizes, BF.ReadBloom, BloomEffect, HarmlessRun, BL.Life, FromLe, Fold, WasStaged, Dependable;
    var log, c := run[|run| - 1].log, BF.ReadBloom(base).value;
    var effects := BloomEffects(batches, h1, h2);
    BloomSize(base);
    LogWasStaged(s, base, first, run);
    forall i | 0 <= i < |log| ensures Realizes(log[i].mutation, BloomRead(), effects[i]) {
      BloomRealizes(log[i].mutation, batches[i], h1, h2);
    }
    FoldReads(base, log, BloomRead(), effects);
    BloomEffectsAreLife(c, batches, h1, h2);
    BL.NoFalseNegatives(BS.FilterOf(c, h1, h2), batches);
    BloomSize(Fold(base, log));
  }

  /** If power losses keep a prefix of the write they tear, a Bloom file is always reopened. */
  lemma BloomOpensAfterPrefixTears(s: Setting, base: Bytes, first: Token, run: seq<World>, f: Bytes,
                                   batches: seq<seq<Bytes>>, h1: Bytes -> u64, h2: Bytes -> u64)
    requires LeftBy(s, base, first, run, f) && LosesInOrder(s, run) && InOrder(run[|run| - 1].disk, f)
    requires BF.ReadBloom(base).Ok? && BF.ReadBloom(base).value.bits == {} && BF.ReadBloom(base).value.count == 0
    requires BloomLog(run[|run| - 1].log, batches, h1, h2)
    ensures Recoverable(s, run[|run| - 1], f) && Reopened(BloomGate(), s, run[|run| - 1], f).Ok?
  {
    hide Step, Survives, CurrentTxn, BloomMutation, BF.ReadBloom, HarmlessRun, Guards, LogKeepsHeader, LogRaises, InOrder,
      LosesInOrder, Level, Confined, RecoveredFile;
    var log := run[|run| - 1].log;
    forall i | 0 <= i < |log| ensures BelowFooter(log[i].mutation) {
      BloomRealizes(log[i].mutation, batches[i], h1, h2);
    }
    LogIsConfined(s, log);
    BloomGuards(base);
    BloomLogRaises(s, base, log, batches, h1, h2);
    BloomLevel(s, base, first, run, batches, h1, h2);
    PrefixTearsAreOpened(s, BloomGate(), BloomHeader(base), base, first, run, f);
    ExactlyOnce(s, base, first, run);
  }

  // ---------------------------------------------------------------------
  // TopK
  // ---------------------------------------------------------------------

  ghost function AllUpdates(batches: seq<seq<TK.Update>>): seq<TK.Update> {
    if batches == [] then [] else AllUpdates(batches[..|batches| - 1]) + batches[|batches| - 1]
  }

  lemma {:induction false} TopKEffectsAreLife(v: TopKView, batches: seq<seq<TK.Update>>, h1: Bytes -> u64, h2: Bytes -> u64)
    requires var s := CountMin.Sketch(v.width, v.depth, h1, h2); s.Valid() && v.k > 0 && v.state == TG.Empty(s)
    requires RunEffects(v, TopKEffects(batches, h1, h2)).Some?
    ensures var s := CountMin.Sketch(v.width, v.depth, h1, h2);
      && RunEffects(v, TopKEffects(batches, h1, h2)) == Some(v.(state := TG.Life(s, v.k, batches).0))
      && TG.Life(s, v.k, batches).1 == AllUpdates(batches)
    decreases |batches|
  {
    hide TK.AddAll, TG.Empty;
    if batches != [] {
      var n := |batches| - 1;
      assert TopKEffects(batches, h1, h2)[..n] == TopKEffects(batches[..n], h1, h2);
      TopKEffectsAreLife(v, batches[..n], h1, h2);
    }
  }

  /** A readable file with dimensions `v` and nothing in it. */
  ghost predicate FreshTopK(base: Bytes, v: TopKView, h1: Bytes -> u64, h2: Bytes -> u64) {
    && TopKRead()(base) == Some(v)
    && var t := CountMin.Sketch(v.width, v.depth, h1, h2); t.Valid() && v.k > 0 && v.state == TG.Empty(t)
  }

  lemma FreshHeader(base: Bytes, v: TopKView, h1: Bytes -> u64, h2: Bytes -> u64)
    requires FreshTopK(base, v, h1, h2)
    ensures TF.ReadHeader(base).Ok? && TF.ReadHeader(base).value.k == v.k
  {
    hide TF.ReadContents, TF.ReadHeader;
    ContentsHeader(base);
  }

  /** What a TopK file promises about a history of updates. */
  ghost predicate TopKPromise(t: CountMin.Sketch, k: nat, st: TK.State, history: seq<TK.Update>) {
    && TK.Sound(t, st) && |st.heap| <= k
    && (forall x :: TG.TrueCount(history, x) <= CountMin.Estimate(t, st.counters, x))
    && (forall y :: y in st.heap ==> TG.TrueCount(history, y) <= st.heap[y] <= CountMin.Estimate(t, st.counters, y))
    && (|st.heap| < k ==> forall x :: TG.Added(history, x) ==> x in st.heap)
    && (|st.heap| == k ==> forall x, y :: x !in st.heap && y in st.heap ==> TG.TrueCount(history, x) <= st.heap[y])
  }

  /** The file is reopened exactly if the heap length that the power loss left is within k; then
      its counts and heap keep every promise about all committed updates. */
  lemma TopKKeepsItsPromise(s: Setting, base: Bytes, first: Token, run: seq<World>, f: Bytes, v: TopKView,
                            batches: seq<seq<TK.Update>>, h1: Bytes -> u64, h2: Bytes -> u64)
    requires LeftBy(s, base, first, run, f) && FreshTopK(base, v, h1, h2)
    requires TopKLog(run[|run| - 1].log, batches, h1, h2) && forall i :: 0 <= i < |batches| ==> TG.Positive(batches[i])
    ensures Recoverable(s, run[|run| - 1], f) && |f| >= 64
    ensures var r := Reopened(TopKGate(), s, run[|run| - 1], f);
      && (r.Ok? <==> FromLe(f[20..24]) <= v.k)
      && (r.Ok? ==>
          && var read := TopKRead()(r.value);
          && read.Some? && read.value == v.(state := read.value.state)
          && TopKPromise(CountMin.Sketch(v.width, v.depth, h1, h2), v.k, read.value.state, AllUpdates(batches)))
  {
    hide Step, Survives, RecoveredFile, CurrentTxn, TopKMutation, TopKRead, TopKEffects, HarmlessRun, TG.Life, TG.Empty,
      CountMin.Estimate, TG.TrueCount, TG.Positive, TG.Added, TF.ReadHeader, Guards, LogKeepsHeader, LogRaises, FromLe;
    var t := CountMin.Sketch(v.width, v.depth, h1, h2);
    FreshHeader(base, v, h1, h2);
    TopKGuards(base);
    TopKLogRaises(s, base, run[|run| - 1].log, batches, h1, h2);
    SurvivorGate(s, TopKGate(), TopKHeader(base), base, first, run, f);
    TopKSurvivesCrashes(s, base, first, run, f, batches, h1, h2);
    TopKEffectsAreLife(v, batches, h1, h2);
    TG.NoHeavyHitterMissed(t, v.k, batches);
  }

  lemma HeapLenOf(body: Bytes, v: TopKView)
    requires TopKRead()(body) == Some(v)
    ensures 64 <= |body| && FromLe(body[20..24]) == |v.state.heap|
  {
    hide TF.ReadContents, TF.ReadHeader, FromLe;
    ContentsHeader(body);
    TopKSize(body);
  }

  /** The heap length of the committed body is the one of the life, within k. */
  lemma TopKLevel(s: Setting, base: Bytes, first: Token, run: seq<World>, v: TopKView,
                  batches: seq<seq<TK.Update>>, h1: Bytes -> u64, h2: Bytes -> u64)
    requires s.Valid() && IsRun(s, base, first, run) && Dependable(s, run) && FreshTopK(base, v, h1, h2)
    requires TopKLog(run[|run| - 1].log, batches, h1, h2) && forall i :: 0 <= i < |batches| ==> TG.Positive(batches[i])
    ensures TF.ReadHeader(base).Ok? && 64 <= |base|
    ensures Level(TopKHeader(base), base, run[|run| - 1].log) <= TopKHeader(base).limit
  {
    hide Step, Starts, TopKMutation, Realizes, TF.ReadHeader, TopKRead, TopKEffect, TG.Life, TG.Empty, TG.Positive, FromLe, Fold,
      WasStaged, Dependable, CountMin.Estimate, TG.TrueCount, TG.Added;
    var log, t := run[|run| - 1].log, CountMin.Sketch(v.width, v.depth, h1, h2);
    var effects := TopKEffects(batches, h1, h2);
    FreshHeader(base, v, h1, h2);
    LogWasStaged(s, base, first, run);
    forall i | 0 <= i < |log| ensures Realizes(log[i].mutation, TopKRead(), effects[i]) {
      TopKRealizes(log[i].mutation, batches[i], h1, h2);
    }
    FoldReads(base, log, TopKRead(), effects);
    TopKEffectsAreLife(v, batches, h1, h2);
    TG.NoHeavyHitterMissed(t, v.k, batches);
    HeapLenOf(Fold(base, log), RunEffects(v, effects).value);
  }

  /** If power losses keep a prefix of the write they tear, a TopK file is always reopened. */
  lemma TopKOpensAfterPrefixTears(s: Setting, base: Bytes, first: Token, run: seq<World>, f: Bytes, v: TopKView,
                                  batches: seq<seq<TK.Update>>, h1: Bytes -> u64, h2: Bytes -> u64)
    requires LeftBy(s, base, first, run, f) && LosesInOrder(s, run) && InOrder(run[|run| - 1].disk, f)
    requires FreshTopK(base, v, h1, h2)
    requires TopKLog(run[|run| - 1].log, batches, h1, h2) && forall i :: 0 <= i < |batches| ==> TG.Positive(batches[i])
    ensures Recoverable(s, run[|run| - 1], f) && Reopened(TopKGate(), s, run[|run| - 1], f).Ok?
  {
    hide Step, Survives, CurrentTxn, TopKMutation, TF.ReadHeader, TopKRead, HarmlessRun, Guards, LogKeepsHeader, LogRaises, InOrder,
      LosesInOrder, Level, Confined, RecoveredFile, TG.Empty, TG.Positive;
    var log := run[|run| - 1].log;
    forall i | 0 <= i < |log| ensures BelowFooter(log[i].mutation) {
      TopKRealizes(log[i].mutation, batches[i], h1, h2);
    }
    LogIsConfined(s, log);
    TopKLevel(s, base, first, run, v, batches, h1, h2);
    TopKGuards(base);
    TopKLogRaises(s, base, log, batches, h1, h2);
    PrefixTearsAreOpened(s, TopKGate(), TopKHeader(base), base, first, run, f);
    ExactlyOnce(s, base, first, run);
  }

  // ---------------------------------------------------------------------
  // CMS
  // ---------------------------------------------------------------------

  /** A committed operation on a key; `None` among the sources of a merge is the key itself. */
  datatype CmsOp = Count(items: seq<CMS.Item>) | Combine(sources: seq<Option<CH.History>>, weights: seq<i64>)

  ghost function Resolved(h: CH.History, sources: seq<Option<CH.History>>): (hs: seq<CH.History>)
    ensures |hs| == |sources|
  {
    seq(|sources|, i requires 0 <= i < |sources| => if sources[i].None? then h else sources[i].value)
  }

  ghost function LifeOf(ops: seq<CmsOp>): CH.History {
    if ops == [] then CH.Created
    else
      var before := LifeOf(ops[..|ops| - 1]);
      match ops[|ops| - 1]
      case Count(items) => CH.Counted(before, items)
      case Combine(sources, weights) => CH.Combined(before, Resolved(before, sources), weights)
  }

  ghost function BatchOf(s: CountMin.Sketch, op: CmsOp): CmsBatch
    requires s.Valid()
  {
    match op
    case Count(items) => Increments(items)
    case Combine(sources, weights) =>
      Merge(seq(|sources|, i requires 0 <= i < |sources| =>
              if sources[i].None? then Itself else Other(CH.SourceOf(s, CH.After(s, sources[i].value)))),
            weights)
  }

  ghost function BatchesOf(s: CountMin.Sketch, ops: seq<CmsOp>): (batches: seq<CmsBatch>)
    requires s.Valid()
    ensures |batches| == |ops|
  {
    seq(|ops|, i requires 0 <= i < |ops| => BatchOf(s, ops[i]))
  }

  /** How often `x` was counted when every operation took effect. */
  ghost function Truth(s: CountMin.Sketch, ops: seq<CmsOp>, x: Bytes): int
    requires s.Valid()
    decreases |ops|
  {
    if ops == [] then 0
    else
      var before := Truth(s, ops[..|ops| - 1], x);
      match ops[|ops| - 1]
      case Count(items) => before + CB.ItemSum(items, x)
      case Combine(sources, weights) =>
        if sources == [] || |sources| != |weights| then before
        else CM.Dot(seq(|sources|, i requires 0 <= i < |sources| =>
                      if sources[i].None? then before else CB.TrueCount(s, sources[i].value, x)), weights)
  }

  /** One committed operation on the file of a life gives the file of the longer life. */
  lemma OpExtendsLife(s: CountMin.Sketch, ops: seq<CmsOp>)
    requires s.Valid() && ops != []
    requires CmsOutcome(CH.SourceOf(s, CH.After(s, LifeOf(ops[..|ops| - 1]))), BatchOf(s, ops[|ops| - 1]), s.h1, s.h2).Some?
    ensures CmsOutcome(CH.SourceOf(s, CH.After(s, LifeOf(ops[..|ops| - 1]))), BatchOf(s, ops[|ops| - 1]), s.h1, s.h2)
         == Some(CH.SourceOf(s, CH.After(s, LifeOf(ops))))
  {
    hide CMS.CountAll, CM.MergeInto;
    var before, op := LifeOf(ops[..|ops| - 1]), ops[|ops| - 1];
    match op
    case Count(items) =>
    case Combine(sources, weights) =>
      var file, hs := CH.SourceOf(s, CH.After(s, before)), Resolved(before, sources);
      assert SourceFiles(file, BatchOf(s, op).sources) == CH.Sources(s, hs);
      CH.AfterCombined(s, before, hs, weights);
  }

  lemma {:induction false} CmsEffectsAreLife(s: CountMin.Sketch, ops: seq<CmsOp>)
    requires s.Valid() && RunEffects(CH.SourceOf(s, CH.Fresh(s)), CmsEffects(BatchesOf(s, ops), s.h1, s.h2)).Some?
    ensures RunEffects(CH.SourceOf(s, CH.Fresh(s)), CmsEffects(BatchesOf(s, ops), s.h1, s.h2))
         == Some(CH.SourceOf(s, CH.After(s, LifeOf(ops))))
    decreases |ops|
  {
    hide CmsOutcome, BatchOf, CH.Fresh;
    if ops != [] {
      var n := |ops| - 1;
      assert CmsEffects(BatchesOf(s, ops), s.h1, s.h2)[..n] == CmsEffects(BatchesOf(s, ops[..n]), s.h1, s.h2);
      CmsEffectsAreLife(s, ops[..n]);
      OpExtendsLife(s, ops);
    }
  }

  lemma TruthStep(s: CountMin.Sketch, ops: seq<CmsOp>, x: Bytes)
    requires s.Valid() && ops != []
    requires CmsOutcome(CH.SourceOf(s, CH.After(s, LifeOf(ops[..|ops| - 1]))), BatchOf(s, ops[|ops| - 1]), s.h1, s.h2).Some?
    requires CB.TrueCount(s, LifeOf(ops[..|ops| - 1]), x) == Truth(s, ops[..|ops| - 1], x)
    ensures CB.TrueCount(s, LifeOf(ops), x) == Truth(s, ops, x)
  {
    hide CMS.CountAll, CM.MergeInto, CM.Dot, CB.ItemSum;
    var before, op := LifeOf(ops[..|ops| - 1]), ops[|ops| - 1];
    match op
    case Count(items) =>
    case Combine(sources, weights) =>
      var file, hs := CH.SourceOf(s, CH.After(s, before)), Resolved(before, sources);
      var from := CH.Sources(s, hs);
      assert SourceFiles(file, BatchOf(s, op).sources) == from;
      CB.MergeWeights(s, CH.After(s, before), from, weights);
      var low := Truth(s, ops[..|ops| - 1], x);
      assert seq(|hs|, k requires 0 <= k < |hs| => CB.TrueCount(s, hs[k], x))
          == seq(|sources|, i requires 0 <= i < |sources| =>
                   if sources[i].None? then low else CB.TrueCount(s, sources[i].value, x));
  }

  lemma {:induction false} EveryOpCounts(s: CountMin.Sketch, ops: seq<CmsOp>, x: Bytes)
    requires s.Valid() && RunEffects(CH.SourceOf(s, CH.Fresh(s)), CmsEffects(BatchesOf(s, ops), s.h1, s.h2)).Some?
    ensures CB.TrueCount(s, LifeOf(ops), x) == Truth(s, ops, x)
    decreases |ops|
  {
    hide CmsOutcome, BatchOf, CH.Fresh;
    if ops != [] {
      var n := |ops| - 1;
      assert CmsEffects(BatchesOf(s, ops), s.h1, s.h2)[..n] == CmsEffects(BatchesOf(s, ops[..n]), s.h1, s.h2);
      EveryOpCounts(s, ops[..n], x);
      CmsEffectsAreLife(s, ops[..n]);
      TruthStep(s, ops, x);
    }
  }

  /** The file is always reopened, and a query then lies between the true count of everything
      committed, merges included, and the recovered total. */
  lemma CmsKeepsItsPromise(s: Setting, base: Bytes, first: Token, run: seq<World>, f: Bytes,
                           t: CountMin.Sketch, ops: seq<CmsOp>, x: Bytes)
    requires LeftBy(s, base, first, run, f) && t.Valid()
    requires CF.ReadCms(base) == Ok(CH.SourceOf(t, CH.Fresh(t)))
    requires CmsLog(run[|run| - 1].log, BatchesOf(t, ops), t.h1, t.h2) && CB.NoNegatives(LifeOf(ops))
    ensures Recoverable(s, run[|run| - 1], f) && Reopened(CmsGate(), s, run[|run| - 1], f).Ok?
    ensures var read := CF.ReadCms(Reopened(CmsGate(), s, run[|run| - 1], f).value);
      && read.Ok? && read.value.width == t.width && read.value.depth == t.depth
      && t.Holds(read.value.state.counters)
      && Truth(t, ops, x) <= CountMin.Estimate(t, read.value.state.counters, x) <= read.value.state.total
  {
    hide Step, Starts, Survives, RecoveredFile, CurrentTxn, CmsMutation, CF.ReadCms, CmsEffects, HarmlessRun, CH.After, CH.Fresh,
      CountMin.Estimate, Truth, LifeOf, BatchesOf, CB.NoNegatives, CB.TrueCount;
    CmsAlwaysOpens(s, base, first, run, BatchesOf(t, ops), t.h1, t.h2);
    CmsSurvivesCrashes(s, base, first, run, f, BatchesOf(t, ops), t.h1, t.h2);
    CmsEffectsAreLife(t, ops);
    EveryOpCounts(t, ops, x);
    CB.QueryBetweenTruthAndTotal(t, LifeOf(ops), x);
  }
}
