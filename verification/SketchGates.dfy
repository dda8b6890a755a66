/** The header checks in front of recovery, sketch by sketch. A torn write of the Bloom count or
    of the TopK heap length can make the file unreadable before recovery ever looks at the
    receipt; a CMS header has no such field. */
module SketchGates {
  import opened Bytes
  import opened AfterImages
  import opened Receipt
  import opened SidecarProtocol
  import opened SidecarSafety
  import opened SidecarTheorems
  import opened SidecarSketches
  import opened SidecarGates
  import opened SidecarTears
  import opened SketchMutations
  import CR = SidecarCrashes
  import CF = CmsFile
  import BL = Bloom
  import BF = BloomFile
  import BS = BloomStage
  import TK = TopK
  import TF = TopKFile
  import IH = IndexedHeap

  // ---------------------------------------------------------------------
  // Bloom
  // ---------------------------------------------------------------------

  /** `file_read_header` as `recover_sidecar` and the token entries call it. */
  ghost function BloomGate(): Bytes -> bool {
    (body: Bytes) => BF.ReadBloom(body).Ok? && BF.Acceptable(BF.ReadBloom(body).value)
  }

  ghost function BloomHeader(base: Bytes): Header
    requires BF.ReadBloom(base).Ok?
  {
    Header(32, 24, 32, BF.ReadBloom(base).value.numBits)
  }

  lemma BloomReads(body: Bytes, base: Bytes)
    requires BF.ReadBloom(base).Ok? && |body| == |base| && SameHeader(BloomHeader(base), body, base)
    ensures BF.ReadBloom(body).Ok?
    ensures BF.ReadBloom(body).value.numBits == BF.ReadBloom(base).value.numBits
    ensures BF.ReadBloom(body).value.count == Value(BloomHeader(base), body)
  {
    hide FromLe, BF.BitsOf;
    assert body[..8] == base[..8] && body[8..16] == base[8..16] && body[16..20] == base[16..20] && body[20..24] == base[20..24];
  }

  lemma BloomGuards(base: Bytes)
    requires BF.ReadBloom(base).Ok?
    ensures Guards(BloomGate(), BloomHeader(base), base)
  {
    hide BF.ReadBloom, Value;
    BloomSize(base);
    forall body: Bytes | |body| == |base| && SameHeader(BloomHeader(base), body, base)
      ensures BloomGate()(body) <==> Value(BloomHeader(base), body) <= BloomHeader(base).limit
    {
      BloomReads(body, base);
    }
  }

  lemma BloomSize(base: Bytes)
    requires BF.ReadBloom(base).Ok?
    ensures 32 <= |base| && BF.ReadBloom(base).value.count == FromLe(base[24..32])
    ensures BF.ReadBloom(base).value.numBits < U64_MAX
  {}

  /** Bloom plans write no other header byte than those of the count, which they raise or leave. */
  lemma BloomRaises(m: Mutation, elements: seq<Bytes>, h1: Bytes -> u64, h2: Bytes -> u64, h: Header, size: nat)
    requires BloomMutation(m, elements, h1, h2) && h.size == 32 <= size && h.lo == 24 && h.hi == 32
    ensures Raises(m, h, size)
  {
    hide BF.ReadBloom, BL.AddAll, ApplyImages, ToLe, FromLe, Effect;
    forall body: Bytes | |body| == size && m.stage(body).Plan?
      ensures Value(h, body) <= Value(h, Effect(body, m))
      ensures AllWrite(h, m.stage(body).images, Value(h, Effect(body, m)))
    {
      var answers :| BloomPlanned(body, elements, h1, h2, m.stage(body).images, answers);
      var c := BF.ReadBloom(body).value;
      EffectBelow(body, m);
      BloomSize(body);
      BloomSize(Effect(body, m));
      BL.BatchAnswers(BS.FilterOf(c, h1, h2), BS.StateOf(c), elements);
      CountImageValue(BL.AddAll(BS.FilterOf(c, h1, h2), BS.StateOf(c), elements).0.count);
    }
  }

  lemma CountImageValue(count: u64)
    ensures FromLe(BS.CountImage(count).bytes) == count && |BS.CountImage(count).bytes| == 8
  {
    SpanValues();
    LeRoundTrip(count, 8);
  }

  ghost predicate BloomLog(log: seq<Entry>, batches: seq<seq<Bytes>>, h1: Bytes -> u64, h2: Bytes -> u64) {
    |log| == |batches| && forall i :: 0 <= i < |log| ==> BloomMutation(log[i].mutation, batches[i], h1, h2)
  }

  lemma BloomLogRaises(s: Setting, base: Bytes, log: seq<Entry>, batches: seq<seq<Bytes>>, h1: Bytes -> u64, h2: Bytes -> u64)
    requires BF.ReadBloom(base).Ok? && |base| == s.tokenOffset && BloomLog(log, batches, h1, h2)
    ensures LogRaises(s, BloomHeader(base), log) && LogKeepsHeader(s, BloomHeader(base), log)
  {
    hide BloomMutation, Raises, KeepsHeader, BF.ReadBloom;
    BloomSize(base);
    forall i | 0 <= i < |log| ensures Raises(log[i].mutation, BloomHeader(base), s.tokenOffset) {
      BloomRaises(log[i].mutation, batches[i], h1, h2, BloomHeader(base), s.tokenOffset);
    }
    RaisingIsClean(s, BloomHeader(base), log);
  }

  /** Over a whole run of Bloom batches: whatever a power loss leaves at any moment is opened,
      exactly when at every moment no unsynced write, torn at its worst, takes the count above
      the number of bits. */
  lemma BloomOpensThroughout(s: Setting, base: Bytes, first: Token, run: seq<World>,
                             batches: seq<seq<Bytes>>, h1: Bytes -> u64, h2: Bytes -> u64)
    requires s.Valid() && IsRun(s, base, first, run) && BloomGate()(base)
    requires BloomLog(run[|run| - 1].log, batches, h1, h2)
    ensures (forall i :: 0 <= i < |run| ==> Opens(s, BloomGate(), run[i].disk))
       <==> (forall i :: 0 <= i < |run| ==> QuietWorld(BloomHeader(base), run[i]))
  {
    hide Step, BloomLog, Guards, LogRaises, LogKeepsHeader, BF.ReadBloom, Opens, QuietWorld;
    BloomGuards(base);
    BloomLogRaises(s, base, run[|run| - 1].log, batches, h1, h2);
    OpensThroughout(s, BloomGate(), BloomHeader(base), base, first, run);
  }

  /** At any moment at which no count write was cut short: every survivor is opened exactly when
      the durable count is within the number of bits and no unsynced write touches the count. */
  lemma BloomOpensExactly(s: Setting, base: Bytes, first: Token, run: seq<World>,
                          batches: seq<seq<Bytes>>, h1: Bytes -> u64, h2: Bytes -> u64)
    requires s.Valid() && IsRun(s, base, first, run) && BloomGate()(base)
    requires BloomLog(run[|run| - 1].log, batches, h1, h2)
    requires var d := run[|run| - 1].disk;
      forall k :: 0 <= k < |d.unsynced| && Touches(BloomHeader(base), d.unsynced[k]) ==> Whole(BloomHeader(base), d.unsynced[k])
    ensures var d, h := run[|run| - 1].disk, BloomHeader(base);
      && h.Valid() && h.size <= |d.stable|
      && (Opens(s, BloomGate(), d) <==>
          Value(h, d.stable) <= h.limit && forall k :: 0 <= k < |d.unsynced| ==> !Touches(h, d.unsynced[k]))
  {
    hide Step, BloomLog, Guards, LogRaises, LogKeepsHeader, BF.ReadBloom, Opens, Quiet, Value, Touches, Whole;
    var w, h := run[|run| - 1], BloomHeader(base);
    BloomGuards(base);
    BloomSize(base);
    BloomLogRaises(s, base, w.log, batches, h1, h2);
    OpensAt(s, BloomGate(), h, base, first, run, |run| - 1);
    SpanValues();
    if Value(h, w.disk.stable) <= h.limit {
      WholeWritesAreLoud(s, h, base, w.disk);
    }
  }

  /** Every batch that sets a new bit can lose power so that the file it leaves is refused:
      recovery never sees its receipt. */
  lemma BloomTornCountIsRefused(s: Setting, c: CR.Commit, elements: seq<Bytes>, h1: Bytes -> u64, h2: Bytes -> u64) returns (k: nat)
    requires CR.Possible(s, c) && BloomGate()(c.base) && BloomMutation(c.mutation, elements, h1, h2)
    requires var read := BF.ReadBloom(c.base).value; true in BL.AddAll(BS.FilterOf(read, h1, h2), BS.StateOf(read), elements).1
    ensures k < |CR.TxnOf(s, c).images|
    ensures var f := TornAt(s, c, k); var run := CR.CrashRun(s, c, k + 1, f);
      && IsRun(s, c.base, c.first, run) && HarmlessRun(s, run) && LosesPower(s, run[k + 5], run[k + 6])
      && run[k + 6].disk.stable == f && |f| == s.FileSize() && !BloomGate()(Body(f))
      && CurrentTxn(s, run[k + 6].disk) == Some(CR.TxnOf(s, c))
  {
    hide BF.ReadBloom, BL.AddAll, ToLe, FromLe, Effect, IsRun, HarmlessRun, LosesPower, CurrentTxn, KeepsHeader, Guards, CR.Possible,
      CR.CrashRun, TornAt, CR.TxnOf;
    var h, read := BloomHeader(c.base), BF.ReadBloom(c.base).value;
    BloomSize(c.base);
    BloomGuards(c.base);
    BloomKeeps(s, c, elements, h1, h2);
    var answers :| BloomPlanned(c.base, elements, h1, h2, c.mutation.stage(c.base).images, answers);
    var images := c.mutation.stage(c.base).images;
    var count := BL.AddAll(BS.FilterOf(read, h1, h2), BS.StateOf(read), elements).0.count;
    CountImageValue(count);
    k :| 0 <= k < |images| && images[k] == BS.CountImage(count);
    SpanValues();
    TornFieldIsRefused(s, BloomGate(), h, c, k);
  }

  lemma BloomKeeps(s: Setting, c: CR.Commit, elements: seq<Bytes>, h1: Bytes -> u64, h2: Bytes -> u64)
    requires CR.Possible(s, c) && BF.ReadBloom(c.base).Ok? && BloomMutation(c.mutation, elements, h1, h2)
    ensures |c.base| == s.tokenOffset && c.mutation.stage(c.base).Plan?
    ensures KeepsHeader(c.mutation, BloomHeader(c.base), s.tokenOffset)
  {
    hide BF.ReadBloom, ValidEncoding, BloomMutation, Raises;
    BloomSize(c.base);
    BloomRaises(c.mutation, elements, h1, h2, BloomHeader(c.base), s.tokenOffset);
    RaisesKeeps(c.mutation, BloomHeader(c.base), s.tokenOffset);
  }

  lemma RaisesKeeps(m: Mutation, h: Header, size: nat)
    requires Raises(m, h, size)
    ensures KeepsHeader(m, h, size)
  {
    hide FromLe, Effect;
  }

  // ---------------------------------------------------------------------
  // TopK
  // ---------------------------------------------------------------------

  /** `v2_read_header` as `recover_sidecar` and `v2_transactional_mutation` call it. */
  ghost function TopKGate(): Bytes -> bool {
    (body: Bytes) => TF.ReadHeader(body).Ok?
  }

  ghost function TopKHeader(base: Bytes): Header
    requires TF.ReadHeader(base).Ok?
  {
    Header(64, 20, 24, TF.ReadHeader(base).value.k)
  }

  lemma TopKReads(body: Bytes, base: Bytes)
    requires TF.ReadHeader(base).Ok? && |body| == |base| && SameHeader(TopKHeader(base), body, base)
    ensures TF.ReadHeader(body).Ok? <==> Value(TopKHeader(base), body) <= TopKHeader(base).limit
  {
    hide FromLe, Zeros;
    assert body[..8] == base[..8] && body[8..12] == base[8..12] && body[12..16] == base[12..16] && body[16..20] == base[16..20];
    assert body[24..64] == base[24..64];
  }

  lemma TopKSize(base: Bytes)
    requires TF.ReadHeader(base).Ok?
    ensures 64 <= |base| && TF.ReadHeader(base).value.heapLen == FromLe(base[20..24])
    ensures TF.ReadHeader(base).value.k < U32_MAX
  {}

  lemma TopKGuards(base: Bytes)
    requires TF.ReadHeader(base).Ok?
    ensures Guards(TopKGate(), TopKHeader(base), base)
  {
    hide TF.ReadHeader, Value;
    TopKSize(base);
    forall body: Bytes | |body| == |base| && SameHeader(TopKHeader(base), body, base)
      ensures TopKGate()(body) <==> Value(TopKHeader(base), body) <= TopKHeader(base).limit
    {
      TopKReads(body, base);
    }
  }

  lemma ContentsHeader(body: Bytes)
    requires TF.ReadContents(body).Ok?
    ensures TF.ReadHeader(body) == Ok(TF.ReadContents(body).value.header)
    ensures TF.ReadContents(body).value.header.heapLen == |TF.StateOf(TF.ReadContents(body).value).heap|
  {
    hide TF.ReadHeader, TF.DecodeHeap;
    IH.ModelSize(TF.ReadContents(body).value.entries);
  }

  lemma HeapLenValue(n: nat)
    requires n <= U32_MAX
    ensures FromLe(ToLe(n, 4)) == n
  {
    SpanValues();
    LeRoundTrip(n, 4);
  }

  /** The heap length before and after a planned batch. */
  lemma TopKPlanRaises(body: Bytes, updates: seq<TK.Update>, h1: Bytes -> u64, h2: Bytes -> u64,
                       images: seq<Image>, results: seq<Option<Bytes>>)
    requires TF.Planned(body, updates, h1, h2, images, results)
    ensures TF.ReadHeader(body).Ok? && TF.ReadHeader(ApplyImages(body, images)).Ok?
    ensures var n := TF.ReadHeader(ApplyImages(body, images)).value.heapLen;
      TF.ReadHeader(body).value.heapLen <= n && n <= U32_MAX && TF.PlanShape(images, n)
  {
    hide TF.ReadContents, TF.ReadHeader, TK.AddAll, ApplyImages, IH.Distinct, IH.ModelOf;
    var c, after := TF.ReadContents(body).value, TF.ReadContents(ApplyImages(body, images)).value;
    TF.CountersBounded(c, |body|, h1, h2);
    ContentsHeader(body);
    ContentsHeader(ApplyImages(body, images));
    TK.HeapGrows(TF.SketchOf(c.header, h1, h2), c.header.k, TF.StateOf(c), updates);
  }

  /** TopK plans write no other header byte than those of the heap length, which they raise or leave. */
  lemma TopKRaises(m: Mutation, updates: seq<TK.Update>, h1: Bytes -> u64, h2: Bytes -> u64, h: Header, size: nat)
    requires TopKMutation(m, updates, h1, h2) && h.size == 64 <= size && h.lo == 20 && h.hi == 24
    ensures Raises(m, h, size)
  {
    hide TF.ReadHeader, TF.Planned, ApplyImages, ToLe, FromLe, Effect, TF.PlanShape;
    forall body: Bytes | |body| == size && m.stage(body).Plan?
      ensures Value(h, body) <= Value(h, Effect(body, m))
      ensures AllWrite(h, m.stage(body).images, Value(h, Effect(body, m)))
    {
      var results :| TF.Planned(body, updates, h1, h2, m.stage(body).images, results);
      TopKPlanFits(body, updates, h1, h2, m.stage(body).images, results);
      TopKPlanRaises(body, updates, h1, h2, m.stage(body).images, results);
      EffectBelow(body, m);
      TopKSize(body);
      TopKSize(Effect(body, m));
      ShapeWrites(h, m.stage(body).images, Value(h, Effect(body, m)));
    }
  }

  lemma TopKPlanFits(body: Bytes, updates: seq<TK.Update>, h1: Bytes -> u64, h2: Bytes -> u64,
                     images: seq<Image>, results: seq<Option<Bytes>>)
    requires TF.Planned(body, updates, h1, h2, images, results)
    ensures Fits(images, |body|)
  {}

  lemma ShapeWrites(h: Header, images: seq<Image>, n: nat)
    requires TF.PlanShape(images, n) && n <= U32_MAX && h.size == 64 && h.lo == 20 && h.hi == 24
    ensures AllWrite(h, images, n) && images != [] && Whole(h, images[|images| - 1])
  {
    hide ToLe, FromLe;
    HeapLenValue(n);
  }

  ghost predicate TopKLog(log: seq<Entry>, batches: seq<seq<TK.Update>>, h1: Bytes -> u64, h2: Bytes -> u64) {
    |log| == |batches| && forall i :: 0 <= i < |log| ==> TopKMutation(log[i].mutation, batches[i], h1, h2)
  }

  lemma TopKLogRaises(s: Setting, base: Bytes, log: seq<Entry>, batches: seq<seq<TK.Update>>, h1: Bytes -> u64, h2: Bytes -> u64)
    requires TF.ReadHeader(base).Ok? && |base| == s.tokenOffset && TopKLog(log, batches, h1, h2)
    ensures LogRaises(s, TopKHeader(base), log) && LogKeepsHeader(s, TopKHeader(base), log)
  {
    hide TopKMutation, Raises, KeepsHeader, TF.ReadHeader;
    TopKSize(base);
    forall i | 0 <= i < |log| ensures Raises(log[i].mutation, TopKHeader(base), s.tokenOffset) {
      TopKRaises(log[i].mutation, batches[i], h1, h2, TopKHeader(base), s.tokenOffset);
    }
    RaisingIsClean(s, TopKHeader(base), log);
  }

  /** Over a whole run of TopK batches: whatever a power loss leaves at any moment is opened,
      exactly when at every moment no unsynced write, torn at its worst, takes the heap length
      above k. */
  lemma TopKOpensThroughout(s: Setting, base: Bytes, first: Token, run: seq<World>,
                            batches: seq<seq<TK.Update>>, h1: Bytes -> u64, h2: Bytes -> u64)
    requires s.Valid() && IsRun(s, base, first, run) && TopKGate()(base)
    requires TopKLog(run[|run| - 1].log, batches, h1, h2)
    ensures (forall i :: 0 <= i < |run| ==> Opens(s, TopKGate(), run[i].disk))
       <==> (forall i :: 0 <= i < |run| ==> QuietWorld(TopKHeader(base), run[i]))
  {
    hide Step, TopKLog, Guards, LogRaises, LogKeepsHeader, TF.ReadHeader, Opens, QuietWorld;
    TopKGuards(base);
    TopKLogRaises(s, base, run[|run| - 1].log, batches, h1, h2);
    OpensThroughout(s, TopKGate(), TopKHeader(base), base, first, run);
  }

  /** At any moment at which no heap-length write was cut short: every survivor is opened exactly
      when the durable length is within k and no unsynced write touches it. */
  lemma TopKOpensExactly(s: Setting, base: Bytes, first: Token, run: seq<World>,
                         batches: seq<seq<TK.Update>>, h1: Bytes -> u64, h2: Bytes -> u64)
    requires s.Valid() && IsRun(s, base, first, run) && TopKGate()(base)
    requires TopKLog(run[|run| - 1].log, batches, h1, h2)
    requires var d := run[|run| - 1].disk;
      forall k :: 0 <= k < |d.unsynced| && Touches(TopKHeader(base), d.unsynced[k]) ==> Whole(TopKHeader(base), d.unsynced[k])
    ensures var d, h := run[|run| - 1].disk, TopKHeader(base);
      && h.Valid() && h.size <= |d.stable|
      && (Opens(s, TopKGate(), d) <==>
          Value(h, d.stable) <= h.limit && forall k :: 0 <= k < |d.unsynced| ==> !Touches(h, d.unsynced[k]))
  {
    hide Step, TopKLog, Guards, LogRaises, LogKeepsHeader, TF.ReadHeader, Opens, Quiet, Value, Touches, Whole;
    var w, h := run[|run| - 1], TopKHeader(base);
    TopKGuards(base);
    TopKSize(base);
    TopKLogRaises(s, base, w.log, batches, h1, h2);
    OpensAt(s, TopKGate(), h, base, first, run, |run| - 1);
    SpanValues();
    if Value(h, w.disk.stable) <= h.limit {
      WholeWritesAreLoud(s, h, base, w.disk);
    }
  }

  /** Every TopK batch can lose power so that the file it leaves is refused: recovery never sees
      its receipt. */
  lemma TopKTornLengthIsRefused(s: Setting, c: CR.Commit, updates: seq<TK.Update>, h1: Bytes -> u64, h2: Bytes -> u64) returns (k: nat)
    requires CR.Possible(s, c) && TopKGate()(c.base) && TopKMutation(c.mutation, updates, h1, h2)
    ensures k < |CR.TxnOf(s, c).images|
    ensures var f := TornAt(s, c, k); var run := CR.CrashRun(s, c, k + 1, f);
      && IsRun(s, c.base, c.first, run) && HarmlessRun(s, run) && LosesPower(s, run[k + 5], run[k + 6])
      && run[k + 6].disk.stable == f && |f| == s.FileSize() && !TopKGate()(Body(f))
      && CurrentTxn(s, run[k + 6].disk) == Some(CR.TxnOf(s, c))
  {
    hide TF.ReadHeader, TF.Planned, TF.PlanShape, ToLe, FromLe, IsRun, HarmlessRun, LosesPower, CurrentTxn, KeepsHeader, Guards,
      CR.Possible, CR.CrashRun, TornAt, CR.TxnOf, ApplyImages;
    var h := TopKHeader(c.base);
    TopKSize(c.base);
    TopKGuards(c.base);
    TopKKeeps(s, c, updates, h1, h2);
    var images := c.mutation.stage(c.base).images;
    var results :| TF.Planned(c.base, updates, h1, h2, images, results);
    TopKPlanFits(c.base, updates, h1, h2, images, results);
    TopKPlanRaises(c.base, updates, h1, h2, images, results);
    ShapeWrites(h, images, TF.ReadHeader(ApplyImages(c.base, images)).value.heapLen);
    k := |images| - 1;
    SpanValues();
    TornFieldIsRefused(s, TopKGate(), h, c, k);
  }

  lemma TopKKeeps(s: Setting, c: CR.Commit, updates: seq<TK.Update>, h1: Bytes -> u64, h2: Bytes -> u64)
    requires CR.Possible(s, c) && TF.ReadHeader(c.base).Ok? && TopKMutation(c.mutation, updates, h1, h2)
    ensures |c.base| == s.tokenOffset && c.mutation.stage(c.base).Plan?
    ensures KeepsHeader(c.mutation, TopKHeader(c.base), s.tokenOffset)
  {
    hide TF.ReadHeader, ValidEncoding, TopKMutation, Raises;
    TopKSize(c.base);
    TopKRaises(c.mutation, updates, h1, h2, TopKHeader(c.base), s.tokenOffset);
    RaisesKeeps(c.mutation, TopKHeader(c.base), s.tokenOffset);
  }

  // ---------------------------------------------------------------------
  // CMS
  // ---------------------------------------------------------------------

  /** `cms_file_read_header`: it accepts every total. */
  ghost function CmsGate(): Bytes -> bool {
    (body: Bytes) => CF.ReadCms(body).Ok?
  }

  const CMS_HEADER := Header(32, 24, 32, U64_MAX)

  lemma CmsGuards(base: Bytes)
    requires CF.ReadCms(base).Ok?
    ensures Guards(CmsGate(), CMS_HEADER, base)
  {
    hide FromLe;
    forall body: Bytes | |body| == |base| && SameHeader(CMS_HEADER, body, base)
      ensures CmsGate()(body) && FromLe(body[24..32]) <= U64_MAX
    {
      SpanValues();
      assert body[..8] == base[..8] && body[8..16] == base[8..16] && body[16..24] == base[16..24];
    }
  }

  lemma CmsKeepsHeader(m: Mutation, batch: CmsBatch, h1: Bytes -> u64, h2: Bytes -> u64, size: nat)
    requires CmsMutation(m, batch, h1, h2)
    ensures KeepsHeader(m, CMS_HEADER, size)
  {
    hide CF.ReadCms, ApplyImages;
    forall body: Bytes | |body| == size && m.stage(body).Plan? ensures AllClean(CMS_HEADER, m.stage(body).images) {
      assert CmsPlanned(body, batch, h1, h2, m.stage(body).images, m.stage(body).result);
    }
  }

  ghost predicate CmsLog(log: seq<Entry>, batches: seq<CmsBatch>, h1: Bytes -> u64, h2: Bytes -> u64) {
    |log| == |batches| && forall i :: 0 <= i < |log| ==> CmsMutation(log[i].mutation, batches[i], h1, h2)
  }

  /** Whatever a power loss leaves of a CMS file is opened. */
  lemma CmsAlwaysOpens(s: Setting, base: Bytes, first: Token, run: seq<World>,
                       batches: seq<CmsBatch>, h1: Bytes -> u64, h2: Bytes -> u64)
    requires s.Valid() && IsRun(s, base, first, run) && CmsGate()(base) && CmsLog(run[|run| - 1].log, batches, h1, h2)
    ensures Opens(s, CmsGate(), run[|run| - 1].disk)
  {
    hide Step, CmsMutation, Guards, KeepsHeader, CF.ReadCms, Opens, Quiet, FromLe;
    var w := run[|run| - 1];
    CmsGuards(base);
    forall i | 0 <= i < |w.log| ensures KeepsHeader(w.log[i].mutation, CMS_HEADER, s.tokenOffset) {
      CmsKeepsHeader(w.log[i].mutation, batches[i], h1, h2, s.tokenOffset);
    }
    OpensAt(s, CmsGate(), CMS_HEADER, base, first, run, |run| - 1);
    SpanValues();
    FullRangeIsQuiet(CMS_HEADER, w.disk);
  }
}
