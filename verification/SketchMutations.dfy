/** The three sketches on the mutation protocol: mutations whose plans keep the staging
    contracts stay below the footer and have the batch's effect on the file. */
module SketchMutations {
  import opened Bytes
  import opened AfterImages
  import opened SidecarProtocol
  import opened SidecarSafety
  import opened SidecarTheorems
  import opened SidecarSketches
  import opened Receipt
  import CM = CmsMerge
  import CMS = Cms
  import CF = CmsFile
  import BL = Bloom
  import BF = BloomFile
  import BS = BloomStage
  import TK = TopK
  import TF = TopKFile
  import TR = TopKResults
  import opened Counters
  import CountMin
  import IH = IndexedHeap

  lemma LogIsConfined(s: Setting, log: seq<Entry>)
    requires forall i :: 0 <= i < |log| ==> BelowFooter(log[i].mutation)
    ensures Confined(s, log, s.tokenOffset)
  {}

  // ---------------------------------------------------------------------
  // CMS
  // ---------------------------------------------------------------------

  ghost function CmsRead(): Bytes -> Option<CM.Source> {
    (body: Bytes) => match CF.ReadCms(body) case Ok(file) => Some(file) case Err => None
  }

  /** A source of a merge: another file as it was read, or the destination itself. */
  datatype MergeSource = Itself | Other(file: CM.Source)

  datatype CmsBatch = Increments(items: seq<CMS.Item>) | Merge(sources: seq<MergeSource>, weights: seq<int>)

  function SourceFiles(file: CM.Source, sources: seq<MergeSource>): (files: seq<CM.Source>)
    ensures |files| == |sources|
  {
    seq(|sources|, i requires 0 <= i < |sources| => if sources[i].Itself? then file else sources[i].file)
  }

  /** Counting a batch, or merging, once. */
  ghost function CmsOutcome(file: CM.Source, batch: CmsBatch, h1: Bytes -> u64, h2: Bytes -> u64): Option<CM.Source> {
    var s := CF.SketchOf(file, h1, h2);
    if !CMS.Sound(s, file.state) then None
    else
      match batch
      case Increments(items) =>
        (match CMS.CountAll(s, file.state, items)
         case None => None
         case Some(staged) => Some(file.(state := staged.state)))
      case Merge(sources, weights) =>
        var files := SourceFiles(file, sources);
        if !CM.Readable(files) then None
        else
          match CM.MergeInto(s, file.state, files, weights)
          case None => None
          case Some(state) => Some(file.(state := state))
  }

  ghost function CmsEffect(batch: CmsBatch, h1: Bytes -> u64, h2: Bytes -> u64): CM.Source -> Option<CM.Source> {
    (file: CM.Source) => CmsOutcome(file, batch, h1, h2)
  }

  /** The images of a batch, and the counts a replay will answer; a merge answers nothing. */
  ghost predicate CmsPlanned(body: Bytes, batch: CmsBatch, h1: Bytes -> u64, h2: Bytes -> u64, images: seq<Image>, result: Bytes) {
    match batch
    case Increments(items) =>
      exists counts :: CF.Planned(body, items, h1, h2, images, counts) && AllI64(counts) && result == EncodeCounters(counts)
    case Merge(sources, weights) =>
      && CF.ReadCms(body).Ok? && result == []
      && CF.MergePlanned(body, SourceFiles(CF.ReadCms(body).value, sources), weights, h1, h2, images)
  }

  ghost predicate CmsMutation(m: Mutation, batch: CmsBatch, h1: Bytes -> u64, h2: Bytes -> u64) {
    forall body: Bytes :: m.stage(body).Plan? ==> CmsPlanned(body, batch, h1, h2, m.stage(body).images, m.stage(body).result)
  }

  lemma CmsRealizes(m: Mutation, batch: CmsBatch, h1: Bytes -> u64, h2: Bytes -> u64)
    requires CmsMutation(m, batch, h1, h2)
    ensures BelowFooter(m) && Realizes(m, CmsRead(), CmsEffect(batch, h1, h2))
  {
    hide ApplyImages, CF.ReadCms, CMS.CountAll, CM.MergeInto, CM.Readable;
    forall body: Bytes | m.stage(body).Plan?
      ensures Fits(m.stage(body).images, |body|) && CmsRead()(body).Some?
      ensures CmsEffect(batch, h1, h2)(CmsRead()(body).value).Some?
      ensures CmsRead()(ApplyImages(body, m.stage(body).images)) == CmsEffect(batch, h1, h2)(CmsRead()(body).value)
    {
      assert CmsPlanned(body, batch, h1, h2, m.stage(body).images, m.stage(body).result);
    }
  }

  ghost function CmsEffects(batches: seq<CmsBatch>, h1: Bytes -> u64, h2: Bytes -> u64): (e: seq<CM.Source -> Option<CM.Source>>)
    ensures |e| == |batches|
  {
    seq(|batches|, i requires 0 <= i < |batches| => CmsEffect(batches[i], h1, h2))
  }

  /** After any run of increment batches and merges and any power loss the recovered CMS file
      holds the counters and the total of every committed one executed exactly once. */
  lemma CmsSurvivesCrashes(s: Setting, base: Bytes, first: Token, run: seq<World>, f: Bytes,
                           batches: seq<CmsBatch>, h1: Bytes -> u64, h2: Bytes -> u64)
    requires s.Valid() && IsRun(s, base, first, run) && HarmlessRun(s, run)
    requires Survives(run[|run| - 1].disk, f, s.tokenOffset)
    requires CF.ReadCms(base).Ok? && |batches| == |run[|run| - 1].log|
    requires forall i :: 0 <= i < |batches| ==> CmsMutation(run[|run| - 1].log[i].mutation, batches[i], h1, h2)
    ensures var w := run[|run| - 1]; var txn := CurrentTxn(s, w.disk);
      var counted := RunEffects(CF.ReadCms(base).value, CmsEffects(batches, h1, h2));
      && |f| == s.FileSize() && (txn.Some? ==> Fits(txn.value.images, |f|))
      && counted.Some? && CF.ReadCms(Body(RecoveredFile(f, txn))) == Ok(counted.value)
  {
    hide Step, Starts, Survives, Realizes, RecoveredFile, CurrentTxn, CmsMutation, BelowFooter, CF.ReadCms, CmsEffect,
      HarmlessRun, Confined;
    var w, effects := run[|run| - 1], CmsEffects(batches, h1, h2);
    forall i | 0 <= i < |effects|
      ensures Realizes(w.log[i].mutation, CmsRead(), effects[i]) && BelowFooter(w.log[i].mutation)
    {
      CmsRealizes(w.log[i].mutation, batches[i], h1, h2);
    }
    LogIsConfined(s, w.log);
    SketchSurvivesCrashes(s, base, first, run, f, CmsRead(), effects);
  }

  // ---------------------------------------------------------------------
  // Bloom
  // ---------------------------------------------------------------------

  ghost function BloomRead(): Bytes -> Option<BF.Contents> {
    (body: Bytes) => match BF.ReadBloom(body) case Ok(c) => Some(c) case Err => None
  }

  /** Adding the elements one at a time. */
  ghost function BloomOutcome(c: BF.Contents, elements: seq<Bytes>, h1: Bytes -> u64, h2: Bytes -> u64): Option<BF.Contents> {
    var f := BS.FilterOf(c, h1, h2);
    if !f.Valid() || !BL.Allowed(f, elements) then None
    else
      var st := BL.AddAll(f, BS.StateOf(c), elements).0;
      if st.count > U64_MAX then None else Some(c.(bits := st.bits, count := st.count))
  }

  ghost function BloomEffect(elements: seq<Bytes>, h1: Bytes -> u64, h2: Bytes -> u64): BF.Contents -> Option<BF.Contents> {
    (c: BF.Contents) => BloomOutcome(c, elements, h1, h2)
  }

  ghost predicate BloomMutation(m: Mutation, elements: seq<Bytes>, h1: Bytes -> u64, h2: Bytes -> u64) {
    forall body: Bytes :: m.stage(body).Plan? ==>
      exists answers :: BloomPlanned(body, elements, h1, h2, m.stage(body).images, answers)
                        && m.stage(body).result == BS.EncodeAnswers(answers)
  }

  /** `BS.Stage` also refuses a batch over the work limit. */
  ghost predicate BloomPlanned(body: Bytes, elements: seq<Bytes>, h1: Bytes -> u64, h2: Bytes -> u64,
                               images: seq<Image>, answers: seq<bool>)
  {
    && BS.Planned(body, elements, h1, h2, images, answers)
    && BL.Allowed(BS.FilterOf(BF.ReadBloom(body).value, h1, h2), elements)
  }

  lemma BloomRealizes(m: Mutation, elements: seq<Bytes>, h1: Bytes -> u64, h2: Bytes -> u64)
    requires BloomMutation(m, elements, h1, h2)
    ensures BelowFooter(m) && Realizes(m, BloomRead(), BloomEffect(elements, h1, h2))
  {
    hide ApplyImages, BF.ReadBloom, BL.AddAll;
    forall body: Bytes | m.stage(body).Plan?
      ensures Fits(m.stage(body).images, |body|) && BloomRead()(body).Some?
      ensures BloomEffect(elements, h1, h2)(BloomRead()(body).value).Some?
      ensures BloomRead()(ApplyImages(body, m.stage(body).images))
           == BloomEffect(elements, h1, h2)(BloomRead()(body).value)
    {
      var answers :| BloomPlanned(body, elements, h1, h2, m.stage(body).images, answers);
    }
  }

  ghost function BloomEffects(batches: seq<seq<Bytes>>, h1: Bytes -> u64, h2: Bytes -> u64): (e: seq<BF.Contents -> Option<BF.Contents>>)
    ensures |e| == |batches|
  {
    seq(|batches|, i requires 0 <= i < |batches| => BloomEffect(batches[i], h1, h2))
  }

  /** After any run and any power loss the recovered Bloom file holds every committed batch. */
  lemma BloomSurvivesCrashes(s: Setting, base: Bytes, first: Token, run: seq<World>, f: Bytes,
                             batches: seq<seq<Bytes>>, h1: Bytes -> u64, h2: Bytes -> u64)
    requires s.Valid() && IsRun(s, base, first, run) && HarmlessRun(s, run)
    requires Survives(run[|run| - 1].disk, f, s.tokenOffset)
    requires BloomRead()(base).Some? && |batches| == |run[|run| - 1].log|
    requires forall i :: 0 <= i < |batches| ==> BloomMutation(run[|run| - 1].log[i].mutation, batches[i], h1, h2)
    ensures var w := run[|run| - 1]; var txn := CurrentTxn(s, w.disk);
      var added := RunEffects(BloomRead()(base).value, BloomEffects(batches, h1, h2));
      && |f| == s.FileSize() && (txn.Some? ==> Fits(txn.value.images, |f|))
      && added.Some? && BloomRead()(Body(RecoveredFile(f, txn))) == added
  {
    hide Step, Starts, Survives, Realizes, RecoveredFile, CurrentTxn, BloomMutation, BelowFooter, BloomRead, BloomEffect,
      HarmlessRun, Confined;
    var w, effects := run[|run| - 1], BloomEffects(batches, h1, h2);
    forall i | 0 <= i < |effects|
      ensures Realizes(w.log[i].mutation, BloomRead(), effects[i]) && BelowFooter(w.log[i].mutation)
    {
      BloomRealizes(w.log[i].mutation, batches[i], h1, h2);
    }
    LogIsConfined(s, w.log);
    SketchSurvivesCrashes(s, base, first, run, f, BloomRead(), effects);
  }

  // ---------------------------------------------------------------------
  // TopK
  // ---------------------------------------------------------------------

  /** A TopK file as its users see it: dimensions, counters and what the heap holds. */
  datatype TopKView = TopKView(k: nat, width: nat, depth: nat, state: TK.State)

  ghost function TopKViewOf(c: TF.Contents): TopKView
    requires IH.Distinct(c.entries)
  {
    TopKView(c.header.k, c.header.width, c.header.depth, TF.StateOf(c))
  }

  ghost function TopKRead(): Bytes -> Option<TopKView> {
    (body: Bytes) => match TF.ReadContents(body) case Ok(c) => Some(TopKViewOf(c)) case Err => None
  }

  ghost function TopKOutcome(v: TopKView, updates: seq<TK.Update>, h1: Bytes -> u64, h2: Bytes -> u64): Option<TopKView> {
    var s := CountMin.Sketch(v.width, v.depth, h1, h2);
    if !TK.Sound(s, v.state) || v.k == 0 then None
    else
      match TK.AddAll(s, v.k, v.state, updates)
      case None => None
      case Some(staged) => Some(v.(state := staged.state))
  }

  ghost function TopKEffect(updates: seq<TK.Update>, h1: Bytes -> u64, h2: Bytes -> u64): TopKView -> Option<TopKView> {
    (v: TopKView) => TopKOutcome(v, updates, h1, h2)
  }

  ghost predicate TopKMutation(m: Mutation, updates: seq<TK.Update>, h1: Bytes -> u64, h2: Bytes -> u64) {
    forall body: Bytes :: m.stage(body).Plan? ==>
      exists results :: TF.Planned(body, updates, h1, h2, m.stage(body).images, results)
                        && TR.EncodeResults(results) == Ok(m.stage(body).result)
  }

  lemma TopKRealizes(m: Mutation, updates: seq<TK.Update>, h1: Bytes -> u64, h2: Bytes -> u64)
    requires TopKMutation(m, updates, h1, h2)
    ensures BelowFooter(m) && Realizes(m, TopKRead(), TopKEffect(updates, h1, h2))
  {
    hide ApplyImages, TF.ReadContents, TK.AddAll, IH.Distinct, IH.ModelOf;
    forall body: Bytes | m.stage(body).Plan?
      ensures Fits(m.stage(body).images, |body|) && TopKRead()(body).Some?
      ensures TopKEffect(updates, h1, h2)(TopKRead()(body).value).Some?
      ensures TopKRead()(ApplyImages(body, m.stage(body).images))
           == TopKEffect(updates, h1, h2)(TopKRead()(body).value)
    {
      var results :| TF.Planned(body, updates, h1, h2, m.stage(body).images, results);
      TF.CountersBounded(TF.ReadContents(body).value, |body|, h1, h2);
    }
  }

  ghost function TopKEffects(batches: seq<seq<TK.Update>>, h1: Bytes -> u64, h2: Bytes -> u64): (e: seq<TopKView -> Option<TopKView>>)
    ensures |e| == |batches|
  {
    seq(|batches|, i requires 0 <= i < |batches| => TopKEffect(batches[i], h1, h2))
  }

  /** After any run and any power loss the recovered TopK file holds every committed batch,
      each added once. */
  lemma TopKSurvivesCrashes(s: Setting, base: Bytes, first: Token, run: seq<World>, f: Bytes,
                             batches: seq<seq<TK.Update>>, h1: Bytes -> u64, h2: Bytes -> u64)
    requires s.Valid() && IsRun(s, base, first, run) && HarmlessRun(s, run)
    requires Survives(run[|run| - 1].disk, f, s.tokenOffset)
    requires TopKRead()(base).Some? && |batches| == |run[|run| - 1].log|
    requires forall i :: 0 <= i < |batches| ==> TopKMutation(run[|run| - 1].log[i].mutation, batches[i], h1, h2)
    ensures var w := run[|run| - 1]; var txn := CurrentTxn(s, w.disk);
      var added := RunEffects(TopKRead()(base).value, TopKEffects(batches, h1, h2));
      && |f| == s.FileSize() && (txn.Some? ==> Fits(txn.value.images, |f|))
      && added.Some? && TopKRead()(Body(RecoveredFile(f, txn))) == added
  {
    hide Step, Starts, Survives, Realizes, RecoveredFile, CurrentTxn, TopKMutation, BelowFooter, TopKRead, TopKEffect,
      HarmlessRun, Confined;
    var w, effects := run[|run| - 1], TopKEffects(batches, h1, h2);
    forall i | 0 <= i < |effects|
      ensures Realizes(w.log[i].mutation, TopKRead(), effects[i]) && BelowFooter(w.log[i].mutation)
    {
      TopKRealizes(w.log[i].mutation, batches[i], h1, h2);
    }
    LogIsConfined(s, w.log);
    SketchSurvivesCrashes(s, base, first, run, f, TopKRead(), effects);
  }
}
