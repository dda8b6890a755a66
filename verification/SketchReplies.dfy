/** What the sketches answer across crashes: whenever a batch is answered, first or by a replay
    after a power loss, the answer decodes to that of the batch executed after exactly the
    batches committed before it. */
module SketchReplies {
  import opened Bytes
  import opened AfterImages
  import opened Receipt
  import opened Counters
  import opened SidecarProtocol
  import opened SidecarSafety
  import opened SidecarTheorems
  import opened SidecarSketches
  import opened SketchMutations
  import opened SketchGates
  import CMS = Cms
  import CF = CmsFile
  import BL = Bloom
  import BF = BloomFile
  import BS = BloomStage
  import TK = TopK
  import TF = TopKFile
  import TR = TopKResults
  import CountMin

  /** The reply carries a result. */
  ghost predicate Answered(run: seq<World>, j: nat) {
    && run != [] && j < |run[|run| - 1].replies|
    && (run[|run| - 1].replies[j].1.Applied? || run[|run| - 1].replies[j].1.Replayed?)
  }

  // ---------------------------------------------------------------------
  // CMS
  // ---------------------------------------------------------------------

  /** The counts of `items` right after the batches before them. */
  lemma CmsAnswersTheCounts(s: Setting, base: Bytes, first: Token, run: seq<World>, j: nat,
                            batches: seq<CmsBatch>, h1: Bytes -> u64, h2: Bytes -> u64) returns (i: nat)
    requires s.Valid() && IsRun(s, base, first, run) && HarmlessRun(s, run) && CmsGate()(base)
    requires CmsLog(run[|run| - 1].log, batches, h1, h2) && Answered(run, j)
    ensures i < |batches| && run[|run| - 1].log[i].token == run[|run| - 1].replies[j].0
    ensures var before := RunEffects(CF.ReadCms(base).value, CmsEffects(batches[..i], h1, h2));
      && before.Some?
      && (batches[i].Increments? ==>
          var sketch := CF.SketchOf(before.value, h1, h2);
          && CMS.Sound(sketch, before.value.state)
          && var staged := CMS.CountAll(sketch, before.value.state, batches[i].items);
          && staged.Some?
          && CF.DecodeCounts(run[|run| - 1].replies[j].1.result, |batches[i].items|) == Ok(staged.value.counts))
  {
    hide Step, Starts, Realizes, CmsMutation, BelowFooter, CF.ReadCms, CmsEffect, HarmlessRun, Confined, WasStaged, RunEffects,
      CMS.CountAll, Fold, EncodeCounters, CF.DecodeCounts, ApplyImages;
    var w, effects := run[|run| - 1], CmsEffects(batches, h1, h2);
    forall k | 0 <= k < |effects|
      ensures Realizes(w.log[k].mutation, CmsRead(), effects[k]) && BelowFooter(w.log[k].mutation)
    {
      CmsRealizes(w.log[k].mutation, batches[k], h1, h2);
    }
    LogIsConfined(s, w.log);
    i := RepliesWereStaged(s, base, first, run, j);
    ReadsBefore(base, w.log, CmsRead(), effects, i);
    assert effects[..i] == CmsEffects(batches[..i], h1, h2);
    CmsAnswer(w.log[i].mutation, batches[i], h1, h2, Fold(base, w.log[..i]));
  }

  lemma CmsAnswer(m: Mutation, batch: CmsBatch, h1: Bytes -> u64, h2: Bytes -> u64, body: Bytes)
    requires CmsMutation(m, batch, h1, h2) && m.stage(body).Plan?
    ensures CF.ReadCms(body).Ok?
    ensures batch.Increments? ==>
      var file := CF.ReadCms(body).value; var sketch := CF.SketchOf(file, h1, h2);
      && CMS.Sound(sketch, file.state)
      && var staged := CMS.CountAll(sketch, file.state, batch.items);
      && staged.Some? && CF.DecodeCounts(m.stage(body).result, |batch.items|) == Ok(staged.value.counts)
  {
    hide CF.ReadCms, CMS.CountAll, EncodeCounters, CF.DecodeCounts, ApplyImages;
    assert CmsPlanned(body, batch, h1, h2, m.stage(body).images, m.stage(body).result);
    if batch.Increments? {
      var counts :| CF.Planned(body, batch.items, h1, h2, m.stage(body).images, counts) && AllI64(counts)
                    && m.stage(body).result == EncodeCounters(counts);
      CF.CountsRoundTrip(counts);
    }
  }

  // ---------------------------------------------------------------------
  // Bloom
  // ---------------------------------------------------------------------

  /** One answer per element: whether it was new after the batches before. */
  lemma BloomAnswersNovelty(s: Setting, base: Bytes, first: Token, run: seq<World>, j: nat,
                            batches: seq<seq<Bytes>>, h1: Bytes -> u64, h2: Bytes -> u64) returns (i: nat)
    requires s.Valid() && IsRun(s, base, first, run) && HarmlessRun(s, run) && BF.ReadBloom(base).Ok?
    requires BloomLog(run[|run| - 1].log, batches, h1, h2) && Answered(run, j)
    ensures i < |batches| && run[|run| - 1].log[i].token == run[|run| - 1].replies[j].0
    ensures var before := RunEffects(BF.ReadBloom(base).value, BloomEffects(batches[..i], h1, h2));
      && before.Some? && BS.FilterOf(before.value, h1, h2).Valid()
      && BS.DecodeAnswers(run[|run| - 1].replies[j].1.result, |batches[i]|)
         == Ok(BL.AddAll(BS.FilterOf(before.value, h1, h2), BS.StateOf(before.value), batches[i]).1)
      && BL.TellsNovelty(BS.FilterOf(before.value, h1, h2), BS.StateOf(before.value).bits, batches[i],
           BS.DecodeAnswers(run[|run| - 1].replies[j].1.result, |batches[i]|).value)
  {
    hide Step, Starts, Realizes, BloomMutation, BelowFooter, BF.ReadBloom, BloomEffect, HarmlessRun, Confined, WasStaged, RunEffects,
      BL.AddAll, BL.TellsNovelty, Fold, BS.DecodeAnswers, ApplyImages;
    var w, effects := run[|run| - 1], BloomEffects(batches, h1, h2);
    forall k | 0 <= k < |effects|
      ensures Realizes(w.log[k].mutation, BloomRead(), effects[k]) && BelowFooter(w.log[k].mutation)
    {
      BloomRealizes(w.log[k].mutation, batches[k], h1, h2);
    }
    LogIsConfined(s, w.log);
    i := RepliesWereStaged(s, base, first, run, j);
    ReadsBefore(base, w.log, BloomRead(), effects, i);
    assert effects[..i] == BloomEffects(batches[..i], h1, h2);
    BloomAnswer(w.log[i].mutation, batches[i], h1, h2, Fold(base, w.log[..i]));
  }

  lemma BloomAnswer(m: Mutation, elements: seq<Bytes>, h1: Bytes -> u64, h2: Bytes -> u64, body: Bytes)
    requires BloomMutation(m, elements, h1, h2) && m.stage(body).Plan?
    ensures BF.ReadBloom(body).Ok? && BS.FilterOf(BF.ReadBloom(body).value, h1, h2).Valid()
    ensures var c := BF.ReadBloom(body).value;
      && BS.DecodeAnswers(m.stage(body).result, |elements|)
         == Ok(BL.AddAll(BS.FilterOf(c, h1, h2), BS.StateOf(c), elements).1)
      && BL.TellsNovelty(BS.FilterOf(c, h1, h2), BS.StateOf(c).bits, elements,
           BS.DecodeAnswers(m.stage(body).result, |elements|).value)
  {
    hide BF.ReadBloom, BL.AddAll, BL.TellsNovelty, BS.DecodeAnswers, BS.EncodeAnswers, ApplyImages;
    var answers :| BloomPlanned(body, elements, h1, h2, m.stage(body).images, answers)
                   && m.stage(body).result == BS.EncodeAnswers(answers);
    BS.AnswersRoundTrip(answers, [], 0);
    var c := BF.ReadBloom(body).value;
    BL.BatchAnswers(BS.FilterOf(c, h1, h2), BS.StateOf(c), elements);
  }

  // ---------------------------------------------------------------------
  // TopK
  // ---------------------------------------------------------------------

  /** The evictions of the batch after the batches before, if its elements passed the length check. */
  lemma TopKAnswersEvictions(s: Setting, base: Bytes, first: Token, run: seq<World>, j: nat,
                             batches: seq<seq<TK.Update>>, h1: Bytes -> u64, h2: Bytes -> u64) returns (i: nat)
    requires s.Valid() && IsRun(s, base, first, run) && HarmlessRun(s, run) && TopKRead()(base).Some?
    requires TopKLog(run[|run| - 1].log, batches, h1, h2) && Answered(run, j)
    requires forall k :: 0 <= k < |batches| ==> TF.ShortUpdates(batches[k])
    ensures i < |batches| && run[|run| - 1].log[i].token == run[|run| - 1].replies[j].0
    ensures var before := RunEffects(TopKRead()(base).value, TopKEffects(batches[..i], h1, h2));
      && before.Some?
      && var sketch := CountMin.Sketch(before.value.width, before.value.depth, h1, h2);
      && TK.Sound(sketch, before.value.state) && before.value.k > 0
      && var staged := TK.AddAll(sketch, before.value.k, before.value.state, batches[i]);
      && staged.Some?
      && TR.DecodeResults(run[|run| - 1].replies[j].1.result, |batches[i]|) == Ok(staged.value.evicted)
      && TK.NamesLeavers(sketch, before.value.k, before.value.state, batches[i], staged.value.evicted)
  {
    hide Step, Starts, Realizes, TopKMutation, BelowFooter, TopKRead, TopKEffect, HarmlessRun, Confined, WasStaged, RunEffects,
      TK.AddAll, Fold, TR.DecodeResults, ApplyImages, TF.ShortUpdates, TK.NamesLeavers;
    var w, effects := run[|run| - 1], TopKEffects(batches, h1, h2);
    forall k | 0 <= k < |effects|
      ensures Realizes(w.log[k].mutation, TopKRead(), effects[k]) && BelowFooter(w.log[k].mutation)
    {
      TopKRealizes(w.log[k].mutation, batches[k], h1, h2);
    }
    LogIsConfined(s, w.log);
    i := RepliesWereStaged(s, base, first, run, j);
    ReadsBefore(base, w.log, TopKRead(), effects, i);
    assert effects[..i] == TopKEffects(batches[..i], h1, h2);
    TopKAnswer(w.log[i].mutation, batches[i], h1, h2, Fold(base, w.log[..i]));
    var v := RunEffects(TopKRead()(base).value, TopKEffects(batches[..i], h1, h2)).value;
    var sketch := CountMin.Sketch(v.width, v.depth, h1, h2);
    TK.BatchEvictions(sketch, v.k, v.state, batches[i]);
  }

  lemma TopKAnswer(m: Mutation, updates: seq<TK.Update>, h1: Bytes -> u64, h2: Bytes -> u64, body: Bytes)
    requires TopKMutation(m, updates, h1, h2) && m.stage(body).Plan? && TF.ShortUpdates(updates)
    ensures TopKRead()(body).Some?
    ensures var v := TopKRead()(body).value; var sketch := CountMin.Sketch(v.width, v.depth, h1, h2);
      && TK.Sound(sketch, v.state) && v.k > 0
      && var staged := TK.AddAll(sketch, v.k, v.state, updates);
      && staged.Some? && TR.DecodeResults(m.stage(body).result, |updates|) == Ok(staged.value.evicted)
  {
    hide TF.ReadContents, TK.AddAll, TR.DecodeResults, TR.EncodeResults, ApplyImages;
    var results :| TF.Planned(body, updates, h1, h2, m.stage(body).images, results)
                   && TR.EncodeResults(results) == Ok(m.stage(body).result);
    TF.CountersBounded(TF.ReadContents(body).value, |body|, h1, h2);
    EncodedCount(results);
    TF.ReplayAnswersTheSame(body, updates, h1, h2, m.stage(body).images, results);
  }

  lemma EncodedCount(results: seq<Option<Bytes>>)
    requires TR.EncodeResults(results).Ok?
    ensures |results| <= U32_MAX
  {}
}
