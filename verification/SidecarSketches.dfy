/** What the mutation protocol means for the sketches that run on it: if every staged plan
    turns a readable body into one that reads as the batch's effect, then after any run and
    any power loss the recovered file reads as all committed batches, each counted once. */
module SidecarSketches {
  import opened Bytes
  import opened AfterImages
  import opened Receipt
  import opened SidecarProtocol
  import opened SidecarSafety
  import opened SidecarTheorems

  // ---------------------------------------------------------------------
  // Every logged mutation was staged from the body its predecessors left
  // ---------------------------------------------------------------------

  ghost predicate StagedAt(base: Bytes, log: seq<Entry>, i: nat)
    requires i < |log|
  {
    var plan := log[i].mutation.stage(Fold(base, log[..i]));
    plan.Plan? && plan.result == log[i].result && Fits(plan.images, |base|)
  }

  ghost predicate WasStaged(base: Bytes, log: seq<Entry>) {
    forall i :: 0 <= i < |log| ==> StagedAt(base, log, i)
  }

  lemma StagingIsFromFold(s: Setting, base: Bytes, first: Token, w: World, w': World)
    requires s.Valid() && Inv(s, base, first, w) && Stages(s, w, w') && w'.log != w.log
    requires Confined(s, w'.log, s.tokenOffset)
    ensures w'.log == w.log + [w'.log[|w.log|]]
    ensures w'.log[..|w.log|] == w.log && StagedAt(base, w'.log, |w.log|)
  {
    hide DecodeReceipt, DecodeToken, EncodeReceipt, ValidEncoding, Footer, SurvivorsInv, ReceiptInv, RepliesInv,
      CurrentTxn, Fold;
    TargetFooter(base, first, w);
    var e := w'.log[|w.log|];
    assert w'.log == w.log + [e];
  }

  lemma StagedGrows(base: Bytes, log: seq<Entry>, e: Entry)
    requires WasStaged(base, log) && StagedAt(base, log + [e], |log|)
    ensures WasStaged(base, log + [e])
  {
    hide Fold;
    forall i | 0 <= i < |log| + 1 ensures StagedAt(base, log + [e], i) {
      if i < |log| {
        assert StagedAt(base, log, i);
        assert (log + [e])[..i] == log[..i];
      }
    }
  }

  lemma {:induction false} LogWasStaged(s: Setting, base: Bytes, first: Token, run: seq<World>)
    requires s.Valid() && IsRun(s, base, first, run) && Dependable(s, run)
    ensures WasStaged(base, run[|run| - 1].log)
    decreases |run|
  {
    hide Inv, Step, StagedAt, Stages, Confined, HarmlessRun;
    var n := |run| - 1;
    if n > 0 {
      var w, w' := run[n - 1], run[n];
      assert Step(s, run[n - 1], run[n - 1 + 1]);
      PrefixIsDependable(s, base, first, run, n);
      LogWasStaged(s, base, first, run[..n]);
      if w'.log != w.log {
        RunIsSafe(s, base, first, run[..n]);
        OnlyStagingLogs(s, w, w');
        StagingIsFromFold(s, base, first, w, w');
        StagedGrows(base, w.log, w'.log[|w.log|]);
      }
    }
  }

  // ---------------------------------------------------------------------
  // Reading the folded body
  // ---------------------------------------------------------------------

  /** The mutation's plans have `effect` on what `read` sees. */
  ghost predicate Realizes<S(!new)>(m: Mutation, read: Bytes -> Option<S>, effect: S -> Option<S>) {
    forall body: Bytes :: m.stage(body).Plan? && Fits(m.stage(body).images, |body|) ==>
      && read(body).Some?
      && effect(read(body).value).Some?
      && read(ApplyImages(body, m.stage(body).images)) == effect(read(body).value)
  }

  /** The effects one after the other. */
  ghost function RunEffects<S>(start: S, effects: seq<S -> Option<S>>): Option<S> {
    if effects == [] then Some(start)
    else
      match RunEffects(start, effects[..|effects| - 1])
      case None => None
      case Some(mid) => effects[|effects| - 1](mid)
  }

  lemma {:induction false} FoldReads<S(!new)>(base: Bytes, log: seq<Entry>, read: Bytes -> Option<S>, effects: seq<S -> Option<S>>)
    requires WasStaged(base, log) && |effects| == |log| && read(base).Some?
    requires forall i :: 0 <= i < |log| ==> Realizes(log[i].mutation, read, effects[i])
    ensures RunEffects(read(base).value, effects).Some?
    ensures read(Fold(base, log)) == RunEffects(read(base).value, effects)
    decreases |log|
  {
    hide Realizes, ApplyImages;
    if log != [] {
      var n := |log| - 1;
      var body, m := Fold(base, log[..n]), log[n].mutation;
      PrefixStaged(base, log, n);
      FoldReads(base, log[..n], read, effects[..n]);
      assert StagedAt(base, log, n);
      assert m.stage(body).Plan? && Fits(m.stage(body).images, |body|);
      assert Realizes(m, read, effects[n]);
      OneEffect(m, read, effects[n], body);
    }
  }

  lemma OneEffect<S(!new)>(m: Mutation, read: Bytes -> Option<S>, effect: S -> Option<S>, body: Bytes)
    requires Realizes(m, read, effect) && m.stage(body).Plan? && Fits(m.stage(body).images, |body|)
    ensures read(body).Some? && effect(read(body).value).Some?
    ensures read(Effect(body, m)) == effect(read(body).value)
  {
    hide ApplyImages, Effect;
    EffectBelow(body, m);
  }

  lemma PrefixStaged(base: Bytes, log: seq<Entry>, k: nat)
    requires WasStaged(base, log) && k <= |log|
    ensures WasStaged(base, log[..k])
  {
    hide Fold;
    forall i | 0 <= i < k ensures StagedAt(base, log[..k], i) {
      assert StagedAt(base, log, i);
      assert log[..k][..i] == log[..i];
    }
  }

  /** After any run and any power loss, recovery leaves a file that reads as every committed
      batch applied once, in token order. */
  lemma SketchSurvivesCrashes<S(!new)>(s: Setting, base: Bytes, first: Token, run: seq<World>, f: Bytes,
                                       read: Bytes -> Option<S>, effects: seq<S -> Option<S>>)
    requires s.Valid() && IsRun(s, base, first, run) && Dependable(s, run)
    requires Survives(run[|run| - 1].disk, f, s.tokenOffset)
    requires read(base).Some? && |effects| == |run[|run| - 1].log|
    requires forall i :: 0 <= i < |effects| ==> Realizes(run[|run| - 1].log[i].mutation, read, effects[i])
    ensures var w := run[|run| - 1]; var txn := CurrentTxn(s, w.disk);
      && |f| == s.FileSize()
      && (txn.Some? ==> Fits(txn.value.images, |f|))
      && RunEffects(read(base).value, effects).Some?
      && read(Body(RecoveredFile(f, txn))) == RunEffects(read(base).value, effects)
  {
    hide Step, Starts, Survives, Realizes, RecoveredFile, CurrentTxn, Fold, WasStaged, Dependable;
    var w := run[|run| - 1];
    ExactlyOnce(s, base, first, run);
    LogWasStaged(s, base, first, run);
    FoldReads(base, w.log, read, effects);
    FooterOf(Fold(base, w.log), LastToken(first, w.log));
  }

  // ---------------------------------------------------------------------
  // Answers
  // ---------------------------------------------------------------------

  /** Every answer with a result, first or replayed, is what staging its token's mutation from
      the body of its predecessors gave. */
  lemma RepliesWereStaged(s: Setting, base: Bytes, first: Token, run: seq<World>, j: nat) returns (i: nat)
    requires s.Valid() && IsRun(s, base, first, run) && Dependable(s, run)
    requires var replies := run[|run| - 1].replies; j < |replies| && (replies[j].1.Applied? || replies[j].1.Replayed?)
    ensures var w := run[|run| - 1];
      && i < |w.log| && w.log[i].token == w.replies[j].0 && w.log[i].result == w.replies[j].1.result
      && WasStaged(base, w.log) && StagedAt(base, w.log, i)
  {
    hide Step, SurvivorsInv, PhaseInv, ReceiptInv, StagedAt, Dependable;
    var w := run[|run| - 1];
    RunIsSafe(s, base, first, run);
    LogWasStaged(s, base, first, run);
    i :| 0 <= i < |w.log| && w.log[i].token == w.replies[j].0 && w.log[i].result == w.replies[j].1.result;
  }

  /** What the body before logged mutation `i` reads as. */
  lemma ReadsBefore<S(!new)>(base: Bytes, log: seq<Entry>, read: Bytes -> Option<S>, effects: seq<S -> Option<S>>, i: nat)
    requires WasStaged(base, log) && |effects| == |log| && read(base).Some? && i < |log|
    requires forall k :: 0 <= k < |log| ==> Realizes(log[k].mutation, read, effects[k])
    ensures RunEffects(read(base).value, effects[..i]).Some?
    ensures read(Fold(base, log[..i])) == RunEffects(read(base).value, effects[..i])
  {
    hide Realizes, WasStaged;
    PrefixStaged(base, log, i);
    FoldReads(base, log[..i], read, effects[..i]);
  }
}
