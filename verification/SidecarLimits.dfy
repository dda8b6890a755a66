/** The exact condition under which a publish over unsynced writes keeps the
    exactly-once guarantee. */
module SidecarLimits {
  import opened Bytes
  import opened AfterImages
  import opened Receipt
  import opened SidecarProtocol
  import opened SidecarSafety
  import opened SidecarTheorems

  // ---------------------------------------------------------------------
  // Publishing over unsynced writes
  // ---------------------------------------------------------------------

  /** A survivor the new images complete is the visible file wherever they do not write. */
  lemma RedoableIsSameOutside(s: Setting, target: Bytes, txn: Txn, f: Bytes, g: Bytes)
    requires |target| >= TOKEN_SIZE && Redoable(s, target, Some(txn), f) && Redoable(s, target, Some(txn), g)
    ensures SameOutside(txn.images, f, g)
  {
    hide Footer, ApplyImages;
    forall i | 0 <= i < |f| && !Covered(txn.images, i) ensures f[i] == g[i] {
      ApplyKeepsUncovered(f, txn.images, i);
      ApplyKeepsUncovered(g, txn.images, i);
    }
  }

  /** What staging publishes, whether or not it is harmless. */
  lemma StagedWorld(s: Setting, base: Bytes, first: Token, w: World, w': World)
    requires Inv(s, base, first, w) && Stages(s, w, w') && w'.phase.Committing? && Confined(s, w'.log, s.tokenOffset)
    ensures Shape(s, base, w'.disk) && ReceiptInv(s, w'.disk, w'.log)
    ensures CurrentTxn(s, w'.disk) == Some(w'.phase.txn) && w'.disk.Visible() == w.disk.Visible()
    ensures Redoable(s, Target(base, first, w'.log), Some(w'.phase.txn), w.disk.Visible())
    ensures Behind(s, w.disk, w'.phase.txn.token) && w'.phase.txn.token == LastToken(first, w'.log)
    ensures !s.ordered ==> w'.disk.stable == w.disk.stable && w'.disk.unsynced == w.disk.unsynced
  {
    hide DecodeReceipt, DecodeToken, EncodeReceipt, ValidEncoding, Footer, SurvivorsInv, RepliesInv, CurrentTxn, Fold,
      ApplyImages, Effect, TokensIncrease, Commitment, EndsBy, ReceiptMatches, Redoable, Behind;
    TargetFooter(base, first, w);
    var req, txn := w.phase.req, w'.phase.txn;
    var plan := req.mutation.stage(Body(w.disk.Visible()));
    var e := Entry(req.token, req.mutation, plan.result);
    CommitmentFields(req.token, s.tokenOffset, s.FileSize(), plan.images, plan.result);
    assert w'.log[|w.log|] == e;
    StagedReceipt(s, base, first, w.log, plan.images, e, txn);
    PublishGives(s, w.disk, txn);
    SurvivorsAreBehind(s, base, first, w, req.token);
  }

  /** Staging keeps all survivors repairable exactly when each is the visible file on every
      byte that the new images do not write. */
  lemma StagingIsExact(s: Setting, base: Bytes, first: Token, w: World, w': World)
    requires Inv(s, base, first, w) && Stages(s, w, w') && w'.phase.Committing? && Confined(s, w'.log, s.tokenOffset)
    ensures w'.disk.Fit()
    ensures SurvivorsInv(s, Target(base, first, w'.log), w'.disk) <==> Harmless(s, w.disk, w'.phase.txn.images)
  {
    hide DecodeReceipt, DecodeToken, EncodeReceipt, Footer, Survives, Fold, Redoable, Stages;
    StagedWorld(s, base, first, w, w');
    var target, txn := Target(base, first, w'.log), w'.phase.txn;
    if Harmless(s, w.disk, txn.images) {
      StagesKeeps(s, base, first, w, w');
    }
    if SurvivorsInv(s, target, w'.disk) && !s.ordered {
      forall f | Survives(w.disk, f, s.tokenOffset) ensures SameOutside(txn.images, f, w.disk.Visible()) {
        SameSurvivors(w.disk, w'.disk, f, s.tokenOffset);
        TargetFooter(base, first, w');
        RedoableIsSameOutside(s, target, txn, f, w.disk.Visible());
      }
    }
  }

  /** Compaction keeps all survivors repairable exactly when each is the visible file. */
  lemma CompactionIsExact(s: Setting, base: Bytes, first: Token, w: World, w': World)
    requires Inv(s, base, first, w) && TidiesAfterRecovery(s, w, w') && w'.disk != w.disk
    ensures Shape(s, base, w'.disk) && ReceiptInv(s, w'.disk, w'.log)
    ensures SurvivorsInv(s, Target(base, first, w'.log), w'.disk) <==> Harmless(s, w.disk, [])
  {
    hide DecodeReceipt, DecodeToken, EncodeReceipt, Footer, Survives, Fold;
    var target, txn := Target(base, first, w'.log), Compacted(w.phase.txn);
    PublishGives(s, w.disk, txn);
    if Harmless(s, w.disk, []) {
      TidiesAfterRecoveryKeeps(s, base, first, w, w');
    }
    if SurvivorsInv(s, target, w'.disk) && !s.ordered {
      forall f | Survives(w.disk, f, s.tokenOffset) ensures f == w.disk.Visible() {
        SameSurvivors(w.disk, w'.disk, f, s.tokenOffset);
      }
    }
  }

  lemma WhichPublish(s: Setting, w: World, w': World)
    requires s.Valid() && Step(s, w, w') && Publishes(w, w')
    ensures if w'.phase.Committing? then Stages(s, w, w') else TidiesAfterRecovery(s, w, w') && w'.disk != w.disk
  {
    hide DecodeReceipt, DecodeToken, EncodeReceipt, ValidEncoding, Footer, Survives, ReadAt, ShortWrite;
  }

  lemma PublishIsExact(s: Setting, base: Bytes, first: Token, w: World, w': World)
    requires s.Valid() && Inv(s, base, first, w) && Step(s, w, w') && Publishes(w, w')
    requires Confined(s, w'.log, s.tokenOffset)
    ensures w.disk.Fit()
    ensures Lossless(s, base, first, w') <==> Harmless(s, w.disk, PublishedImages(w'))
  {
    hide Step, Stages, TidiesAfterRecovery, Lossless, SurvivorsInv, Harmless;
    WhichPublish(s, w, w');
    if w'.phase.Committing? {
      StagedWorld(s, base, first, w, w');
      StagingIsExact(s, base, first, w, w');
    } else {
      CompactionIsExact(s, base, first, w, w');
    }
    LosslessIsSafe(s, base, first, w');
  }

  lemma {:induction false} LosslessIsHarmless(s: Setting, base: Bytes, first: Token, run: seq<World>)
    requires s.Valid() && IsRun(s, base, first, run) && Confined(s, run[|run| - 1].log, s.tokenOffset)
    requires forall i :: 0 <= i < |run| ==> Lossless(s, base, first, run[i])
    ensures HarmlessRun(s, run)
    decreases |run|
  {
    hide Step, Inv, HarmlessStep, Lossless, EndsBy, Starts;
    if |run| > 1 {
      var n := |run| - 1;
      var before := run[..n];
      PrefixIsConfined(s, base, first, run, n, s.tokenOffset);
      LosslessIsHarmless(s, base, first, before);
      RunIsSafe(s, base, first, before);
      assert Step(s, run[n - 1], run[n - 1 + 1]);
      LastIsHarmless(s, base, first, run[n - 1], run[n]);
      forall i | 0 <= i < n ensures HarmlessStep(s, run[i], run[i + 1]) {
        if i < n - 1 {
          assert HarmlessStep(s, before[i], before[i + 1]);
        }
      }
    }
  }

  lemma LastIsHarmless(s: Setting, base: Bytes, first: Token, w: World, w': World)
    requires s.Valid() && Inv(s, base, first, w) && Step(s, w, w') && Lossless(s, base, first, w')
    requires Confined(s, w'.log, s.tokenOffset)
    ensures HarmlessStep(s, w, w')
  {
    hide Step, Inv, Lossless, Harmless;
    if Publishes(w, w') {
      PublishIsExact(s, base, first, w, w');
    }
  }

  /** A run is recoverable at every moment exactly when each of its publishes was harmless. */
  lemma LosslessExactly(s: Setting, base: Bytes, first: Token, run: seq<World>)
    requires s.Valid() && IsRun(s, base, first, run) && Confined(s, run[|run| - 1].log, s.tokenOffset)
    ensures (forall i :: 0 <= i < |run| ==> Lossless(s, base, first, run[i])) <==> HarmlessRun(s, run)
  {
    hide Step, HarmlessStep, Lossless, EndsBy, Starts;
    if HarmlessRun(s, run) {
      forall i | 0 <= i < |run| ensures Lossless(s, base, first, run[i]) {
        PrefixIsDependable(s, base, first, run, i + 1);
        ExactlyOnce(s, base, first, run[..i + 1]);
      }
    }
    if forall i :: 0 <= i < |run| ==> Lossless(s, base, first, run[i]) {
      LosslessIsHarmless(s, base, first, run);
    }
  }

  // ---------------------------------------------------------------------
  // Runs whose publishes are harmless
  // ---------------------------------------------------------------------

  /** Publishes that find an ordering disk or nothing unsynced. */
  lemma SettledPublishesAreHarmless(s: Setting, base: Bytes, first: Token, run: seq<World>)
    requires s.Valid() && IsRun(s, base, first, run)
    requires forall i :: 0 <= i < |run| - 1 && Publishes(run[i], run[i + 1]) ==> s.ordered || run[i].disk.unsynced == []
    ensures HarmlessRun(s, run)
  {}

  /** Data writes are pending only while images are being written. */
  ghost predicate Quiet(w: World) {
    w.disk.unsynced != [] ==> w.phase.Redo? || w.phase.Committing?
  }

  lemma QuietStep(s: Setting, w: World, w': World)
    requires s.Valid() && Step(s, w, w') && Quiet(w) && (Abandons(s, w, w') ==> w'.disk.unsynced == [])
    ensures Quiet(w')
  {
    hide DecodeReceipt, DecodeToken, EncodeReceipt, ValidEncoding, Footer, Survives, ReadAt, ShortWrite;
  }

  lemma QuietIsHarmless(s: Setting, w: World, w': World)
    requires Quiet(w)
    ensures HarmlessStep(s, w, w')
  {}

  /** Unless an operation is abandoned with data writes pending, every publish is
      harmless, on disks that order publishes and on those that do not. */
  lemma {:induction false} SettledRunIsHarmless(s: Setting, base: Bytes, first: Token, run: seq<World>)
    requires s.Valid() && IsRun(s, base, first, run)
    requires forall i :: 0 <= i < |run| - 1 && Abandons(s, run[i], run[i + 1]) ==> run[i + 1].disk.unsynced == []
    ensures HarmlessRun(s, run) && Quiet(run[|run| - 1])
    decreases |run|
  {
    hide Step, HarmlessStep, Abandons;
    if |run| > 1 {
      var n := |run| - 1;
      var before := run[..n];
      assert IsRun(s, base, first, before);
      SettledRunIsHarmless(s, base, first, before);
      assert Step(s, run[n - 1], run[n - 1 + 1]);
      QuietStep(s, run[n - 1], run[n]);
      QuietIsHarmless(s, run[n - 1], run[n]);
      forall i | 0 <= i < n ensures HarmlessStep(s, run[i], run[i + 1]) {
        if i < n - 1 {
          assert HarmlessStep(s, before[i], before[i + 1]);
        }
      }
    }
  }
}
