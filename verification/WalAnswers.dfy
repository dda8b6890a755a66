/** What the WAL worker answers: a sync that makes bytes durable tells every caller it holds so,
    with the position reached, and nobody is told of a failure without one. */
module WalAnswers {
  import opened Bytes
  import opened WalProtocol
  import opened WalSafety

  // ---------------------------------------------------------------------
  // Successes
  // ---------------------------------------------------------------------

  /** Every caller held is answered with the position up to which the file is durable. */
  ghost predicate AllTold(w: World, w': World) {
    && w'.synced == |w.disk| && w'.disk == w.disk && w'.callers == []
    && |w'.replies| == |w.replies| + |w.callers| && w'.replies[..|w.replies|] == w.replies
    && forall i :: 0 <= i < |w.callers| ==> w'.replies[|w.replies| + i] == Synced(w.callers[i], w.base + |w.disk|)
  }

  /** fdatasync succeeds, in a sync cycle or on the way down. */
  lemma SuccessTellsAll(limit: nat, run: seq<World>, n: nat)
    requires IsRun(limit, run) && n < |run| - 1
    requires Syncs(run[n], run[n + 1], true) || SyncsLast(run[n], run[n + 1], true)
    ensures AllTold(run[n], run[n + 1])
    ensures run[n].worker.ShutdownSync? ==> run[n + 1].closed == Some(true)
  {
    hide Step, IsRun, Inv, AllTold, Syncs, SyncsLast;
    RunKeeps(limit, run, n);
    PositionIsDisk(run[n]);
    SyncTells(run[n], run[n + 1]);
  }

  /** The position a sync announces is the end of the file. */
  lemma PositionIsDisk(w: World)
    requires Inv(w)
    ensures w.worker.Syncing? || w.worker.ShutdownSync? ==> w.worker.position == w.base + |w.disk|
  {
    hide AllAccounted, AllHonest, CloseIsLast, ShutdownIsFinal, RequestsCovered, NoCallersAtRest, StreamIntact;
  }

  lemma SyncTells(w: World, w': World)
    requires Syncs(w, w', true) || SyncsLast(w, w', true)
    requires w.worker.Syncing? || w.worker.ShutdownSync? ==> w.worker.position == w.base + |w.disk|
    ensures AllTold(w, w') && (w.worker.ShutdownSync? ==> w'.closed == Some(true))
  {
    hide Succeed, AllTold;
    assert w'.replies == w.replies + Succeed(w.callers, w.base + |w.disk|);
    ToldIs(w, w');
  }

  lemma ToldIs(w: World, w': World)
    requires w'.synced == |w.disk| && w'.disk == w.disk && w'.callers == []
    requires w'.replies == w.replies + Succeed(w.callers, w.base + |w.disk|)
    ensures AllTold(w, w')
  {}

  /** Seen from outside: whenever more bytes become durable, all callers are told. */
  lemma DurableMeansTold(limit: nat, run: seq<World>, n: nat)
    requires IsRun(limit, run) && n < |run| - 1 && run[n].synced < run[n + 1].synced
    ensures AllTold(run[n], run[n + 1])
  {
    hide IsRun, AllTold;
    OnlySyncsSync(limit, run, n);
    SuccessTellsAll(limit, run, n);
  }

  lemma OnlySyncsSync(limit: nat, run: seq<World>, n: nat)
    requires IsRun(limit, run) && n < |run| - 1 && run[n].synced < run[n + 1].synced
    ensures Syncs(run[n], run[n + 1], true) || SyncsLast(run[n], run[n + 1], true)
  {
    hide Queued, Fail, Succeed;
    assert Step(limit, run[n], run[n + 1]);
  }

  // ---------------------------------------------------------------------
  // Failures
  // ---------------------------------------------------------------------

  /** A write failed, a sync failed, a delay was refused, or the worker panicked. */
  ghost predicate Faulty(w: World, w': World) {
    || WriteFails(w, w') || Syncs(w, w', false) || SyncsLast(w, w', false) || RefusesDelay(w, w') || Panics(w, w')
  }

  /** A fault has happened and its callers have not been told yet. */
  predicate Troubled(w: World) { w.worker.Restoring? || w.worker.Panicked? }

  ghost predicate ProducerStep(limit: nat, w: World, w': World) {
    || Appends(limit, w, w') || RequestsSync(w, w', true) || RequestsSync(w, w', false)
    || StartsClose(w, w') || SendsClose(w, w') || DropsHandle(w, w')
  }

  /** Producers neither answer nor move the worker. */
  lemma ProducersAreSilent(limit: nat, w: World, w': World)
    requires ProducerStep(limit, w, w')
    ensures w'.worker == w.worker && w'.replies == w.replies && w'.closed == w.closed
  {}

  /** Between its answers the worker changes none, and gets into trouble only by a fault. */
  ghost predicate WorkStep(w: World, w': World) {
    || Receives(w, w') || SeesDisconnect(w, w') || TimesOut(w, w') || Takes(w, w')
    || (exists n :: Writes(w, w', n)) || FinishesWriting(w, w') || WriteFails(w, w') || Panics(w, w')
  }

  lemma WorkIsSilent(w: World, w': World)
    requires WorkStep(w, w')
    ensures w'.replies == w.replies && w'.closed == w.closed && !w'.worker.Stopped?
    ensures Troubled(w') ==> WriteFails(w, w') || Panics(w, w')
  {
    hide Queued;
  }

  ghost predicate AnswerStep(w: World, w': World) {
    || Restores(w, w') || RefusesDelay(w, w') || Syncs(w, w', true) || Syncs(w, w', false)
    || SyncsLast(w, w', true) || SyncsLast(w, w', false) || CleansUp(w, w')
  }

  lemma AnswerSteps(w: World, w': World)
    requires AnswerStep(w, w')
    ensures |w.replies| <= |w'.replies| && w'.replies[..|w.replies|] == w.replies && !Troubled(w')
    ensures forall i :: |w.replies| <= i < |w'.replies| && w'.replies[i].Failed? ==> Troubled(w) || Faulty(w, w')
    ensures w'.closed != w.closed && w'.closed != Some(true) ==> Troubled(w) || Faulty(w, w')
    ensures w'.worker.Stopped? ==> Troubled(w) || Faulty(w, w') || w'.closed == Some(true)
  {
    hide Queued, WriteFails, Panics;
  }

  lemma WhichStep(limit: nat, w: World, w': World)
    requires Step(limit, w, w')
    ensures ProducerStep(limit, w, w') || WorkStep(w, w') || AnswerStep(w, w')
  {
    hide Appends, RequestsSync, StartsClose, SendsClose, DropsHandle, Receives, SeesDisconnect, TimesOut, Takes, Writes,
      FinishesWriting, WriteFails, Restores, RefusesDelay, Syncs, SyncsLast, Panics, CleansUp;
  }

  lemma TroubleStarts(limit: nat, w: World, w': World)
    requires Step(limit, w, w') && Troubled(w')
    ensures w'.replies == w.replies && (Troubled(w) || Faulty(w, w'))
  {
    hide Step, ProducerStep, WorkStep, AnswerStep, WriteFails, Panics, Syncs, SyncsLast, RefusesDelay;
    WhichStep(limit, w, w');
    if ProducerStep(limit, w, w') {
      ProducersAreSilent(limit, w, w');
    } else if WorkStep(w, w') {
      WorkIsSilent(w, w');
    } else {
      AnswerSteps(w, w');
    }
  }

  /** A step that adds an answer: the faults behind the failures among them. */
  lemma AnswersStep(limit: nat, w: World, w': World)
    requires Step(limit, w, w')
    ensures |w.replies| <= |w'.replies| && w'.replies[..|w.replies|] == w.replies
    ensures forall i :: |w.replies| <= i < |w'.replies| && w'.replies[i].Failed? ==> Troubled(w) || Faulty(w, w')
    ensures w'.closed == Some(false) && w.closed != Some(false) ==> Troubled(w) || Faulty(w, w')
  {
    hide Step, ProducerStep, WorkStep, AnswerStep, Faulty, Troubled;
    WhichStep(limit, w, w');
    if ProducerStep(limit, w, w') {
      ProducersAreSilent(limit, w, w');
    } else if WorkStep(w, w') {
      WorkIsSilent(w, w');
    } else {
      AnswerSteps(w, w');
    }
  }

  lemma {:induction false} TroubleHasCause(limit: nat, run: seq<World>, n: nat) returns (k: nat)
    requires IsRun(limit, run) && n < |run| && Troubled(run[n])
    ensures k < n && Faulty(run[k], run[k + 1]) && run[k].replies == run[n].replies
    decreases n
  {
    hide Step, Faulty;
    assert n > 0;
    assert Step(limit, run[n - 1], run[n - 1 + 1]);
    TroubleStarts(limit, run[n - 1], run[n]);
    if Troubled(run[n - 1]) {
      k := TroubleHasCause(limit, run, n - 1);
    } else {
      k := n - 1;
    }
  }

  /** Nobody is told of a failure unless a fault happened since the answers before. */
  lemma {:induction false} FailureHasCause(limit: nat, run: seq<World>, n: nat, i: nat) returns (k: nat)
    requires IsRun(limit, run) && n < |run| && i < |run[n].replies| && run[n].replies[i].Failed?
    ensures k < n && Faulty(run[k], run[k + 1]) && |run[k].replies| <= i
    decreases n
  {
    hide Step, Faulty, Troubled;
    assert n > 0;
    var w, w' := run[n - 1], run[n];
    assert Step(limit, run[n - 1], run[n - 1 + 1]);
    AnswersStep(limit, w, w');
    if i < |w.replies| {
      assert w'.replies[i] == w'.replies[..|w.replies|][i];
      k := FailureHasCause(limit, run, n - 1, i);
    } else if Troubled(w) {
      k := TroubleHasCause(limit, run, n - 1);
    } else {
      k := n - 1;
    }
  }

  /** Nor is a close told so. */
  lemma {:induction false} FailedCloseHasCause(limit: nat, run: seq<World>, n: nat) returns (k: nat)
    requires IsRun(limit, run) && n < |run| && run[n].closed == Some(false)
    ensures k < n && Faulty(run[k], run[k + 1])
    decreases n
  {
    hide Step, Faulty, Troubled;
    assert n > 0;
    assert Step(limit, run[n - 1], run[n - 1 + 1]);
    AnswersStep(limit, run[n - 1], run[n]);
    if run[n - 1].closed == Some(false) {
      k := FailedCloseHasCause(limit, run, n - 1);
    } else if Troubled(run[n - 1]) {
      k := TroubleHasCause(limit, run, n - 1);
    } else {
      k := n - 1;
    }
  }

  // ---------------------------------------------------------------------
  // Runs without faults
  // ---------------------------------------------------------------------

  ghost predicate FaultFree(run: seq<World>) {
    forall k :: 0 <= k < |run| - 1 ==> !Faulty(run[k], run[k + 1])
  }

  lemma {:induction false} StopsWithClose(limit: nat, run: seq<World>, n: nat)
    requires IsRun(limit, run) && n < |run| && FaultFree(run)
    ensures !Troubled(run[n]) && (run[n].worker.Stopped? ==> run[n].closed == Some(true))
    decreases n
  {
    hide Step, Faulty, Troubled;
    if n == 0 {
      NoTroubleAtStart(run[0]);
    } else {
      StopsWithClose(limit, run, n - 1);
      assert Step(limit, run[n - 1], run[n - 1 + 1]);
      assert !Faulty(run[n - 1], run[n - 1 + 1]);
      StopStep(limit, run[n - 1], run[n]);
    }
  }

  lemma NoTroubleAtStart(w: World)
    requires Starts(w)
    ensures !Troubled(w) && !w.worker.Stopped?
  {}

  lemma StopStep(limit: nat, w: World, w': World)
    requires Step(limit, w, w') && !Faulty(w, w') && !Troubled(w) && (w.worker.Stopped? ==> w.closed == Some(true))
    ensures !Troubled(w') && (w'.worker.Stopped? ==> w'.closed == Some(true))
  {
    hide Step, ProducerStep, WorkStep, AnswerStep, WriteFails, Panics, Syncs, SyncsLast, RefusesDelay;
    WhichStep(limit, w, w');
    if ProducerStep(limit, w, w') {
      ProducersAreSilent(limit, w, w');
    } else if WorkStep(w, w') {
      WorkIsSilent(w, w');
    } else {
      AnswerSteps(w, w');
    }
  }

  lemma OneSuccess(limit: nat, run: seq<World>, n: nat, i: nat)
    requires IsRun(limit, run) && n < |run| && i < |run[n].replies| && FaultFree(run)
    ensures run[n].replies[i].Synced?
  {
    hide Step, Faulty;
    if !run[n].replies[i].Synced? {
      var k := FailureHasCause(limit, run, n, i);
    }
  }

  /** Without a fault every answer is a success that covers its request, and a worker that stopped
      has answered every request and reported a successful close. */
  lemma NoFaultNoFailure(limit: nat, run: seq<World>, n: nat)
    requires IsRun(limit, run) && n < |run| && FaultFree(run)
    ensures var w := run[n];
      && (forall i :: 0 <= i < |w.replies| ==>
            w.replies[i].Synced? && w.base + w.replies[i].caller.covers <= w.replies[i].position <= w.base + w.synced)
      && (w.worker.Stopped? ==> |w.replies| == w.issued && w.closed == Some(true))
  {
    hide Step, Faulty, Troubled;
    StreamIntegrity(limit, run, n);
    AnsweredExactlyOnce(limit, run, n);
    StopsWithClose(limit, run, n);
    forall i | 0 <= i < |run[n].replies| ensures run[n].replies[i].Synced? {
      OneSuccess(limit, run, n, i);
    }
  }
}
