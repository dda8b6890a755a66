/** What holds in every reachable state of the WAL worker and its producers. */
module WalSafety {
  import opened Bytes
  import opened WalProtocol

  /** No byte is lost, repeated or moved. */
  ghost predicate StreamIntact(w: World) {
    w.disk + w.worker.InFlight() + w.buffer == w.accepted
  }

  /** The size counter follows the file: behind by the write in progress, and by no more than
      that write for good if a panic cut it off. */
  ghost predicate Counted(w: World) {
    && w.synced <= |w.disk|
    && w.fileSize <= w.base + |w.disk|
    && (w.worker.Writing? ==>
        w.worker.written <= |w.worker.taken| && w.fileSize + w.worker.written == w.base + |w.disk|)
    && (w.worker.Writing? || w.worker.Panicked? || w.worker.Stopped? || w.fileSize == w.base + |w.disk|)
  }

  ghost predicate CoveredBy(callers: seq<Caller>, n: nat) {
    forall i :: 0 <= i < |callers| ==> callers[i].covers <= n
  }

  /** The callers the worker holds asked for no more than it is about to make durable. */
  ghost predicate CallersCovered(w: World) {
    match w.worker
    case Writing(_, _, _) => CoveredBy(w.callers, |w.disk| + |w.worker.InFlight()|)
    case Syncing(position) => position == w.fileSize && CoveredBy(w.callers, |w.disk|)
    case ShutdownSync(position) => position == w.fileSize && CoveredBy(w.callers, |w.disk|)
    case _ => true
  }

  ghost predicate NoCallersAtRest(w: World) {
    w.worker.Idle? || w.worker.Stopped? ==> w.callers == []
  }

  /** No request can have covered bytes that did not exist. */
  ghost predicate RequestsCovered(w: World) {
    CoveredBy(w.callers, |w.accepted|) && CoveredBy(Queued(w.queue), |w.accepted|)
  }

  /** A success covers its request and is durable. */
  ghost predicate Honest(r: Reply, base: nat, synced: nat) {
    r.Synced? ==> base + r.caller.covers <= r.position <= base + synced
  }

  ghost predicate AllHonest(w: World) {
    forall i :: 0 <= i < |w.replies| ==> Honest(w.replies[i], w.base, w.synced)
  }

  function Ids(callers: seq<Caller>): (ids: seq<nat>)
    ensures |ids| == |callers|
  {
    seq(|callers|, i requires 0 <= i < |callers| => callers[i].id)
  }

  function ReplyIds(replies: seq<Reply>): (ids: seq<nat>)
    ensures |ids| == |replies|
  {
    seq(|replies|, i requires 0 <= i < |replies| => replies[i].Id())
  }

  function UpTo(n: nat): (ids: seq<nat>)
    ensures |ids| == n && forall i :: 0 <= i < n ==> ids[i] == i
  {
    seq(n, i requires 0 <= i => i)
  }

  /** Every request is in exactly one place: answered, held by the worker or queued. */
  ghost predicate AllAccounted(w: World) {
    ReplyIds(w.replies) + Ids(w.callers) + Ids(Queued(w.queue)) == UpTo(w.issued)
  }

  /** Behind a close no request waits. */
  ghost predicate CloseIsLast(w: World) {
    && (Close in w.queue ==> !w.alive)
    && (forall i, j :: 0 <= i < j < |w.queue| && w.queue[i].Close? ==> w.queue[j].Close?)
    && (w.disconnected ==> !w.alive)
  }

  predicate ShuttingDown(k: Worker) {
    match k
    case Draining(p) => p.Shutdown?
    case Writing(_, _, p) => p.Shutdown?
    case Restoring(_, p) => p.Shutdown?
    case ShutdownSync(_) => true
    case Stopped(_) => true
    case _ => false
  }

  /** Shutting down, no further request or byte can come; what is left is in flight. */
  ghost predicate ShutdownIsFinal(w: World) {
    && (ShuttingDown(w.worker) ==> !w.alive && Queued(w.queue) == [])
    && (ShuttingDown(w.worker) && (w.worker.Writing? || w.worker.ShutdownSync?) ==> w.buffer == [])
    && (w.closed.Some? ==> w.worker.Stopped?)
    && (w.closed == Some(true) ==> w.worker == Stopped([]) && w.buffer == [] && w.synced == |w.disk|)
  }

  ghost predicate Inv(w: World) {
    && StreamIntact(w) && Counted(w) && CallersCovered(w) && NoCallersAtRest(w) && RequestsCovered(w)
    && AllHonest(w) && AllAccounted(w) && CloseIsLast(w) && ShutdownIsFinal(w)
  }

  // ---------------------------------------------------------------------
  // Small facts
  // ---------------------------------------------------------------------

  lemma {:induction false} QueuedAppend(queue: seq<Message>, m: Message)
    ensures Queued(queue + [m]) == Queued(queue) + if m.Flush? then [m.caller] else []
    decreases |queue|
  {
    if queue == [] {
      assert queue + [m] == [m];
      assert [m][1..] == [];
    } else {
      assert (queue + [m])[0] == queue[0] && (queue + [m])[1..] == queue[1..] + [m];
      QueuedAppend(queue[1..], m);
    }
  }

  lemma {:induction false} OnlyCloses(queue: seq<Message>)
    requires forall i :: 0 <= i < |queue| ==> queue[i].Close?
    ensures Queued(queue) == []
    decreases |queue|
  {
    if queue != [] {
      OnlyCloses(queue[1..]);
    }
  }

  lemma CoveredAppend(a: seq<Caller>, b: seq<Caller>, n: nat)
    ensures CoveredBy(a + b, n) <==> CoveredBy(a, n) && CoveredBy(b, n)
  {
    if CoveredBy(a + b, n) {
      forall i | 0 <= i < |a| ensures a[i].covers <= n { assert (a + b)[i] == a[i]; }
      forall i | 0 <= i < |b| ensures b[i].covers <= n { assert (a + b)[|a| + i] == b[i]; }
    }
  }

  // ---------------------------------------------------------------------
  // Producers
  // ---------------------------------------------------------------------

  lemma AppendsKeeps(limit: nat, w: World, w': World)
    requires Inv(w) && Appends(limit, w, w')
    ensures Inv(w')
  {}

  lemma RequestsKeeps(w: World, w': World, delayed: bool)
    requires Inv(w) && RequestsSync(w, w', delayed)
    ensures Inv(w')
  {
    hide Queued;
    var c := Caller(w.issued, delayed, |w.accepted|);
    QueuedAppend(w.queue, Flush(c));
    CoveredAppend(Queued(w.queue), [c], |w.accepted|);
    assert Ids(Queued(w.queue) + [c]) == Ids(Queued(w.queue)) + [w.issued];
    assert UpTo(w.issued + 1) == UpTo(w.issued) + [w.issued];
    assert ReplyIds(w.replies) + Ids(w.callers) + (Ids(Queued(w.queue)) + [w.issued])
        == ReplyIds(w.replies) + Ids(w.callers) + Ids(Queued(w.queue)) + [w.issued];
  }

  lemma CloseKeeps(w: World, w': World)
    requires Inv(w) && (StartsClose(w, w') || SendsClose(w, w') || DropsHandle(w, w'))
    ensures Inv(w')
  {
    hide Queued;
    QueuedAppend(w.queue, Close);
    assert Queued(w'.queue) == Queued(w.queue);
    CloseQueued(w, w');
  }

  lemma CloseQueued(w: World, w': World)
    requires CloseIsLast(w) && (StartsClose(w, w') || SendsClose(w, w') || DropsHandle(w, w'))
    ensures CloseIsLast(w')
  {}

  // ---------------------------------------------------------------------
  // Receiving
  // ---------------------------------------------------------------------

  lemma ReceivesFlushKeeps(w: World, w': World)
    requires Inv(w) && Receives(w, w') && w.queue[0].Flush?
    ensures Inv(w')
  {
    var c := w.queue[0].caller;
    assert Queued(w.queue) == [c] + Queued(w'.queue);
    hide Queued;
    assert Ids([c] + Queued(w'.queue)) == [c.id] + Ids(Queued(w'.queue));
    assert Ids(w.callers + [c]) == Ids(w.callers) + [c.id];
    assert ReplyIds(w.replies) + (Ids(w.callers) + [c.id]) + Ids(Queued(w'.queue))
        == ReplyIds(w.replies) + Ids(w.callers) + ([c.id] + Ids(Queued(w'.queue)));
    CoveredAppend([c], Queued(w'.queue), |w.accepted|);
    CoveredAppend(w.callers, [c], |w.accepted|);
    TailCloseIsLast(w, w');
  }

  lemma TailCloseIsLast(w: World, w': World)
    requires CloseIsLast(w) && w.queue != []
    requires w'.queue == w.queue[1..] && w'.alive == w.alive && w'.disconnected == w.disconnected
    ensures CloseIsLast(w')
  {}

  lemma ReceivesCloseKeeps(w: World, w': World)
    requires Inv(w) && Receives(w, w') && w.queue[0].Close?
    ensures Inv(w')
  {
    assert Queued(w.queue) == Queued(w'.queue);
    assert w.queue[0] in w.queue;
    forall i | 0 <= i < |w'.queue| ensures w'.queue[i].Close? {
      assert w.queue[0].Close? && w'.queue[i] == w.queue[i + 1];
    }
    OnlyCloses(w'.queue);
    hide Queued;
    TailCloseIsLast(w, w');
  }

  lemma WaitsKeeps(w: World, w': World)
    requires Inv(w) && (SeesDisconnect(w, w') || TimesOut(w, w'))
    ensures Inv(w')
  {}

  // ---------------------------------------------------------------------
  // Draining
  // ---------------------------------------------------------------------

  lemma DrainedKeeps(w: World, w': World)
    requires Inv(w) && Takes(w, w')
    ensures Inv(w')
  {}

  lemma WritesKeeps(w: World, w': World, n: nat)
    requires Inv(w) && Writes(w, w', n)
    ensures Inv(w')
  {}

  lemma FinishesKeeps(w: World, w': World)
    requires Inv(w) && FinishesWriting(w, w')
    ensures Inv(w')
  {}

  lemma FailsKeeps(w: World, w': World)
    requires Inv(w) && WriteFails(w, w')
    ensures Inv(w')
  {}

  lemma AnswersFailures(w: World, w': World)
    requires AllAccounted(w) && AllHonest(w)
    requires w'.replies == w.replies + Fail(w.callers) && w'.callers == []
    requires w'.queue == w.queue && w'.issued == w.issued && w'.base == w.base && w'.synced == w.synced
    ensures AllAccounted(w') && AllHonest(w')
  {}

  lemma AnswersSuccess(w: World, w': World, position: nat)
    requires AllAccounted(w) && AllHonest(w) && w.synced <= w'.synced
    requires position == w.base + w'.synced && CoveredBy(w.callers, w'.synced)
    requires w'.replies == w.replies + Succeed(w.callers, position) && w'.callers == []
    requires w'.queue == w.queue && w'.issued == w.issued && w'.base == w.base
    ensures AllAccounted(w') && AllHonest(w')
  {}

  lemma RestoresKeeps(w: World, w': World)
    requires Inv(w) && (Restores(w, w') || RefusesDelay(w, w'))
    ensures Inv(w')
  {
    hide Queued, AllAccounted, AllHonest;
    AnswersFailures(w, w');
    if Restores(w, w') {
      assert w.disk + [] + (w.worker.rest + w.buffer) == w.disk + w.worker.rest + w.buffer;
    }
  }

  lemma SyncsKeeps(w: World, w': World, ok: bool)
    requires Inv(w) && (Syncs(w, w', ok) || SyncsLast(w, w', ok))
    ensures Inv(w')
  {
    hide Queued, AllAccounted, AllHonest;
    if ok {
      AnswersSuccess(w, w', w.worker.position);
    } else {
      AnswersFailures(w, w');
    }
  }

  // ---------------------------------------------------------------------
  // Panics
  // ---------------------------------------------------------------------

  lemma PanicsKeeps(w: World, w': World)
    requires Inv(w) && Panics(w, w')
    ensures Inv(w')
  {}

  lemma CleansUpKeeps(w: World, w': World)
    requires Inv(w) && CleansUp(w, w')
    ensures Inv(w')
  {}

  // ---------------------------------------------------------------------
  // Runs
  // ---------------------------------------------------------------------

  lemma StepKeeps(limit: nat, w: World, w': World)
    requires Inv(w) && Step(limit, w, w')
    ensures Inv(w')
  {
    hide Inv, Appends, RequestsSync, StartsClose, SendsClose, DropsHandle, SeesDisconnect, TimesOut, Takes,
      Writes, FinishesWriting, WriteFails, Restores, RefusesDelay, Syncs, SyncsLast, Panics, CleansUp;
    if Appends(limit, w, w') {
      AppendsKeeps(limit, w, w');
    } else if RequestsSync(w, w', true) {
      RequestsKeeps(w, w', true);
    } else if RequestsSync(w, w', false) {
      RequestsKeeps(w, w', false);
    } else if StartsClose(w, w') || SendsClose(w, w') || DropsHandle(w, w') {
      CloseKeeps(w, w');
    } else if Receives(w, w') {
      if w.queue[0].Flush? {
        ReceivesFlushKeeps(w, w');
      } else {
        ReceivesCloseKeeps(w, w');
      }
    } else if SeesDisconnect(w, w') || TimesOut(w, w') {
      WaitsKeeps(w, w');
    } else if Takes(w, w') {
      DrainedKeeps(w, w');
    } else if exists n :: Writes(w, w', n) {
      var n :| Writes(w, w', n);
      WritesKeeps(w, w', n);
    } else if FinishesWriting(w, w') {
      FinishesKeeps(w, w');
    } else if WriteFails(w, w') {
      FailsKeeps(w, w');
    } else if Restores(w, w') || RefusesDelay(w, w') {
      RestoresKeeps(w, w');
    } else if Syncs(w, w', true) || SyncsLast(w, w', true) {
      SyncsKeeps(w, w', true);
    } else if Syncs(w, w', false) || SyncsLast(w, w', false) {
      SyncsKeeps(w, w', false);
    } else if Panics(w, w') {
      PanicsKeeps(w, w');
    } else {
      CleansUpKeeps(w, w');
    }
  }

  lemma {:induction false} RunKeeps(limit: nat, run: seq<World>, n: nat)
    requires IsRun(limit, run) && n < |run|
    ensures Inv(run[n])
    decreases n
  {
    hide Step;
    if n == 0 {
      StartHolds(run[0]);
    } else {
      RunKeeps(limit, run, n - 1);
      assert Step(limit, run[n - 1], run[n - 1 + 1]);
      StepKeeps(limit, run[n - 1], run[n]);
    }
  }

  lemma StartHolds(w: World)
    requires Starts(w)
    ensures Inv(w)
  {}

  // ---------------------------------------------------------------------
  // The guarantees
  // ---------------------------------------------------------------------

  /** In every reachable state: file, bytes in flight and buffer together are the accepted
      bytes in order; and every success names a durable position that covers all bytes
      accepted before its request was queued. */
  lemma StreamIntegrity(limit: nat, run: seq<World>, n: nat)
    requires IsRun(limit, run) && n < |run|
    ensures var w := run[n];
      && w.disk + w.worker.InFlight() + w.buffer == w.accepted
      && w.synced <= |w.disk|
      && forall i :: 0 <= i < |w.replies| && w.replies[i].Synced? ==>
           w.base + w.replies[i].caller.covers <= w.replies[i].position <= w.base + w.synced
  {
    RunKeeps(limit, run, n);
    assert forall i :: 0 <= i < |run[n].replies| ==> Honest(run[n].replies[i], run[n].base, run[n].synced);
  }

  /** Requests are answered in the order they were made, each at most once; a worker at rest
      holds none, and a stopped worker has answered every request ever made. */
  lemma AnsweredExactlyOnce(limit: nat, run: seq<World>, n: nat)
    requires IsRun(limit, run) && n < |run|
    ensures var w := run[n];
      && |w.replies| <= w.issued
      && (forall i :: 0 <= i < |w.replies| ==> w.replies[i].Id() == i)
      && (w.worker.Idle? ==> w.callers == [])
      && (w.worker.Stopped? ==> |w.replies| == w.issued)
  {
    RunKeeps(limit, run, n);
    var w := run[n];
    var all := ReplyIds(w.replies) + Ids(w.callers) + Ids(Queued(w.queue));
    assert all == UpTo(w.issued);
    forall i | 0 <= i < |w.replies| ensures w.replies[i].Id() == i {
      assert all[i] == ReplyIds(w.replies)[i];
    }
  }

  /** A close that reported success left every accepted byte in the file, durable. */
  lemma CloseIsComplete(limit: nat, run: seq<World>, n: nat)
    requires IsRun(limit, run) && n < |run| && run[n].closed == Some(true)
    ensures run[n].disk == run[n].accepted && run[n].synced == |run[n].accepted|
  {
    RunKeeps(limit, run, n);
    assert run[n].disk + [] + [] == run[n].disk;
  }
}
