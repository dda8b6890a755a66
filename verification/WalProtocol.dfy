/** The WAL worker among its producers, as a state machine: producers append bytes, ask for
    a sync or close; one worker takes the buffer, writes it piece by piece, syncs and
    answers. Every step is atomic because it holds the buffer lock, moves one message, or
    touches only what the worker owns. */
module WalProtocol {
  import opened Bytes

  const CHANNEL_CAPACITY: nat := 1024

  /** A sync request. `covers` is how many bytes had been accepted when it was queued. */
  datatype Caller = Caller(id: nat, delayed: bool, covers: nat)

  datatype Message = Flush(caller: Caller) | Close

  datatype Reply = Synced(caller: Caller, position: nat) | Failed(caller: Caller) {
    function Id(): nat { caller.id }
  }

  /** What the drain in progress is for. */
  datatype Purpose = First(delayed: bool) | Collect | Final | Shutdown

  datatype Worker =
    | Idle
    | Draining(purpose: Purpose)
    | Writing(taken: Bytes, written: nat, purpose: Purpose)
    | Restoring(rest: Bytes, purpose: Purpose)
    | Collecting
    | Syncing(position: nat)
    | ShutdownSync(position: nat)
    | Panicked(lost: Bytes)
    | Stopped(lost: Bytes)
  {
    /** Bytes taken out of the buffer that are not in the file. */
    function InFlight(): Bytes {
      match this
      case Writing(taken, written, _) => if written <= |taken| then taken[written..] else []
      case Restoring(rest, _) => rest
      case Panicked(lost) => lost
      case Stopped(lost) => lost
      case _ => []
    }
  }

  /** `disk` is what the file holds past `base`; the first `synced` bytes of it are durable.
      `accepted` records every byte a producer was told is in, in order. */
  datatype World = World(
    base: nat, disk: Bytes, synced: nat, fileSize: nat,
    buffer: Bytes, accepted: Bytes, alive: bool,
    queue: seq<Message>, disconnected: bool,
    callers: seq<Caller>, replies: seq<Reply>, issued: nat, closed: Option<bool>,
    worker: Worker)

  // ---------------------------------------------------------------------
  // Producers
  // ---------------------------------------------------------------------

  /** `buffer_write`; a refused write changes nothing. */
  ghost predicate Appends(limit: nat, w: World, w': World) {
    exists data: Bytes :: AppendsData(limit, w, w', data)
  }

  ghost predicate AppendsData(limit: nat, w: World, w': World, data: Bytes) {
    && w.alive && !w.disconnected && |w.buffer| + |data| <= limit
    && w' == w.(buffer := w.buffer + data, accepted := w.accepted + data)
  }

  /** `request_sync`, under the close gate and the admission lock. */
  ghost predicate RequestsSync(w: World, w': World, delayed: bool) {
    && w.alive && !w.disconnected && |w.queue| < CHANNEL_CAPACITY
    && w' == w.(
      queue := w.queue + [Flush(Caller(w.issued, delayed, |w.accepted|))],
      issued := w.issued + 1)
  }

  /** `close` first refuses further work, then queues its message. */
  ghost predicate StartsClose(w: World, w': World) {
    w' == w.(alive := false)
  }

  ghost predicate SendsClose(w: World, w': World) {
    && !w.alive && !w.disconnected && |w.queue| < CHANNEL_CAPACITY
    && w' == w.(queue := w.queue + [Close])
  }

  /** Dropping the handle: the message is only tried, and no sender is left. */
  ghost predicate DropsHandle(w: World, w': World) {
    && !w.disconnected
    && w' == w.(
      alive := false, disconnected := true,
      queue := if |w.queue| < CHANNEL_CAPACITY then w.queue + [Close] else w.queue)
  }

  // ---------------------------------------------------------------------
  // The worker
  // ---------------------------------------------------------------------

  function Fail(callers: seq<Caller>): (r: seq<Reply>)
    ensures |r| == |callers|
  {
    seq(|callers|, i requires 0 <= i < |callers| => Failed(callers[i]))
  }

  function Succeed(callers: seq<Caller>, position: nat): (r: seq<Reply>)
    ensures |r| == |callers|
  {
    seq(|callers|, i requires 0 <= i < |callers| => Synced(callers[i], position))
  }

  /** Receiving while idle or while collecting more requests. */
  ghost predicate Receives(w: World, w': World) {
    && (w.worker.Idle? || w.worker.Collecting?) && w.queue != []
    && match w.queue[0]
       case Flush(c) => w' == w.(
         queue := w.queue[1..], callers := w.callers + [c],
         worker := Draining(if w.worker.Idle? then First(c.delayed) else Collect))
       case Close => w' == w.(queue := w.queue[1..], worker := Draining(Shutdown))
  }

  /** An empty channel without senders. */
  ghost predicate SeesDisconnect(w: World, w': World) {
    && (w.worker.Idle? || w.worker.Collecting?) && w.queue == [] && w.disconnected
    && w' == w.(worker := Draining(Shutdown))
  }

  ghost predicate TimesOut(w: World, w': World) {
    w.worker.Collecting? && w' == w.(worker := Draining(Final))
  }

  /** What follows a drain that put everything into the file. */
  function AfterDrain(w: World, p: Purpose): Worker {
    match p
    case First(delayed) => if delayed then Collecting else Draining(Final)
    case Collect => Collecting
    case Final => Syncing(w.fileSize)
    case Shutdown => ShutdownSync(w.fileSize)
  }

  ghost predicate Takes(w: World, w': World) {
    && w.worker.Draining?
    && if w.buffer == [] then w' == w.(worker := AfterDrain(w, w.worker.purpose))
       else w' == w.(buffer := [], worker := Writing(w.buffer, 0, w.worker.purpose))
  }

  /** One `write` call that made progress. */
  ghost predicate Writes(w: World, w': World, n: nat) {
    && w.worker.Writing? && w.worker.written + n <= |w.worker.taken|
    && w' == w.(
      disk := w.disk + w.worker.taken[w.worker.written..w.worker.written + n],
      worker := Writing(w.worker.taken, w.worker.written + n, w.worker.purpose))
  }

  ghost predicate FinishesWriting(w: World, w': World) {
    && w.worker.Writing? && w.worker.written == |w.worker.taken|
    && var counted := w.(fileSize := w.fileSize + w.worker.written);
       w' == counted.(worker := AfterDrain(counted, w.worker.purpose))
  }

  /** A write failed: count the progress, keep the rest. */
  ghost predicate WriteFails(w: World, w': World) {
    && w.worker.Writing? && w.worker.written < |w.worker.taken|
    && w' == w.(
      fileSize := w.fileSize + w.worker.written,
      worker := Restoring(w.worker.taken[w.worker.written..], w.worker.purpose))
  }

  /** Put the rest back in front of newer bytes and tell every caller. */
  ghost predicate Restores(w: World, w': World) {
    && w.worker.Restoring?
    && w' == w.(
      buffer := w.worker.rest + w.buffer,
      replies := w.replies + Fail(w.callers), callers := [],
      closed := if w.worker.purpose.Shutdown? then Some(false) else w.closed,
      worker := if w.worker.purpose.Shutdown? then Stopped([]) else Idle)
  }

  /** The commit delay does not fit the clock. */
  ghost predicate RefusesDelay(w: World, w': World) {
    && w.worker.Collecting?
    && w' == w.(replies := w.replies + Fail(w.callers), callers := [], worker := Idle)
  }

  /** fdatasync: on success everything written so far is durable. */
  ghost predicate Syncs(w: World, w': World, ok: bool) {
    && w.worker.Syncing?
    && w' == w.(
      synced := if ok then |w.disk| else w.synced,
      replies := w.replies + if ok then Succeed(w.callers, w.worker.position) else Fail(w.callers),
      callers := [],
      worker := Idle)
  }

  ghost predicate SyncsLast(w: World, w': World, ok: bool) {
    && w.worker.ShutdownSync?
    && w' == w.(
      synced := if ok then |w.disk| else w.synced,
      replies := w.replies + if ok then Succeed(w.callers, w.worker.position) else Fail(w.callers),
      callers := [],
      closed := Some(ok),
      worker := Stopped([]))
  }

  /** A panic anywhere drops the bytes in flight. */
  ghost predicate Panics(w: World, w': World) {
    && !w.worker.Panicked? && !w.worker.Stopped?
    && w' == w.(worker := Panicked(w.worker.InFlight()))
  }

  function Queued(queue: seq<Message>): seq<Caller> {
    if queue == [] then []
    else if queue[0].Flush? then [queue[0].caller] + Queued(queue[1..]) else Queued(queue[1..])
  }

  /** `notify_thread_panic`, under the admission lock. */
  ghost predicate CleansUp(w: World, w': World) {
    && w.worker.Panicked?
    && w' == w.(
      alive := false,
      replies := w.replies + Fail(w.callers) + Fail(Queued(w.queue)), callers := [], queue := [],
      closed := if Close in w.queue then Some(false) else w.closed,
      worker := Stopped(w.worker.lost))
  }

  // ---------------------------------------------------------------------
  // Runs
  // ---------------------------------------------------------------------

  ghost predicate Step(limit: nat, w: World, w': World) {
    || Appends(limit, w, w') || RequestsSync(w, w', true) || RequestsSync(w, w', false)
    || StartsClose(w, w') || SendsClose(w, w') || DropsHandle(w, w')
    || Receives(w, w') || SeesDisconnect(w, w') || TimesOut(w, w') || Takes(w, w')
    || (exists n :: Writes(w, w', n)) || FinishesWriting(w, w') || WriteFails(w, w') || Restores(w, w')
    || RefusesDelay(w, w')
    || Syncs(w, w', true) || Syncs(w, w', false) || SyncsLast(w, w', true) || SyncsLast(w, w', false)
    || Panics(w, w') || CleansUp(w, w')
  }

  ghost predicate Starts(w: World) {
    && w.disk == [] && w.synced == 0 && w.fileSize == w.base
    && w.buffer == [] && w.accepted == [] && w.alive
    && w.queue == [] && !w.disconnected
    && w.callers == [] && w.replies == [] && w.issued == 0 && w.closed == None
    && w.worker == Idle
  }

  ghost predicate IsRun(limit: nat, run: seq<World>) {
    && run != [] && Starts(run[0])
    && forall i :: 0 <= i < |run| - 1 ==> Step(limit, run[i], run[i + 1])
  }
}
