/** Admission of blocking jobs: two counters changed by compare-and-exchange loops, under
    every interleaving of any number of acquirers and permit drops. */
module Admission {

  const USIZE_MAX: nat := 0xFFFF_FFFF_FFFF_FFFF

  datatype Limits = Limits(count: nat, bytes: nat) {
    predicate Valid() { count <= USIZE_MAX && bytes <= USIZE_MAX }
  }

  /** Where one call of `try_acquire`, or the permit it returned, stands. */
  datatype Thread =
    | Calling(n: nat)
    | TryingSlot(n: nat, seen: nat)
    | HasSlot(n: nat)
    | TryingBytes(n: nat, seen: nat)
    | GivingUp(n: nat)
    | Holding(n: nat)
    | HalfDropped(n: nat)
    | Rejected
    | Dropped
  {
    /** The thread accounts for one in the slot counter. */
    function Slot(): nat {
      if HasSlot? || TryingBytes? || GivingUp? || Holding? || HalfDropped? then 1 else 0
    }

    /** The bytes it accounts for in the byte counter. */
    function Bytes(): nat { if Holding? then n else 0 }
  }

  datatype World = World(active: int, activeBytes: int, threads: seq<Thread>)

  // ---------------------------------------------------------------------
  // Steps of one thread
  // ---------------------------------------------------------------------

  /** One atomic action of thread `t`: its next state and what it adds to the counters. A weak
      exchange may fail although the value matches. */
  ghost predicate Acts(l: Limits, w: World, t: Thread, t': Thread, slots: int, bytes: int) {
    match t
    case Calling(n) =>
      slots == 0 && bytes == 0 && t' == if n > l.bytes then Rejected else TryingSlot(n, Seen(w.active))
    case TryingSlot(n, seen) =>
      if seen >= l.count then slots == 0 && bytes == 0 && t' == Rejected
      else
        || (w.active == seen && slots == 1 && bytes == 0 && t' == HasSlot(n))
        || (slots == 0 && bytes == 0 && t' == TryingSlot(n, Seen(w.active)))
    case HasSlot(n) => slots == 0 && bytes == 0 && t' == TryingBytes(n, Seen(w.activeBytes))
    case TryingBytes(n, seen) =>
      if seen + n > USIZE_MAX || seen + n > l.bytes then slots == 0 && bytes == 0 && t' == GivingUp(n)
      else
        || (w.activeBytes == seen && slots == 0 && bytes == n && t' == Holding(n))
        || (slots == 0 && bytes == 0 && t' == TryingBytes(n, Seen(w.activeBytes)))
    case GivingUp(n) => slots == -1 && bytes == 0 && t' == Rejected
    case Holding(n) => slots == 0 && bytes + n == 0 && t' == HalfDropped(n)
    case HalfDropped(n) => slots == -1 && bytes == 0 && t' == Dropped
    case Rejected => false
    case Dropped => false
  }

  /** A counter read back; reads of a negative counter never happen, see `Inv`. */
  function Seen(counter: int): nat { if counter < 0 then 0 else counter }

  ghost predicate ThreadStep(l: Limits, w: World, w': World, i: nat) {
    && i < |w.threads|
    && exists t', slots, bytes ::
         && Acts(l, w, w.threads[i], t', slots, bytes)
         && w' == World(w.active + slots, w.activeBytes + bytes, w.threads[i := t'])
  }

  /** A new call of `try_acquire`. */
  ghost predicate Arrives(w: World, w': World) {
    exists n: nat :: n <= USIZE_MAX && w' == w.(threads := w.threads + [Calling(n)])
  }

  ghost predicate Step(l: Limits, w: World, w': World) {
    Arrives(w, w') || exists i :: ThreadStep(l, w, w', i)
  }

  ghost predicate IsRun(l: Limits, run: seq<World>) {
    && l.Valid() && run != [] && run[0] == World(0, 0, [])
    && forall i :: 0 <= i < |run| - 1 ==> Step(l, run[i], run[i + 1])
  }

  // ---------------------------------------------------------------------
  // Counting
  // ---------------------------------------------------------------------

  function Slots(threads: seq<Thread>): nat {
    if threads == [] then 0 else Slots(threads[..|threads| - 1]) + threads[|threads| - 1].Slot()
  }

  function HeldBytes(threads: seq<Thread>): nat {
    if threads == [] then 0 else HeldBytes(threads[..|threads| - 1]) + threads[|threads| - 1].Bytes()
  }

  lemma {:induction false} CountsAfter(threads: seq<Thread>, i: nat, t: Thread)
    requires i < |threads|
    ensures Slots(threads[i := t]) - t.Slot() == Slots(threads) - threads[i].Slot()
    ensures HeldBytes(threads[i := t]) - t.Bytes() == HeldBytes(threads) - threads[i].Bytes()
    decreases |threads|
  {
    var n := |threads| - 1;
    if i < n {
      CountsAfter(threads[..n], i, t);
      assert threads[i := t][..n] == threads[..n][i := t];
    } else {
      assert threads[i := t][..n] == threads[..n];
    }
  }

  lemma {:induction false} CountsAtLeast(threads: seq<Thread>, i: nat)
    requires i < |threads|
    ensures Slots(threads) >= threads[i].Slot() && HeldBytes(threads) >= threads[i].Bytes()
    decreases |threads|
  {
    if i < |threads| - 1 {
      CountsAtLeast(threads[..|threads| - 1], i);
    }
  }

  // ---------------------------------------------------------------------
  // Safety
  // ---------------------------------------------------------------------

  /** The counters are exactly what the threads account for, within the limits. */
  ghost predicate Inv(l: Limits, w: World) {
    && w.active == Slots(w.threads) && w.activeBytes == HeldBytes(w.threads)
    && w.active <= l.count && w.activeBytes <= l.bytes
  }

  lemma ThreadStepKeeps(l: Limits, w: World, w': World, i: nat)
    requires Inv(l, w) && ThreadStep(l, w, w', i)
    ensures Inv(l, w')
  {
    var t', slots, bytes :|
      && Acts(l, w, w.threads[i], t', slots, bytes)
      && w' == World(w.active + slots, w.activeBytes + bytes, w.threads[i := t']);
    CountsAfter(w.threads, i, t');
    CountsAtLeast(w.threads, i);
  }

  lemma ArrivalKeeps(l: Limits, w: World, w': World)
    requires Inv(l, w) && Arrives(w, w')
    ensures Inv(l, w')
  {}

  lemma {:induction false} RunKeeps(l: Limits, run: seq<World>, k: nat)
    requires IsRun(l, run) && k < |run|
    ensures Inv(l, run[k])
    decreases k
  {
    hide Inv, Arrives, ThreadStep;
    if k == 0 {
      EmptyHolds(l);
    } else {
      RunKeeps(l, run, k - 1);
      assert Step(l, run[k - 1], run[k - 1 + 1]);
      if Arrives(run[k - 1], run[k]) {
        ArrivalKeeps(l, run[k - 1], run[k]);
      } else {
        var i :| ThreadStep(l, run[k - 1], run[k], i);
        ThreadStepKeeps(l, run[k - 1], run[k], i);
      }
    }
  }

  lemma EmptyHolds(l: Limits)
    ensures Inv(l, World(0, 0, []))
  {}

  /** In every reachable state the counters respect the limits; the slot counter is the number
      of held permits plus the calls and drops between their two steps, the byte counter the
      bytes not yet released. */
  lemma AdmissionIsSafe(l: Limits, run: seq<World>, k: nat)
    requires IsRun(l, run) && k < |run|
    ensures 0 <= run[k].active == Slots(run[k].threads) <= l.count
    ensures 0 <= run[k].activeBytes == HeldBytes(run[k].threads) <= l.bytes
  {
    RunKeeps(l, run, k);
  }

  /** No decrement underflows: whoever is about to subtract, what it subtracts is there. */
  lemma NoUnderflow(l: Limits, run: seq<World>, k: nat, i: nat)
    requires IsRun(l, run) && k < |run| && i < |run[k].threads|
    ensures run[k].threads[i].GivingUp? || run[k].threads[i].HalfDropped? ==> run[k].active >= 1
    ensures run[k].threads[i].Holding? ==> run[k].activeBytes >= run[k].threads[i].n && run[k].active >= 1
  {
    RunKeeps(l, run, k);
    CountsAtLeast(run[k].threads, i);
  }

  /** Once every call has been refused or its permit dropped, nothing is left behind. */
  lemma {:induction false} FinishedLeaveNothing(threads: seq<Thread>)
    requires forall i :: 0 <= i < |threads| ==> threads[i].Rejected? || threads[i].Dropped?
    ensures Slots(threads) == 0 && HeldBytes(threads) == 0
    decreases |threads|
  {
    if threads != [] {
      FinishedLeaveNothing(threads[..|threads| - 1]);
    }
  }

  lemma NoResidue(l: Limits, run: seq<World>, k: nat)
    requires IsRun(l, run) && k < |run|
    requires forall i :: 0 <= i < |run[k].threads| ==> run[k].threads[i].Rejected? || run[k].threads[i].Dropped?
    ensures run[k].active == 0 && run[k].activeBytes == 0
  {
    RunKeeps(l, run, k);
    FinishedLeaveNothing(run[k].threads);
  }

  // ---------------------------------------------------------------------
  // Input sizes
  // ---------------------------------------------------------------------

  const MAX_ASYNC_INPUT_BYTES: nat := 64 * 1024 * 1024
  const INPUT_OVERHEAD: nat := 64

  function Charge(lengths: seq<nat>): nat {
    if lengths == [] then 0 else Charge(lengths[..|lengths| - 1]) + lengths[|lengths| - 1] + INPUT_OVERHEAD
  }

  lemma {:induction false} ChargeGrows(lengths: seq<nat>, i: nat)
    requires i <= |lengths|
    ensures Charge(lengths[..i]) <= Charge(lengths)
    decreases |lengths|
  {
    if i < |lengths| {
      ChargeGrows(lengths[..|lengths| - 1], i);
      assert lengths[..|lengths| - 1][..i] == lengths[..i];
    } else {
      assert lengths[..i] == lengths;
    }
  }

  /** `checked_input_bytes`: the whole charge, or a refusal exactly when it is too large. */
  method CheckedInputBytes(lengths: seq<nat>) returns (ok: bool, total: nat)
    requires forall i :: 0 <= i < |lengths| ==> lengths[i] <= USIZE_MAX
    ensures ok <==> Charge(lengths) <= MAX_ASYNC_INPUT_BYTES
    ensures ok ==> total == Charge(lengths)
  {
    total := 0;
    for i := 0 to |lengths|
      invariant total == Charge(lengths[..i]) <= MAX_ASYNC_INPUT_BYTES
    {
      assert lengths[..i + 1][..i] == lengths[..i];
      ChargeGrows(lengths, i + 1);
      var next := total + lengths[i] + INPUT_OVERHEAD;
      if next > USIZE_MAX || next > MAX_ASYNC_INPUT_BYTES { return false, total; }
      total := next;
    }
    assert lengths[..|lengths|] == lengths;
    return true, total;
  }
}
