/** Claiming a flow: the stored record becomes a running one under a lease token that never
    occurs twice. */
module ClaimChain {
  import opened Bytes
  import opened Bits
  import opened Varint
  import opened FlowRecord
  import opened Decimals

  const RUNNING: Bytes := [0x72, 0x75, 0x6E, 0x6E, 0x69, 0x6E, 0x67]   // running
  const QUEUED: Bytes := [0x71, 0x75, 0x65, 0x75, 0x65, 0x64]          // queued
  const COLON: byte := 0x3A

  // ---------------------------------------------------------------------
  // Lease tokens
  // ---------------------------------------------------------------------

  /** `claim_lease_token`: worker, time and fencing token joined by colons. */
  function LeaseToken(worker: Bytes, now: u64, fencing: u64): Bytes {
    worker + [COLON] + ToDecimal(now) + [COLON] + ToDecimal(fencing)
  }

  /** What follows the last colon. */
  function AfterColon(s: Bytes): Bytes {
    if s == [] || s[|s| - 1] == COLON then [] else AfterColon(s[..|s| - 1]) + [s[|s| - 1]]
  }

  lemma {:induction false} AfterColonIs(a: Bytes, x: Bytes)
    requires COLON !in x
    ensures AfterColon(a + [COLON] + x) == x
    decreases |x|
  {
    var s := a + [COLON] + x;
    if x != [] {
      var n := |x| - 1;
      AfterColonIs(a, x[..n]);
      assert s[..|s| - 1] == a + [COLON] + x[..n];
      assert x == x[..n] + [x[n]];
    }
  }

  /** The last colon splits a string one way. */
  lemma SplitAtColon(a: Bytes, x: Bytes, b: Bytes, y: Bytes)
    requires COLON !in x && COLON !in y && a + [COLON] + x == b + [COLON] + y
    ensures a == b && x == y
  {
    AfterColonIs(a, x);
    AfterColonIs(b, y);
    assert a == (a + [COLON] + x)[..|a|] && b == (b + [COLON] + y)[..|b|];
  }

  lemma NoColon(n: nat)
    ensures COLON !in ToDecimal(n)
  {}

  /** The token determines worker, time and fencing token, even if the worker's name contains
      colons. */
  lemma LeaseTokenInjective(w1: Bytes, n1: u64, f1: u64, w2: Bytes, n2: u64, f2: u64)
    requires LeaseToken(w1, n1, f1) == LeaseToken(w2, n2, f2)
    ensures w1 == w2 && n1 == n2 && f1 == f2
  {
    hide ToDecimal;
    NoColon(n1);
    NoColon(n2);
    NoColon(f1);
    NoColon(f2);
    SplitAtColon(w1 + [COLON] + ToDecimal(n1), ToDecimal(f1), w2 + [COLON] + ToDecimal(n2), ToDecimal(f2));
    SplitAtColon(w1, ToDecimal(n1), w2, ToDecimal(n2));
    DecimalRoundTrip(n1);
    DecimalRoundTrip(n2);
    DecimalRoundTrip(f1);
    DecimalRoundTrip(f2);
  }

  // ---------------------------------------------------------------------
  // Decoded records fit
  // ---------------------------------------------------------------------

  lemma DecodedBinFits(input: Bytes)
    requires DecodeBin(input).Some? && |input| < U64_MAX
    ensures Addressable(DecodeBin(input).value.0) && |DecodeBin(input).value.1| < |input|
  {}

  /** A decoded sidecar is one field. */
  lemma DecodedField(input: Bytes)
    requires DecodeField(input).Some?
    ensures OneField(DecodeField(input).value.0)
  {
    hide DecodeBin, EncodeBin;
    BinCanonical(input);
    var (v, rest) := DecodeBin(input).value;
    assert input[..|input| - |rest|] == EncodeBin(v);
    BinRoundTrip(v, []);
    assert EncodeBin(v) + [] == EncodeBin(v);
  }

  lemma DecodedSlot(slot: Slot, flags: nat, id: Bytes, input: Bytes)
    requires DecodeSlot(slot, flags, id, input).Some? && |input| < U64_MAX && |id| < U64_MAX
    ensures var (v, rest) := DecodeSlot(slot, flags, id, input).value;
      && Suits(slot, v) && |rest| <= |input|
      && (slot.SidecarSlot? ==> OneField(Raw(v)))
  {
    hide Bit, DecodeBin, OneField, DecodeVarint;
    match slot
    case IntSlot(bit, _) =>
    case BinSlot(bit) =>
      if Bit(flags, bit) {
        DecodedBinFits(input);
      }
    case RootSlot(bit, selfBit) =>
      if !Bit(flags, selfBit) && Bit(flags, bit) {
        DecodedBinFits(input);
      }
    case SidecarSlot(bit) =>
      if Bit(flags, bit) {
        DecodedField(input);
      } else {
        EmptyIsOneField();
      }
  }

  lemma EmptyIsOneField()
    ensures OneField(EMPTY_GROUPS)
  {}

  lemma {:induction false} DecodedSlots(i: nat, flags: nat, id: Bytes, input: Bytes)
    requires i <= SLOTS && DecodeSlots(i, flags, id, input).Some? && |input| < U64_MAX && |id| < U64_MAX
    ensures var vs := DecodeSlots(i, flags, id, input).value.0;
      && (forall k :: i <= k < SLOTS ==> Suits(SlotAt(k), vs[k - i]))
      && (forall k :: i <= k < SLOTS && SlotAt(k).SidecarSlot? ==> OneField(Raw(vs[k - i])))
    decreases SLOTS - i
  {
    hide DecodeSlot, SlotAt, Suits, OneField;
    if i < SLOTS {
      DecodedSlot(SlotAt(i), flags, id, input);
      var (v, rest) := DecodeSlot(SlotAt(i), flags, id, input).value;
      DecodedSlots(i + 1, flags, id, rest);
    }
  }

  lemma DecodedRequired(input: Bytes)
    requires DecodeRequired(input).Some? && |input| < U64_MAX
    ensures var (f, rest) := DecodeRequired(input).value;
      && Addressable(f.id) && Addressable(f.flowType) && Addressable(f.state)
      && RequiredBin(f.id) && RequiredBin(f.flowType) && RequiredBin(f.state)
      && RequiredInt(f.version) && RequiredInt(f.createdAtMs) && RequiredInt(f.updatedAtMs)
      && |rest| < |input|
  {
    hide DecodeBin, DecodeVarint;
    DecodedBinFits(input);
    var r1 := DecodeBin(input).value.1;
    DecodedBinFits(r1);
    var r2 := DecodeBin(r1).value.1;
    DecodedBinFits(r2);
  }

  /** A decoded record is complete, fits, and carries a well-formed sidecar. */
  lemma DecodedIsEncodable(value: Bytes)
    requires |value| < U64_MAX && Decode(value).Some?
    ensures var r := Decode(value).value; Fits(r) && Complete(r) && OneField(r.childGroups)
  {
    hide DecodeInt, DecodeRequired, DecodeSlots, Pow2, SlotAt, Suits, OneField, WithValues, AllSuit, Values,
      RequiredBin, RequiredInt, Addressable;
    var (flags, rest) := DecodeInt(value[4..]).value;
    IntShrinks(value[4..]);
    DecodedRequired(rest);
    var (inline, optional) := DecodeRequired(rest).value;
    PresentId(inline.id);
    DecodedSlots(0, flags.value, inline.id.value, optional);
    BuiltFits(Blank(inline), DecodeSlots(0, flags.value, inline.id.value, optional).value.0);
  }

  lemma IntShrinks(input: Bytes)
    requires DecodeInt(input).Some?
    ensures |DecodeInt(input).value.1| < |input|
  {}

  lemma PresentId(id: Option<Bytes>)
    requires RequiredBin(id) && Addressable(id)
    ensures id.Some? && |id.value| < U64_MAX
  {}

  lemma ReadsBack(r: FlowRecord, vs: seq<Value>)
    requires |vs| == SLOTS && forall k :: 0 <= k < SLOTS ==> Suits(SlotAt(k), vs[k])
    ensures forall k :: 0 <= k < SLOTS ==> ValueAt(WithValues(r, vs), k) == vs[k]
  {
    hide Addressable;
    LastIsSidecar(SLOTS - 1);
    forall k | 0 <= k < SLOTS ensures ValueAt(WithValues(r, vs), k) == vs[k] {
      assert Suits(SlotAt(k), vs[k]);
    }
  }

  lemma BuiltFits(r: FlowRecord, vs: seq<Value>)
    requires |vs| == SLOTS && forall k :: 0 <= k < SLOTS ==> Suits(SlotAt(k), vs[k])
    requires forall k :: 0 <= k < SLOTS && SlotAt(k).SidecarSlot? ==> OneField(Raw(vs[k]))
    ensures AllSuit(Values(WithValues(r, vs))) && OneField(WithValues(r, vs).childGroups)
    ensures var w := WithValues(r, vs);
      && w.id == r.id && w.flowType == r.flowType && w.state == r.state
      && w.version == r.version && w.createdAtMs == r.createdAtMs && w.updatedAtMs == r.updatedAtMs
  {
    hide Addressable, OneField;
    LastIsSidecar(SLOTS - 1);
    ReadsBack(r, vs);
  }

  // ---------------------------------------------------------------------
  // Planning a claim
  // ---------------------------------------------------------------------

  /** `checked_claim_counters`. */
  function NextCounters(version: u64, fencing: u64): Option<(u64, u64)> {
    if version + 1 < U64_MAX && fencing + 1 < U64_MAX then Some((version + 1, fencing + 1)) else None
  }

  function RunState(r: FlowRecord): Option<Bytes> {
    if r.state == Some(RUNNING) then Some(QUEUED) else r.state
  }

  /** The running record a claim of `r` stores. */
  function Claimed(r: FlowRecord, worker: Bytes, deadline: u64, now: u64, version: u64, fencing: u64): FlowRecord {
    r.(state := Some(RUNNING), version := Some(version), fencingToken := Some(fencing),
       updatedAtMs := Some(now), nextRunAtMs := Some(deadline), ttlMs := None, terminalRetentionUntilMs := None,
       leaseOwner := Some(worker), leaseToken := Some(LeaseToken(worker, now, fencing)),
       leaseDeadlineMs := Some(deadline), runState := RunState(r))
  }

  predicate Blankish(v: Option<Bytes>) { v.None? || v.value == [] }

  /** `flow_record_fast_claim_shape`. */
  predicate FastShape(r: FlowRecord) {
    Blankish(r.parentFlowId) && Blankish(r.correlationId) && (Blankish(r.rootFlowId) || r.rootFlowId == r.id)
  }

  datatype Outcome = Stale | Skipped | Fallback | Planned(value: Bytes, record: FlowRecord)

  function DeadlineOf(now: u64, lease: u64): u64 { if now + lease > U64_MAX then U64_MAX else now + lease }

  /** One candidate of `flow_record_plan_claims`. */
  function PlanClaim(id: Bytes, value: Option<Bytes>, flowType: Bytes, state: Bytes, worker: Bytes, now: u64, lease: u64): Outcome
    requires value.Some? ==> |value.value| < U64_MAX
    requires |worker| + 64 < U64_MAX
  {
    if value.None? then Stale
    else
      match Decode(value.value)
      case None => Stale
      case Some(r) =>
        if r.id != Some(id) then Fallback
        else if r.flowType != Some(flowType) || r.state != Some(state) then Skipped
        else if !FastShape(r) then Fallback
        else if r.nextRunAtMs.None? || r.nextRunAtMs.value > now then Skipped
        else if r.version.None? || r.fencingToken.None? || r.updatedAtMs.None? || r.priority.None? then Fallback
        else
          match NextCounters(r.version.value, r.fencingToken.value)
          case None => Fallback
          case Some((version, fencing)) =>
            var next := Claimed(r, worker, DeadlineOf(now, lease), now, version, fencing);
            ClaimFits(value.value, worker, DeadlineOf(now, lease), now, version, fencing);
            match Encode(next)
            case None => Fallback
            case Some(bytes) => Planned(bytes, next)
  }

  lemma {:induction false} DecimalLength(n: nat, k: nat)
    requires k > 0 && n < TenTo(k)
    ensures |ToDecimal(n)| <= k
    decreases k
  {
    if n >= 10 {
      DecimalLength(n / 10, k - 1);
    }
  }

  function TenTo(k: nat): (n: nat)
    ensures n > 0
  {
    if k == 0 then 1 else 10 * TenTo(k - 1)
  }

  lemma TokenLength(worker: Bytes, now: u64, fencing: u64)
    ensures |LeaseToken(worker, now, fencing)| <= |worker| + 42
  {
    hide ToDecimal;
    assert TenTo(5) == 100_000 && TenTo(10) == 10_000_000_000;
    assert TenTo(15) == 1_000_000_000_000_000 && TenTo(20) == 100_000_000_000_000_000_000;
    DecimalLength(now, 20);
    DecimalLength(fencing, 20);
  }

  lemma ClaimFits(value: Bytes, worker: Bytes, deadline: u64, now: u64, version: u64, fencing: u64)
    requires |value| < U64_MAX && Decode(value).Some? && |worker| + 64 < U64_MAX
    ensures Fits(Claimed(Decode(value).value, worker, deadline, now, version, fencing))
  {
    hide Decode, LeaseToken;
    DecodedIsEncodable(value);
    TokenLength(worker, now, fencing);
    var r := Decode(value).value;
    var next := Claimed(r, worker, deadline, now, version, fencing);
    forall k | 0 <= k < SLOTS ensures Suits(SlotAt(k), ValueAt(next, k)) {
      assert Values(r)[k] == ValueAt(r, k);
      assert Suits(SlotAt(k), Values(r)[k]);
    }
  }

  // ---------------------------------------------------------------------
  // Which claims are planned
  // ---------------------------------------------------------------------

  lemma DecodedIntIsSmall(slot: Slot, flags: nat, id: Bytes, input: Bytes)
    requires DecodeSlot(slot, flags, id, input).Some? && (slot.IntSlot? ==> slot.default != Some(U64_MAX))
    ensures slot.IntSlot? ==> DecodeSlot(slot, flags, id, input).value.0 != IntValue(Some(U64_MAX))
  {
    hide Bit, DecodeBin, DecodeVarint, EncodeVarint;
    if slot.IntSlot? && Bit(flags, slot.bit) {
      VarintCanonical(input);
    }
  }

  lemma {:induction false} DecodedIntsAreSmall(i: nat, flags: nat, id: Bytes, input: Bytes)
    requires i <= SLOTS && DecodeSlots(i, flags, id, input).Some?
    ensures var vs := DecodeSlots(i, flags, id, input).value.0;
      forall k :: i <= k < SLOTS && SlotAt(k).IntSlot? ==> vs[k - i] != IntValue(Some(U64_MAX))
    decreases SLOTS - i
  {
    hide DecodeSlot, SlotAt;
    if i < SLOTS {
      SmallDefault(i);
      DecodedIntIsSmall(SlotAt(i), flags, id, input);
      DecodedIntsAreSmall(i + 1, flags, id, DecodeSlot(SlotAt(i), flags, id, input).value.1);
    }
  }

  /** No integer that was read is the one that cannot be written. */
  ghost predicate Writable(r: FlowRecord) {
    forall k :: 0 <= k < SLOTS && SlotAt(k).IntSlot? ==> ValueAt(r, k) != IntValue(Some(U64_MAX))
  }

  lemma DecodedIsWritable(value: Bytes)
    requires Decode(value).Some? && |value| < U64_MAX
    ensures Writable(Decode(value).value)
  {
    hide DecodeInt, DecodeRequired, DecodeSlots, Pow2, RequiredBin, RequiredInt, Suits, OneField;
    var (flags, rest) := DecodeInt(value[4..]).value;
    IntShrinks(value[4..]);
    DecodedRequired(rest);
    var (inline, optional) := DecodeRequired(rest).value;
    PresentId(inline.id);
    DecodedSlots(0, flags.value, inline.id.value, optional);
    DecodedIntsAreSmall(0, flags.value, inline.id.value, optional);
    ReadsBack(Blank(inline), DecodeSlots(0, flags.value, inline.id.value, optional).value.0);
  }

  lemma ClaimedIsWritable(r: FlowRecord, worker: Bytes, deadline: u64, now: u64, version: u64, fencing: u64)
    requires Writable(r)
    ensures Writable(Claimed(r, worker, deadline, now, version, fencing)) <==> deadline < U64_MAX && fencing < U64_MAX
  {
    hide LeaseToken, RunState;
    var next := Claimed(r, worker, deadline, now, version, fencing);
    assert ValueAt(next, 1) == IntValue(Some(fencing)) && ValueAt(next, 2) == IntValue(Some(deadline));
    assert SlotAt(1).IntSlot? && SlotAt(2).IntSlot?;
    forall k | 0 <= k < SLOTS && SlotAt(k).IntSlot? && deadline < U64_MAX && fencing < U64_MAX
      ensures ValueAt(next, k) != IntValue(Some(U64_MAX))
    {
      assert ValueAt(r, k) != IntValue(Some(U64_MAX));
    }
  }

  /** A claim is planned exactly for a decodable record of that flow, type and state, of fast
      shape and due, whose counters can grow, at a time and with a lease end that can be stored. */
  lemma PlannedExactly(id: Bytes, value: Bytes, flowType: Bytes, state: Bytes, worker: Bytes, now: u64, lease: u64)
    requires |value| < U64_MAX && |worker| + 64 < U64_MAX
    ensures PlanClaim(id, Some(value), flowType, state, worker, now, lease).Planned? <==>
      && Decode(value).Some?
      && var r := Decode(value).value;
      && r.id == Some(id) && r.flowType == Some(flowType) && r.state == Some(state) && FastShape(r)
      && r.nextRunAtMs.Some? && r.nextRunAtMs.value <= now && r.priority.Some?
      && r.version.Some? && r.version.value < MAX_EXACT_INTEGER
      && r.fencingToken.Some? && r.fencingToken.value + 1 < U64_MAX
      && now <= MAX_EXACT_INTEGER && now + lease < U64_MAX
  {
    hide Decode, Encode, LeaseToken, Fits, FastShape, Writable;
    if Decode(value).Some? {
      var r := Decode(value).value;
      DecodedIsEncodable(value);
      DecodedIsWritable(value);
      if r.version.Some? && r.fencingToken.Some? {
        match NextCounters(r.version.value, r.fencingToken.value)
        case None =>
        case Some((version, fencing)) =>
          NextFits(value, worker, DeadlineOf(now, lease), now, version, fencing);
      }
    }
  }

  lemma NextFits(value: Bytes, worker: Bytes, deadline: u64, now: u64, version: u64, fencing: u64)
    requires |value| < U64_MAX && |worker| + 64 < U64_MAX && Decode(value).Some?
    ensures var next := Claimed(Decode(value).value, worker, deadline, now, version, fencing);
      && Fits(next)
      && (Encode(next).Some? <==>
            version <= MAX_EXACT_INTEGER && now <= MAX_EXACT_INTEGER && deadline < U64_MAX && fencing < U64_MAX)
  {
    hide Decode, Encode, LeaseToken, Fits, OneField;
    DecodedIsEncodable(value);
    DecodedIsWritable(value);
    ClaimFits(value, worker, deadline, now, version, fencing);
    var r := Decode(value).value;
    ClaimedIsWritable(r, worker, deadline, now, version, fencing);
    EncoderRefuses(Claimed(r, worker, deadline, now, version, fencing));
  }

  /** Every planned claim reads back as the running record: version and fencing token one higher,
      owned by the worker under the new lease token, next due when the lease ends. Nothing else
      of the record changes but two retention fields, which are cleared. */
  lemma PlannedClaimDecodes(id: Bytes, value: Bytes, flowType: Bytes, state: Bytes, worker: Bytes, now: u64, lease: u64)
    requires |value| < U64_MAX && |worker| + 64 < U64_MAX
    requires PlanClaim(id, Some(value), flowType, state, worker, now, lease).Planned?
    ensures var plan := PlanClaim(id, Some(value), flowType, state, worker, now, lease);
      var r := Decode(value).value;
      && Decode(value).Some?
      && Decode(plan.value) == Some(Defaulted(plan.record))
      && r.version.Some? && r.fencingToken.Some?
      && plan.record.id == Some(id) && plan.record.state == Some(RUNNING)
      && plan.record.version == Some(r.version.value + 1)
      && plan.record.fencingToken == Some(r.fencingToken.value + 1)
      && plan.record.leaseToken == Some(LeaseToken(worker, now, r.fencingToken.value + 1))
      && plan.record.leaseOwner == Some(worker) && plan.record.updatedAtMs == Some(now)
      && plan.record.leaseDeadlineMs == Some(now + lease) && plan.record.nextRunAtMs == Some(now + lease)
      && plan.record.runState == Some(if state == RUNNING then QUEUED else state)
      && plan.record.ttlMs == None && plan.record.terminalRetentionUntilMs == None
      && r == plan.record.(state := r.state, version := r.version, fencingToken := r.fencingToken,
           leaseToken := r.leaseToken, leaseOwner := r.leaseOwner, updatedAtMs := r.updatedAtMs,
           leaseDeadlineMs := r.leaseDeadlineMs, nextRunAtMs := r.nextRunAtMs, runState := r.runState,
           ttlMs := r.ttlMs, terminalRetentionUntilMs := r.terminalRetentionUntilMs)
  {
    hide Decode, Encode, LeaseToken, Fits, OneField, Defaulted, FastShape;
    DecodedIsEncodable(value);
    var plan := PlanClaim(id, Some(value), flowType, state, worker, now, lease);
    var r := Decode(value).value;
    ClaimFits(value, worker, DeadlineOf(now, lease), now, r.version.value + 1, r.fencingToken.value + 1);
    RecordRoundTrip(plan.record);
    PlannedExactly(id, value, flowType, state, worker, now, lease);
  }

  // ---------------------------------------------------------------------
  // Runs of one flow
  // ---------------------------------------------------------------------

  /** What replaces the stored value of a flow: a planned claim, or a write by any other operation. */
  datatype Event =
    | Claim(id: Bytes, flowType: Bytes, state: Bytes, worker: Bytes, now: u64, lease: u64)
    | Rewrite

  ghost function FencingOf(value: Bytes): Option<u64> {
    match Decode(value)
    case None => None
    case Some(r) => r.fencingToken
  }

  ghost function LeaseOf(value: Bytes): Option<Bytes> {
    match Decode(value)
    case None => None
    case Some(r) => r.leaseToken
  }

  ghost function ClaimOf(value: Bytes, e: Event): Outcome
    requires e.Claim? && |value| < U64_MAX && |e.worker| + 64 < U64_MAX
  {
    PlanClaim(e.id, Some(value), e.flowType, e.state, e.worker, e.now, e.lease)
  }

  /** A claim stores what it planned; a rewrite never takes the fencing token back. */
  ghost predicate Step(value: Bytes, e: Event, value': Bytes) {
    match e
    case Claim(_, _, _, worker, _, _) =>
      && |value| < U64_MAX && |worker| + 64 < U64_MAX
      && ClaimOf(value, e).Planned? && value' == ClaimOf(value, e).value
    case Rewrite =>
      FencingOf(value).Some? ==> FencingOf(value').Some? && FencingOf(value).value <= FencingOf(value').value
  }

  /** `values[i]` is stored before event `i`. */
  ghost predicate IsRun(values: seq<Bytes>, events: seq<Event>) {
    && |values| == |events| + 1
    && forall i :: 0 <= i < |events| ==> Step(values[i], events[i], values[i + 1])
  }

  /** The value a claim stores carries the next fencing token and the lease token made of it. */
  lemma ClaimStores(value: Bytes, e: Event, value': Bytes)
    requires e.Claim? && Step(value, e, value')
    ensures FencingOf(value).Some? && FencingOf(value).value < U64_MAX
    ensures FencingOf(value') == Some(FencingOf(value).value + 1)
    ensures LeaseOf(value') == Some(LeaseToken(e.worker, e.now, FencingOf(value).value + 1))
  {
    hide Decode, PlanClaim, LeaseToken;
    PlannedClaimDecodes(e.id, value, e.flowType, e.state, e.worker, e.now, e.lease);
  }

  lemma StepGrows(value: Bytes, e: Event, value': Bytes)
    requires Step(value, e, value') && FencingOf(value).Some?
    ensures FencingOf(value').Some? && FencingOf(value).value <= FencingOf(value').value
  {
    hide FencingOf, ClaimOf;
    if e.Claim? {
      ClaimStores(value, e, value');
    }
  }

  lemma {:induction false} FencingGrows(values: seq<Bytes>, events: seq<Event>, i: nat, j: nat)
    requires IsRun(values, events) && i <= j <= |events| && FencingOf(values[i]).Some?
    ensures FencingOf(values[j]).Some? && FencingOf(values[i]).value <= FencingOf(values[j]).value
    decreases j
  {
    hide FencingOf, Step;
    if i < j {
      FencingGrows(values, events, i, j - 1);
      assert Step(values[j - 1], events[j - 1], values[j - 1 + 1]);
      StepGrows(values[j - 1], events[j - 1], values[j]);
    }
  }

  /** No two claims of a flow ever store the same lease token. */
  lemma LeaseTokensNeverRepeat(values: seq<Bytes>, events: seq<Event>, i: nat, j: nat)
    requires IsRun(values, events) && i < j < |events| && events[i].Claim? && events[j].Claim?
    ensures LeaseOf(values[i + 1]).Some? && LeaseOf(values[j + 1]).Some?
    ensures LeaseOf(values[i + 1]) != LeaseOf(values[j + 1])
    ensures FencingOf(values[i + 1]).Some? && FencingOf(values[j + 1]).Some?
    ensures FencingOf(values[i + 1]).value < FencingOf(values[j + 1]).value
  {
    hide LeaseToken, FencingOf, LeaseOf, Step;
    var a, b := events[i], events[j];
    assert Step(values[i], a, values[i + 1]) && Step(values[j], b, values[j + 1]);
    ClaimStores(values[i], a, values[i + 1]);
    FencingGrows(values, events, i + 1, j);
    ClaimStores(values[j], b, values[j + 1]);
    var m, n := FencingOf(values[i]).value + 1, FencingOf(values[j]).value + 1;
    if LeaseToken(a.worker, a.now, m) == LeaseToken(b.worker, b.now, n) {
      LeaseTokenInjective(a.worker, a.now, m, b.worker, b.now, n);
    }
  }
}
