/** The compact Flow record: required fields inline, optional fields present only when their
    flag says so, and a pre-encoded sidecar at the end. */
module FlowRecord {
  import opened Bytes
  import opened Bits
  import opened Varint

  const MAGIC: Bytes := [0x46, 0x53, 0x46, 0x35]                    // FSF5
  const EMPTY_GROUPS: Bytes := [0x04, 0x4A, 0x7B, 0x7D]             // the field holding J{}
  const NO_GROUPS: Bytes := [0x4A, 0x7B, 0x7D]                      // J{}
  const MAX_EXACT_INTEGER: nat := 0x1F_FFFF_FFFF_FFFF
  const FLAG_BITS: nat := 25
  const SLOTS: nat := 24

  // ---------------------------------------------------------------------
  // Optional integers and byte strings
  // ---------------------------------------------------------------------

  /** `encode_int`: zero is absent, n is n + 1; the largest u64 has no encoding. */
  function EncodeInt(v: Option<u64>): Option<Bytes> {
    match v
    case None => Some([0])
    case Some(n) => if n == U64_MAX then None else Some(EncodeVarint(n + 1))
  }

  function DecodeInt(input: Bytes): Option<(Option<u64>, Bytes)> {
    match DecodeVarint(input)
    case None => None
    case Some((n, rest)) =>
      VarintCanonical(input);
      if n == 0 then Some((None, rest)) else Some((Some(n - 1), rest))
  }

  predicate Addressable(v: Option<Bytes>) { v.Some? ==> |v.value| < U64_MAX }

  function EncodeBin(v: Option<Bytes>): Bytes {
    match v
    case None => [0]
    case Some(b) => EncodeVarint(|b| + 1) + b
  }

  function DecodeBin(input: Bytes): (r: Option<(Option<Bytes>, Bytes)>)
    ensures r.Some? ==> |r.value.1| < |input|
  {
    match DecodeVarint(input)
    case None => None
    case Some((n, rest)) =>
      if n == 0 then Some((None, rest))
      else if |rest| < n - 1 then None
      else Some((Some(rest[..n - 1]), rest[n - 1..]))
  }

  lemma ZeroIsVarint()
    ensures EncodeVarint(0) == [0]
  {}

  lemma IntRoundTrip(v: Option<u64>, tail: Bytes)
    requires EncodeInt(v).Some?
    ensures DecodeInt(EncodeInt(v).value + tail) == Some((v, tail))
  {
    hide EncodeVarint, DecodeVarint;
    ZeroIsVarint();
    VarintRoundTrip(if v.None? then 0 else v.value + 1, tail);
  }

  lemma BinRoundTrip(v: Option<Bytes>, tail: Bytes)
    requires Addressable(v)
    ensures DecodeBin(EncodeBin(v) + tail) == Some((v, tail))
  {
    hide EncodeVarint, DecodeVarint;
    ZeroIsVarint();
    match v
    case None => VarintRoundTrip(0, tail);
    case Some(b) =>
      VarintRoundTrip(|b| + 1, b + tail);
      assert EncodeBin(v) + tail == EncodeVarint(|b| + 1) + (b + tail);
  }

  /** Whatever `decode_bin` reads is what `encode_bin` writes. */
  lemma BinCanonical(input: Bytes)
    requires DecodeBin(input).Some?
    ensures var (v, rest) := DecodeBin(input).value; Addressable(v) && EncodeBin(v) + rest == input
  {
    hide EncodeVarint, DecodeVarint;
    ZeroIsVarint();
    VarintCanonical(input);
    var (n, rest) := DecodeVarint(input).value;
    if n > 0 {
      assert rest == rest[..n - 1] + rest[n - 1..];
      assert EncodeVarint(n) + rest[..n - 1] + rest[n - 1..] == EncodeVarint(n) + rest;
    }
  }

  // ---------------------------------------------------------------------
  // The schema
  // ---------------------------------------------------------------------

  datatype Slot =
    | IntSlot(bit: nat, default: Option<u64>)
    | BinSlot(bit: nat)
    | RootSlot(bit: nat, selfBit: nat)
    | SidecarSlot(bit: nat)

  datatype Value = IntValue(num: Option<u64>) | BinValue(bin: Option<Bytes>) | RawValue(raw: Bytes)

  /** The optional fields in wire order: attempts, fencing token, next run, priority, ttl, hot
      history, history, retention, terminal retention, max active, partition, payload,
      parent, parent partition, root, correlation, result, error, lease owner, lease token,
      lease deadline, run state, rewound-to event, sidecar. */
  function SlotAt(i: nat): Slot
    requires i < SLOTS
  {
    if i == 0 || i == 1 || i == 3 then IntSlot(i, Some(0))
    else if i < 9 then IntSlot(i, None)
    else if i == 9 then IntSlot(24, None)
    else if i < 14 then BinSlot(i - 1)
    else if i == 14 then RootSlot(13, 14)
    else if i == 20 then IntSlot(20, Some(0))
    else if i < 23 then BinSlot(i)
    else SidecarSlot(23)
  }

  predicate Suits(slot: Slot, v: Value) {
    match slot
    case IntSlot(_, _) => v.IntValue?
    case BinSlot(_) => v.BinValue? && Addressable(v.bin)
    case RootSlot(_, _) => v.BinValue? && Addressable(v.bin)
    case SidecarSlot(_) => v.RawValue?
  }

  predicate Owns(slot: Slot, b: nat) { b == slot.bit || (slot.RootSlot? && b == slot.selfBit) }

  lemma OneOwner(i: nat, j: nat, b: nat)
    requires i < SLOTS && j < SLOTS && Owns(SlotAt(i), b) && Owns(SlotAt(j), b)
    ensures i == j && b < FLAG_BITS
  {}

  /** `encoded_child_groups_empty`. */
  predicate EmptyGroups(raw: Bytes) {
    match DecodeBin(raw)
    case None => false
    case Some((v, rest)) => rest == [] && (v.None? || v.value == NO_GROUPS)
  }

  /** The slot's value makes the encoder set flag bit `b`. */
  predicate Sets(slot: Slot, v: Value, id: Bytes, b: nat)
    requires Suits(slot, v)
  {
    match slot
    case IntSlot(bit, default) =>
      b == bit && v.num.Some? && (default.None? || v.num != default)
    case BinSlot(bit) => b == bit && v.bin.Some?
    case RootSlot(bit, selfBit) => v.bin.Some? && b == if v.bin.value == id then selfBit else bit
    case SidecarSlot(bit) => b == bit && !EmptyGroups(v.raw)
  }

  /** What a decoder makes of an omitted or written value. */
  function Normal(slot: Slot, v: Value): Value
    requires Suits(slot, v)
  {
    match slot
    case IntSlot(_, default) => if v.num.None? then IntValue(default) else v
    case BinSlot(_) => v
    case RootSlot(_, _) => v
    case SidecarSlot(_) => if EmptyGroups(v.raw) then RawValue(EMPTY_GROUPS) else v
  }

  predicate AllSuit(vs: seq<Value>) {
    |vs| == SLOTS && forall i :: 0 <= i < SLOTS ==> Suits(SlotAt(i), vs[i])
  }

  predicate SomeSets(vs: seq<Value>, id: Bytes, b: nat)
    requires AllSuit(vs)
  {
    exists i :: 0 <= i < SLOTS && Sets(SlotAt(i), vs[i], id, b)
  }

  /** `encode_record_flags`. */
  function FlagBits(vs: seq<Value>, id: Bytes): (bits: seq<bool>)
    requires AllSuit(vs)
    ensures |bits| == FLAG_BITS
  {
    seq(FLAG_BITS, b requires 0 <= b => SomeSets(vs, id, b))
  }

  function Flags(vs: seq<Value>, id: Bytes): nat
    requires AllSuit(vs)
  {
    Number(FlagBits(vs, id))
  }

  /** The flags a slot looks at say what its own value set. */
  lemma FlagsAgree(vs: seq<Value>, id: Bytes, i: nat, b: nat)
    requires AllSuit(vs) && i < SLOTS && Owns(SlotAt(i), b)
    ensures Bit(Flags(vs, id), b) <==> Sets(SlotAt(i), vs[i], id, b)
  {
    hide Number, Bit, SlotAt, Suits, Sets;
    OneOwner(i, i, b);
    NumberBits(FlagBits(vs, id), b);
    if j :| 0 <= j < SLOTS && Sets(SlotAt(j), vs[j], id, b) {
      SetsOwns(SlotAt(j), vs[j], id, b);
      OneOwner(i, j, b);
    }
  }

  lemma SetsOwns(slot: Slot, v: Value, id: Bytes, b: nat)
    requires Suits(slot, v) && Sets(slot, v, id, b)
    ensures Owns(slot, b)
  {}

  // ---------------------------------------------------------------------
  // Slots on the wire
  // ---------------------------------------------------------------------

  function EncodeSlot(slot: Slot, v: Value, flags: nat): Option<Bytes>
    requires Suits(slot, v)
  {
    if !Bit(flags, slot.bit) then Some([])
    else
      match slot
      case IntSlot(_, _) => EncodeInt(v.num)
      case BinSlot(_) => Some(EncodeBin(v.bin))
      case RootSlot(_, _) => Some(EncodeBin(v.bin))
      case SidecarSlot(_) => Some(v.raw)
  }

  /** `decode_encoded_bin_field`: one field, kept as its bytes. */
  function DecodeField(input: Bytes): Option<(Bytes, Bytes)> {
    match DecodeBin(input)
    case None => None
    case Some((_, rest)) => Some((input[..|input| - |rest|], rest))
  }

  function DecodeSlot(slot: Slot, flags: nat, id: Bytes, input: Bytes): Option<(Value, Bytes)> {
    match slot
    case IntSlot(bit, default) =>
      if !Bit(flags, bit) then Some((IntValue(default), input))
      else (match DecodeInt(input) case None => None case Some((v, rest)) => Some((IntValue(v), rest)))
    case BinSlot(bit) =>
      if !Bit(flags, bit) then Some((BinValue(None), input))
      else (match DecodeBin(input) case None => None case Some((v, rest)) => Some((BinValue(v), rest)))
    case RootSlot(bit, selfBit) =>
      if Bit(flags, selfBit) then Some((BinValue(Some(id)), input))
      else if !Bit(flags, bit) then Some((BinValue(None), input))
      else (match DecodeBin(input) case None => None case Some((v, rest)) => Some((BinValue(v), rest)))
    case SidecarSlot(bit) =>
      if !Bit(flags, bit) then Some((RawValue(EMPTY_GROUPS), input))
      else (match DecodeField(input) case None => None case Some((raw, rest)) => Some((RawValue(raw), rest)))
  }

  /** The flags agree with the slot's value. */
  ghost predicate Agree(slot: Slot, v: Value, id: Bytes, flags: nat)
    requires Suits(slot, v)
  {
    && (Bit(flags, slot.bit) <==> Sets(slot, v, id, slot.bit))
    && (slot.RootSlot? ==> slot.bit != slot.selfBit && (Bit(flags, slot.selfBit) <==> Sets(slot, v, id, slot.selfBit)))
  }

  lemma SlotRoundTrip(slot: Slot, v: Value, id: Bytes, flags: nat, tail: Bytes)
    requires Suits(slot, v) && Agree(slot, v, id, flags) && !slot.SidecarSlot?
    requires EncodeSlot(slot, v, flags).Some?
    ensures DecodeSlot(slot, flags, id, EncodeSlot(slot, v, flags).value + tail) == Some((Normal(slot, v), tail))
  {
    hide Bit, EncodeInt, DecodeInt, EncodeBin, DecodeBin;
    assert [] + tail == tail;
    match slot
    case IntSlot(_, _) =>
      if Bit(flags, slot.bit) {
        IntRoundTrip(v.num, tail);
      }
    case BinSlot(_) => BinRoundTrip(v.bin, tail);
    case RootSlot(_, _) => BinRoundTrip(v.bin, tail);
  }

  /** One well-formed field and nothing after it. */
  predicate OneField(raw: Bytes) {
    DecodeBin(raw).Some? && DecodeBin(raw).value.1 == []
  }

  lemma SidecarRoundTrip(slot: Slot, v: Value, id: Bytes, flags: nat)
    requires slot.SidecarSlot? && Suits(slot, v) && Agree(slot, v, id, flags)
    ensures EncodeSlot(slot, v, flags).Some?
    ensures var r := DecodeSlot(slot, flags, id, EncodeSlot(slot, v, flags).value);
      if OneField(v.raw) then r == Some((Normal(slot, v), [])) else r.None? || r.value.1 != []
  {
    hide Bit, DecodeBin;
    if OneField(v.raw) {
      assert v.raw[..|v.raw| - 0] == v.raw;
    }
  }

  // ---------------------------------------------------------------------
  // All slots
  // ---------------------------------------------------------------------

  function EncodeFrom(i: nat, vs: seq<Value>, flags: nat): Option<Bytes>
    requires i <= SLOTS && AllSuit(vs)
    decreases SLOTS - i
  {
    if i == SLOTS then Some([])
    else
      match EncodeSlot(SlotAt(i), vs[i], flags)
      case None => None
      case Some(first) =>
        match EncodeFrom(i + 1, vs, flags)
        case None => None
        case Some(rest) => Some(first + rest)
  }

  function DecodeSlots(i: nat, flags: nat, id: Bytes, input: Bytes): (r: Option<(seq<Value>, Bytes)>)
    requires i <= SLOTS
    ensures r.Some? ==> |r.value.0| == SLOTS - i
    decreases SLOTS - i
  {
    if i == SLOTS then Some(([], input))
    else
      match DecodeSlot(SlotAt(i), flags, id, input)
      case None => None
      case Some((v, rest)) =>
        match DecodeSlots(i + 1, flags, id, rest)
        case None => None
        case Some((others, left)) => Some(([v] + others, left))
  }

  function NormalFrom(i: nat, vs: seq<Value>): (ns: seq<Value>)
    requires i <= SLOTS && AllSuit(vs)
    ensures |ns| == SLOTS - i
    ensures forall k :: i <= k < SLOTS ==> ns[k - i] == Normal(SlotAt(k), vs[k])
    decreases SLOTS - i
  {
    if i == SLOTS then [] else [Normal(SlotAt(i), vs[i])] + NormalFrom(i + 1, vs)
  }

  ghost predicate AllAgree(vs: seq<Value>, id: Bytes, flags: nat)
    requires AllSuit(vs)
  {
    forall i :: 0 <= i < SLOTS ==> Agree(SlotAt(i), vs[i], id, flags)
  }

  lemma LastIsSidecar(i: nat)
    requires i < SLOTS
    ensures SlotAt(i).SidecarSlot? <==> i == SLOTS - 1
  {}

  lemma {:induction false} SlotsRoundTrip(i: nat, vs: seq<Value>, id: Bytes, flags: nat)
    requires i < SLOTS && AllSuit(vs) && AllAgree(vs, id, flags) && EncodeFrom(i, vs, flags).Some?
    requires vs[SLOTS - 1].RawValue?
    ensures var r := DecodeSlots(i, flags, id, EncodeFrom(i, vs, flags).value);
      if OneField(vs[SLOTS - 1].raw) then r == Some((NormalFrom(i, vs), [])) else r.None? || r.value.1 != []
    decreases SLOTS - i
  {
    hide SlotAt, Suits, Agree, EncodeSlot, DecodeSlot, Normal, OneField;
    LastIsSidecar(i);
    var slot := SlotAt(i);
    var first := EncodeSlot(slot, vs[i], flags).value;
    if i == SLOTS - 1 {
      SidecarRoundTrip(slot, vs[i], id, flags);
      assert EncodeFrom(i, vs, flags).value == first + [] == first;
      LastSlot(i, vs, id, flags, first);
    } else {
      var rest := EncodeFrom(i + 1, vs, flags).value;
      SlotRoundTrip(slot, vs[i], id, flags, rest);
      SlotsRoundTrip(i + 1, vs, id, flags);
    }
  }

  lemma LastSlot(i: nat, vs: seq<Value>, id: Bytes, flags: nat, input: Bytes)
    requires i == SLOTS - 1 && AllSuit(vs)
    ensures DecodeSlots(i, flags, id, input)
         == match DecodeSlot(SlotAt(i), flags, id, input) { case None => None case Some((v, rest)) => Some(([v], rest)) }
    ensures NormalFrom(i, vs) == [Normal(SlotAt(i), vs[i])]
  {
    hide SlotAt, DecodeSlot, Normal;
    assert NormalFrom(i + 1, vs) == [];
    var r := DecodeSlot(SlotAt(i), flags, id, input);
    if r.Some? {
      assert DecodeSlots(i + 1, flags, id, r.value.1) == Some(([], r.value.1));
      assert [r.value.0] + [] == [r.value.0];
    }
  }

  // ---------------------------------------------------------------------
  // Records
  // ---------------------------------------------------------------------

  datatype FlowRecord = FlowRecord(
    id: Option<Bytes>, flowType: Option<Bytes>, state: Option<Bytes>,
    version: Option<u64>, createdAtMs: Option<u64>, updatedAtMs: Option<u64>,
    attempts: Option<u64>, fencingToken: Option<u64>, nextRunAtMs: Option<u64>, priority: Option<u64>,
    ttlMs: Option<u64>, historyHotMaxEvents: Option<u64>, historyMaxEvents: Option<u64>,
    retentionTtlMs: Option<u64>, terminalRetentionUntilMs: Option<u64>, maxActiveMs: Option<u64>,
    partitionKey: Option<Bytes>, payloadRef: Option<Bytes>, parentFlowId: Option<Bytes>,
    parentPartitionKey: Option<Bytes>, rootFlowId: Option<Bytes>, correlationId: Option<Bytes>,
    resultRef: Option<Bytes>, errorRef: Option<Bytes>, leaseOwner: Option<Bytes>, leaseToken: Option<Bytes>,
    leaseDeadlineMs: Option<u64>, runState: Option<Bytes>, rewoundToEventId: Option<Bytes>,
    childGroups: Bytes)

  function ValueAt(r: FlowRecord, i: nat): Value
    requires i < SLOTS
  {
    match i
    case 0 => IntValue(r.attempts)
    case 1 => IntValue(r.fencingToken)
    case 2 => IntValue(r.nextRunAtMs)
    case 3 => IntValue(r.priority)
    case 4 => IntValue(r.ttlMs)
    case 5 => IntValue(r.historyHotMaxEvents)
    case 6 => IntValue(r.historyMaxEvents)
    case 7 => IntValue(r.retentionTtlMs)
    case 8 => IntValue(r.terminalRetentionUntilMs)
    case 9 => IntValue(r.maxActiveMs)
    case 10 => BinValue(r.partitionKey)
    case 11 => BinValue(r.payloadRef)
    case 12 => BinValue(r.parentFlowId)
    case 13 => BinValue(r.parentPartitionKey)
    case 14 => BinValue(r.rootFlowId)
    case 15 => BinValue(r.correlationId)
    case 16 => BinValue(r.resultRef)
    case 17 => BinValue(r.errorRef)
    case 18 => BinValue(r.leaseOwner)
    case 19 => BinValue(r.leaseToken)
    case 20 => IntValue(r.leaseDeadlineMs)
    case 21 => BinValue(r.runState)
    case 22 => BinValue(r.rewoundToEventId)
    case _ => RawValue(r.childGroups)
  }

  function Values(r: FlowRecord): (vs: seq<Value>)
    ensures |vs| == SLOTS
  {
    seq(SLOTS, i requires 0 <= i < SLOTS => ValueAt(r, i))
  }

  function Num(v: Value): Option<u64> { if v.IntValue? then v.num else None }
  function Bin(v: Value): Option<Bytes> { if v.BinValue? then v.bin else None }
  function Raw(v: Value): Bytes { if v.RawValue? then v.raw else [] }

  function WithValues(r: FlowRecord, vs: seq<Value>): FlowRecord
    requires |vs| == SLOTS
  {
    FlowRecord(
      r.id, r.flowType, r.state, r.version, r.createdAtMs, r.updatedAtMs,
      Num(vs[0]), Num(vs[1]), Num(vs[2]), Num(vs[3]), Num(vs[4]), Num(vs[5]), Num(vs[6]), Num(vs[7]), Num(vs[8]),
      Num(vs[9]), Bin(vs[10]), Bin(vs[11]), Bin(vs[12]), Bin(vs[13]), Bin(vs[14]), Bin(vs[15]), Bin(vs[16]),
      Bin(vs[17]), Bin(vs[18]), Bin(vs[19]), Num(vs[20]), Bin(vs[21]), Bin(vs[22]), Raw(vs[23]))
  }

  /** Every byte string fits in memory. */
  predicate Fits(r: FlowRecord) {
    Addressable(r.id) && Addressable(r.flowType) && Addressable(r.state) && AllSuit(Values(r))
  }

  /** An absent attempts, fencing token, priority or lease deadline reads back as zero, and
      empty child groups as the one empty encoding. */
  function OrZero(v: Option<u64>): Option<u64> { if v.None? then Some(0) else v }

  function Defaulted(r: FlowRecord): FlowRecord {
    r.(attempts := OrZero(r.attempts), fencingToken := OrZero(r.fencingToken), priority := OrZero(r.priority),
       leaseDeadlineMs := OrZero(r.leaseDeadlineMs),
       childGroups := if EmptyGroups(r.childGroups) then EMPTY_GROUPS else r.childGroups)
  }

  lemma NormalAt(r: FlowRecord, i: nat)
    requires i < SLOTS && Suits(SlotAt(i), ValueAt(r, i))
    ensures Normal(SlotAt(i), ValueAt(r, i)) == ValueAt(Defaulted(r), i)
  {
    hide EmptyGroups, Addressable;
  }

  lemma Rebuild(r: FlowRecord, d: FlowRecord, vs: seq<Value>)
    requires |vs| == SLOTS && forall i :: 0 <= i < SLOTS ==> vs[i] == ValueAt(d, i)
    requires d.id == r.id && d.flowType == r.flowType && d.state == r.state
    requires d.version == r.version && d.createdAtMs == r.createdAtMs && d.updatedAtMs == r.updatedAtMs
    ensures WithValues(r, vs) == d
  {}

  lemma NormalIsDefaulted(r: FlowRecord)
    requires Fits(r)
    ensures WithValues(r, NormalFrom(0, Values(r))) == Defaulted(r)
  {
    hide ValueAt, SlotAt, Normal, WithValues, Suits, EmptyGroups, OrZero;
    var vs := Values(r);
    forall i | 0 <= i < SLOTS ensures NormalFrom(0, vs)[i] == ValueAt(Defaulted(r), i) {
      assert vs[i] == ValueAt(r, i);
      NormalAt(r, i);
    }
    Rebuild(r, Defaulted(r), NormalFrom(0, vs));
  }

  predicate RequiredBin(v: Option<Bytes>) { v.Some? && v.value != [] }
  predicate RequiredInt(v: Option<u64>) { v.Some? && v.value <= MAX_EXACT_INTEGER }

  /** The encoder's precondition on the required fields. */
  predicate Complete(r: FlowRecord) {
    && RequiredBin(r.id) && RequiredBin(r.flowType) && RequiredBin(r.state)
    && RequiredInt(r.version) && RequiredInt(r.createdAtMs) && RequiredInt(r.updatedAtMs)
  }

  function Exact(v: Option<u64>): Bytes
    requires RequiredInt(v)
  {
    EncodeInt(v).value
  }

  /** `encode_flow_record_compact`. */
  function Encode(r: FlowRecord): Option<Bytes>
    requires Fits(r)
  {
    if !Complete(r) then None
    else
      var vs := Values(r);
      var flags := Flags(vs, r.id.value);
      match EncodeFrom(0, vs, flags)
      case None => None
      case Some(optional) =>
        FlagsSmall(vs, r.id.value);
        Some(MAGIC + (EncodeInt(Some(flags)).value + Required(r, optional)))
  }

  function Required(r: FlowRecord, tail: Bytes): Bytes
    requires Complete(r)
  {
    EncodeBin(r.id) + (EncodeBin(r.flowType) + (EncodeBin(r.state) +
      (Exact(r.version) + (Exact(r.createdAtMs) + (Exact(r.updatedAtMs) + tail)))))
  }

  lemma FlagsSmall(vs: seq<Value>, id: Bytes)
    requires AllSuit(vs)
    ensures Flags(vs, id) < Pow2(FLAG_BITS) <= U64_MAX
  {
    hide Number;
    assert Pow2(5) == 32 && Pow2(10) == 1024 && Pow2(15) == 32768 && Pow2(20) == 0x10_0000 && Pow2(25) == 0x200_0000;
  }

  function DecodeRequiredBin(input: Bytes): Option<(Option<Bytes>, Bytes)> {
    match DecodeBin(input)
    case None => None
    case Some((v, rest)) => if RequiredBin(v) then Some((v, rest)) else None
  }

  function DecodeRequiredInt(input: Bytes): Option<(Option<u64>, Bytes)> {
    match DecodeInt(input)
    case None => None
    case Some((v, rest)) => if RequiredInt(v) then Some((v, rest)) else None
  }

  datatype Inline = Inline(
    id: Option<Bytes>, flowType: Option<Bytes>, state: Option<Bytes>,
    version: Option<u64>, createdAtMs: Option<u64>, updatedAtMs: Option<u64>)

  /** The six inline fields. */
  function DecodeRequired(input: Bytes): Option<(Inline, Bytes)> {
    match DecodeRequiredBin(input) case None => None case Some((id, r1)) =>
    match DecodeRequiredBin(r1) case None => None case Some((flowType, r2)) =>
    match DecodeRequiredBin(r2) case None => None case Some((state, r3)) =>
    match DecodeRequiredInt(r3) case None => None case Some((version, r4)) =>
    match DecodeRequiredInt(r4) case None => None case Some((createdAtMs, r5)) =>
    match DecodeRequiredInt(r5) case None => None case Some((updatedAtMs, r6)) =>
      Some((Inline(id, flowType, state, version, createdAtMs, updatedAtMs), r6))
  }

  function Blank(f: Inline): FlowRecord {
    FlowRecord(
      f.id, f.flowType, f.state, f.version, f.createdAtMs, f.updatedAtMs,
      None, None, None, None, None, None, None, None, None, None,
      None, None, None, None, None, None, None, None, None, None, None, None, None, [])
  }

  /** `decode_flow_record`: known flags only, and every byte is consumed. */
  function Decode(input: Bytes): Option<FlowRecord> {
    if |input| < 4 || input[..4] != MAGIC then None
    else
      match DecodeInt(input[4..])
      case None => None
      case Some((flags, rest)) =>
        if flags.None? || flags.value >= Pow2(FLAG_BITS) then None
        else
          match DecodeRequired(rest)
          case None => None
          case Some((inline, optional)) =>
            if inline.id.None? then None
            else
              match DecodeSlots(0, flags.value, inline.id.value, optional)
              case None => None
              case Some((vs, left)) => if left == [] then Some(WithValues(Blank(inline), vs)) else None
  }

  lemma RequiredRoundTrip(r: FlowRecord, tail: Bytes)
    requires Fits(r) && Complete(r)
    ensures DecodeRequired(Required(r, tail))
         == Some((Inline(r.id, r.flowType, r.state, r.version, r.createdAtMs, r.updatedAtMs), tail))
  {
    hide EncodeInt, DecodeInt, EncodeBin, DecodeBin, Values, AllSuit;
    var t6 := Exact(r.updatedAtMs) + tail;
    var t5 := Exact(r.createdAtMs) + t6;
    var t4 := Exact(r.version) + t5;
    var t3 := EncodeBin(r.state) + t4;
    var t2 := EncodeBin(r.flowType) + t3;
    BinRoundTrip(r.id, t2);
    BinRoundTrip(r.flowType, t3);
    BinRoundTrip(r.state, t4);
    ExactRoundTrip(r.version, t5);
    ExactRoundTrip(r.createdAtMs, t6);
    ExactRoundTrip(r.updatedAtMs, tail);
  }

  lemma ExactRoundTrip(v: Option<u64>, tail: Bytes)
    requires RequiredInt(v)
    ensures DecodeInt(Exact(v) + tail) == Some((v, tail))
  {
    hide EncodeVarint;
    IntRoundTrip(v, tail);
  }

  lemma FlagsAllAgree(vs: seq<Value>, id: Bytes)
    requires AllSuit(vs)
    ensures AllAgree(vs, id, Flags(vs, id))
  {
    hide Flags, Sets, Suits, Bit;
    forall i | 0 <= i < SLOTS ensures Agree(SlotAt(i), vs[i], id, Flags(vs, id)) {
      FlagsAgree(vs, id, i, SlotAt(i).bit);
      if SlotAt(i).RootSlot? {
        FlagsAgree(vs, id, i, SlotAt(i).selfBit);
      }
    }
  }

  /** Whatever the encoder writes reads back as the record with omitted fields at their
      defaults, every byte consumed, if and only if the sidecar is one well-formed field. */
  lemma RecordRoundTrip(r: FlowRecord)
    requires Fits(r) && Encode(r).Some?
    ensures if OneField(r.childGroups) then Decode(Encode(r).value) == Some(Defaulted(r))
            else Decode(Encode(r).value).None?
  {
    hide EncodeInt, DecodeInt, DecodeRequired, Required, DecodeSlots, EncodeFrom, Pow2, WithValues, Flags, AllSuit,
      OneField, Defaulted, NormalFrom, AllAgree;
    var vs, id := Values(r), r.id.value;
    var flags := Flags(vs, id);
    var optional := EncodeFrom(0, vs, flags).value;
    FlagsSmall(vs, id);
    FlagsEncode(flags);
    var body := EncodeInt(Some(flags)).value + Required(r, optional);
    FlagsAllAgree(vs, id);
    assert (MAGIC + body)[..4] == MAGIC && (MAGIC + body)[4..] == body;
    IntRoundTrip(Some(flags), Required(r, optional));
    RequiredRoundTrip(r, optional);
    assert vs[SLOTS - 1] == RawValue(r.childGroups);
    SlotsRoundTrip(0, vs, id, flags);
    NormalIsDefaulted(r);
    SameRecord(r, NormalFrom(0, vs));
  }

  lemma FlagsEncode(flags: nat)
    requires flags < U64_MAX
    ensures EncodeInt(Some(flags)).Some?
  {}

  lemma SameRecord(r: FlowRecord, vs: seq<Value>)
    requires |vs| == SLOTS
    ensures WithValues(Blank(Inline(r.id, r.flowType, r.state, r.version, r.createdAtMs, r.updatedAtMs)), vs)
         == WithValues(r, vs)
  {}

  /** Exactly which records the encoder refuses. */
  lemma EncoderRefuses(r: FlowRecord)
    requires Fits(r)
    ensures Encode(r).None? <==>
      !Complete(r) || exists i :: 0 <= i < SLOTS && SlotAt(i).IntSlot? && ValueAt(r, i) == IntValue(Some(U64_MAX))
  {
    hide EncodeVarint, Flags, Addressable;
    if Complete(r) {
      var vs, id := Values(r), r.id.value;
      FlagsAllAgree(vs, id);
      RefusesFrom(0, vs, id, Flags(vs, id));
    }
  }

  lemma {:induction false} RefusesFrom(i: nat, vs: seq<Value>, id: Bytes, flags: nat)
    requires i <= SLOTS && AllSuit(vs) && AllAgree(vs, id, flags)
    ensures EncodeFrom(i, vs, flags).None? <==>
      exists k :: i <= k < SLOTS && SlotAt(k).IntSlot? && vs[k] == IntValue(Some(U64_MAX))
    decreases SLOTS - i
  {
    hide EncodeVarint, Bit, SlotAt, EncodeBin, EmptyGroups;
    if i < SLOTS {
      RefusesFrom(i + 1, vs, id, flags);
      SmallDefault(i);
      SlotRefuses(SlotAt(i), vs[i], id, flags);
    }
  }

  lemma SmallDefault(i: nat)
    requires i < SLOTS
    ensures SlotAt(i).IntSlot? ==> SlotAt(i).default != Some(U64_MAX)
  {}

  lemma SlotRefuses(slot: Slot, v: Value, id: Bytes, flags: nat)
    requires Suits(slot, v) && Agree(slot, v, id, flags) && (slot.IntSlot? ==> slot.default != Some(U64_MAX))
    ensures EncodeSlot(slot, v, flags).None? <==> slot.IntSlot? && v == IntValue(Some(U64_MAX))
  {}
}
