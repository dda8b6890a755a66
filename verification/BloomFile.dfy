/** The Bloom file and the staging of a transactional batch: the touched bytes are loaded
    in runs, the elements added to them in memory, and the changed runs become
    after-images. */
module BloomFile {
  import opened Bytes
  import opened AfterImages
  import opened Bits
  import opened Bloom

  const MAGIC: u64 := 0x424C_4F4F_4D46_5F31
  const HEADER_SIZE: nat := 32

  // ---------------------------------------------------------------------
  // Bits of a byte
  // ---------------------------------------------------------------------

  /** `b | (1 << k)`. */
  function SetBit(b: nat, k: nat): nat
    decreases k
  {
    if k == 0 then b - b % 2 + 1 else 2 * SetBit(b / 2, k - 1) + b % 2
  }

  lemma {:induction false} SetBitBits(b: nat, k: nat, j: nat)
    ensures Bit(SetBit(b, k), j) <==> j == k || Bit(b, j)
    ensures Bit(b, k) ==> SetBit(b, k) == b
    decreases k + j
  {
    if k > 0 {
      assert SetBit(b, k) / 2 == SetBit(b / 2, k - 1) && SetBit(b, k) % 2 == b % 2;
      SetBitBits(b / 2, k - 1, if j == 0 then 0 else j - 1);
    } else {
      assert SetBit(b, k) / 2 == b / 2;
    }
  }

  lemma {:induction false} SetBitSmall(b: nat, k: nat, width: nat)
    requires k < width && b < Pow2(width)
    ensures SetBit(b, k) < Pow2(width)
    decreases k
  {
    if k > 0 {
      SetBitSmall(b / 2, k - 1, width - 1);
    } else {
      assert Pow2(width) == 2 * Pow2(width - 1);
    }
  }

  function SetInByte(b: byte, k: nat): byte
    requires k < 8
  {
    SetBitSmall(b, k, 8);
    SetBit(b, k)
  }

  // ---------------------------------------------------------------------
  // The file
  // ---------------------------------------------------------------------

  function ByteOf(p: nat): nat { HEADER_SIZE + p / 8 }

  function BodySize(numBits: nat): nat { HEADER_SIZE + (numBits + 7) / 8 }

  lemma ByteInRange(numBits: nat, p: nat)
    requires p < numBits
    ensures HEADER_SIZE <= ByteOf(p) < BodySize(numBits)
  {}

  /** Bit `p` of the array is set. */
  predicate IsSet(body: Bytes, p: nat)
    requires ByteOf(p) < |body|
  {
    Bit(body[ByteOf(p)], p % 8)
  }

  function BitsOf(body: Bytes, numBits: nat): set<nat>
    requires |body| == BodySize(numBits)
  {
    set p: nat | p < numBits && (ByteInRange(numBits, p); IsSet(body, p))
  }

  datatype Contents = Contents(numBits: nat, numHashes: nat, count: u64, bits: set<nat>)

  /** `file_read_header` and the bit array; `count > numBits` is refused by `Acceptable`. */
  function ReadBloom(body: Bytes): (r: Result<Contents>)
    ensures r.Ok? ==>
      && 0 < r.value.numBits <= MAX_BLOOM_BITS && 0 < r.value.numHashes <= MAX_NUM_HASHES
      && |body| == BodySize(r.value.numBits)
      && r.value.bits == BitsOf(body, r.value.numBits)
  {
    SpanValues();
    if |body| < HEADER_SIZE || FromLe(body[..8]) != MAGIC || body[20..24] != [0, 0, 0, 0] then Err
    else
      var numBits, numHashes := FromLe(body[8..16]), FromLe(body[16..20]);
      if numBits == 0 || numBits > MAX_BLOOM_BITS || numHashes == 0 || numHashes > MAX_NUM_HASHES ||
         |body| != BodySize(numBits) then Err
      else Ok(Contents(numBits, numHashes, FromLe(body[24..32]), BitsOf(body, numBits)))
  }

  predicate Acceptable(c: Contents) { c.count <= c.numBits }

  /** The body seen through the touched bytes. */
  function View(body: Bytes, touched: map<nat, (byte, byte)>): (v: Bytes)
    ensures |v| == |body|
  {
    seq(|body|, i requires 0 <= i < |body| => if i in touched then touched[i].1 else body[i])
  }

  /** Setting one bit of a byte adds that bit and no other. */
  lemma SetOne(v: Bytes, numBits: nat, p: nat)
    requires |v| == BodySize(numBits) && p < numBits
    ensures ByteOf(p) < |v|
    ensures BitsOf(v[ByteOf(p) := SetInByte(v[ByteOf(p)], p % 8)], numBits) == BitsOf(v, numBits) + {p}
    ensures IsSet(v, p) ==> v[ByteOf(p) := SetInByte(v[ByteOf(p)], p % 8)] == v
  {
    hide Bit, SetBit, FromLe;
    ByteInRange(numBits, p);
    var o := ByteOf(p);
    var w := v[o := SetInByte(v[o], p % 8)];
    forall q: nat | q < numBits
      ensures ByteOf(q) < |v| && (IsSet(w, q) <==> q == p || IsSet(v, q))
    {
      ByteInRange(numBits, q);
      if ByteOf(q) == o {
        SetBitBits(v[o], p % 8, q % 8);
        SameBit(p, q);
      }
    }
    SetBitBits(v[o], p % 8, p % 8);
  }

  lemma SameBit(p: nat, q: nat)
    requires p / 8 == q / 8
    ensures p % 8 == q % 8 <==> p == q
  {}

  // ---------------------------------------------------------------------
  // Adding elements to the touched bytes
  // ---------------------------------------------------------------------

  /** One mask per hash: the byte's offset and the bit within it. */
  ghost predicate MasksOf(f: Filter, e: Bytes, masks: seq<(nat, nat)>)
    requires f.numBits > 0
  {
    |masks| == f.numHashes &&
    forall i :: 0 <= i < |masks| ==> masks[i] == (ByteOf(f.Position(e, i)), f.Position(e, i) % 8)
  }

  ghost predicate Originals(touched: map<nat, (byte, byte)>, body: Bytes) {
    forall o :: o in touched ==> HEADER_SIZE <= o < |body| && touched[o].0 == body[o]
  }

  /** The inner loop: set the bits of one element. */
  method SetMasks(f: Filter, body: Bytes, touched: map<nat, (byte, byte)>, e: Bytes, masks: seq<(nat, nat)>)
    returns (next: map<nat, (byte, byte)>, anyNew: bool)
    requires f.Valid() && |body| == BodySize(f.numBits) && MasksOf(f, e, masks)
    requires Originals(touched, body)
    requires forall i :: 0 <= i < |masks| ==> masks[i].0 in touched
    ensures Originals(next, body) && next.Keys == touched.Keys
    ensures BitsOf(View(body, next), f.numBits) == BitsOf(View(body, touched), f.numBits) + f.Owned(e)
    ensures anyNew <==> !(f.Owned(e) <= BitsOf(View(body, touched), f.numBits))
  {
    hide Bit, SetBit, BitsOf, View, Filter.Position;
    next, anyNew := touched, false;
    ghost var before := BitsOf(View(body, touched), f.numBits);
    assert before + f.Positions(e, 0) == before;
    for i := 0 to |masks|
      invariant Originals(next, body) && next.Keys == touched.Keys
      invariant BitsOf(View(body, next), f.numBits) == before + f.Positions(e, i)
      invariant anyNew <==> !(f.Positions(e, i) <= before)
    {
      var (offset, bit) := masks[i];
      ghost var p := f.Position(e, i);
      ghost var v := View(body, next);
      ViewAt(body, next, offset);
      SetOne(v, f.numBits, p);
      InBits(v, f.numBits, p);
      var (original, current) := next[offset];
      if !Bit(current, bit) {
        ViewPut(body, next, offset, SetInByte(current, bit));
        next := next[offset := (original, SetInByte(current, bit))];
        anyNew := true;
      }
    }
  }

  lemma InBits(v: Bytes, numBits: nat, p: nat)
    requires |v| == BodySize(numBits) && p < numBits
    ensures ByteOf(p) < |v| && (p in BitsOf(v, numBits) <==> Bit(v[ByteOf(p)], p % 8))
  {
    ByteInRange(numBits, p);
  }

  lemma ViewAt(body: Bytes, touched: map<nat, (byte, byte)>, o: nat)
    requires o < |body| && o in touched
    ensures View(body, touched)[o] == touched[o].1
  {}

  lemma ViewPut(body: Bytes, touched: map<nat, (byte, byte)>, o: nat, b: byte)
    requires o < |body| && o in touched
    ensures View(body, touched[o := (touched[o].0, b)]) == View(body, touched)[o := b]
  {}
}
