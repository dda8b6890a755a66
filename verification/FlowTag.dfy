/** Flow tags and state keys: which tags are accepted, and that a state key can be read in one
    way only. */
module FlowTag {
  import opened Bytes
  import opened Decimals

  // ---------------------------------------------------------------------
  // base64url without padding (sections 5 and 3.5 of RFC 4648)
  // ---------------------------------------------------------------------

  type sextet = n: nat | n < 64

  function Char(v: sextet): byte {
    if v < 26 then 0x41 + v
    else if v < 52 then 0x61 + (v - 26)
    else if v < 62 then 0x30 + (v - 52)
    else if v == 62 then 0x2D else 0x5F
  }

  /** ASCII letters, digits, '-' and '_'. */
  predicate InAlphabet(c: byte) {
    0x41 <= c <= 0x5A || 0x61 <= c <= 0x7A || 0x30 <= c <= 0x39 || c == 0x2D || c == 0x5F
  }

  function ValueOf(c: byte): sextet
    requires InAlphabet(c)
  {
    if 0x41 <= c <= 0x5A then c - 0x41
    else if 0x61 <= c <= 0x7A then c - 0x61 + 26
    else if 0x30 <= c <= 0x39 then c - 0x30 + 52
    else if c == 0x2D then 62 else 63
  }

  lemma CharRoundTrip(v: sextet)
    ensures InAlphabet(Char(v)) && ValueOf(Char(v)) == v
  {}

  lemma ValueRoundTrip(c: byte)
    requires InAlphabet(c)
    ensures Char(ValueOf(c)) == c
  {}

  /** Table 2 of RFC 4648: A to Z, a to z, 0 to 9, then - and _. */
  lemma AlphabetIsTable2()
    ensures Char(0) == Ascii("A")[0] && Char(25) == Ascii("Z")[0]
    ensures Char(26) == Ascii("a")[0] && Char(51) == Ascii("z")[0]
    ensures Char(52) == Ascii("0")[0] && Char(61) == Ascii("9")[0]
    ensures Char(62) == Ascii("-")[0] && Char(63) == Ascii("_")[0]
    ensures forall v: sextet :: v < 61 && v != 25 && v != 51 ==> Char(v + 1) == Char(v) + 1
  {}

  // The four sextets of three bytes, and the three bytes of four sextets.
  function First(a: byte): sextet { a / 4 }
  function Second(a: byte, b: byte): sextet { a % 4 * 16 + b / 16 }
  function Third(b: byte, c: byte): sextet { b % 16 * 4 + c / 64 }
  function Fourth(c: byte): sextet { c % 64 }

  function Wide(v: sextet): nat { v }
  function ByteA(p: sextet, q: sextet): byte { Wide(p) * 4 + Wide(q) / 16 }
  function ByteB(q: sextet, r: sextet): byte { Wide(q) % 16 * 16 + Wide(r) / 4 }
  function ByteC(r: sextet, t: sextet): byte { Wide(r) % 4 * 64 + Wide(t) }

  lemma BytesBack(a: byte, b: byte, c: byte)
    ensures ByteA(First(a), Second(a, b)) == a
    ensures ByteB(Second(a, b), Third(b, c)) == b
    ensures ByteC(Third(b, c), Fourth(c)) == c
    ensures Second(a, 0) % 16 == 0 && Third(b, 0) % 4 == 0
  {}

  /** The four sextets are the 24 bits of the three bytes, highest first. */
  lemma SextetsAreBits(a: byte, b: byte, c: byte)
    ensures ((First(a) * 64 + Second(a, b)) * 64 + Third(b, c)) * 64 + Fourth(c) == (a * 256 + b) * 256 + c
  {}

  lemma SextetsBack(p: sextet, q: sextet, r: sextet, t: sextet)
    ensures First(ByteA(p, q)) == p
    ensures Second(ByteA(p, q), ByteB(q, r)) == q
    ensures Third(ByteB(q, r), ByteC(r, t)) == r
    ensures Fourth(ByteC(r, t)) == t
    ensures q % 16 == 0 ==> Second(ByteA(p, q), 0) == q
    ensures r % 4 == 0 ==> Third(ByteB(q, r), 0) == r
  {}

  /** Bytes cut into sixes of bits; what is missing at the end is zero. */
  function Pack(b: Bytes): seq<sextet> {
    if |b| == 0 then []
    else if |b| == 1 then [First(b[0]), Second(b[0], 0)]
    else if |b| == 2 then [First(b[0]), Second(b[0], b[1]), Third(b[1], 0)]
    else [First(b[0]), Second(b[0], b[1]), Third(b[1], b[2]), Fourth(b[2])] + Pack(b[3..])
  }

  predicate ZeroTail(v: seq<sextet>) {
    (|v| % 4 == 2 ==> v[|v| - 1] % 16 == 0) && (|v| % 4 == 3 ==> v[|v| - 1] % 4 == 0)
  }

  function Unpack(v: seq<sextet>): (b: Bytes)
    requires |v| % 4 != 1
  {
    if |v| == 0 then []
    else if |v| == 2 then [ByteA(v[0], v[1])]
    else if |v| == 3 then [ByteA(v[0], v[1]), ByteB(v[1], v[2])]
    else [ByteA(v[0], v[1]), ByteB(v[1], v[2]), ByteC(v[2], v[3])] + Unpack(v[4..])
  }

  lemma {:induction false} PackLength(b: Bytes)
    ensures |Pack(b)| == |b| / 3 * 4 + (if |b| % 3 == 0 then 0 else |b| % 3 + 1)
    decreases |b|
  {
    hide First, Second, Third, Fourth;
    if |b| >= 3 {
      PackLength(b[3..]);
      PackMore(b);
    }
  }

  lemma {:induction false} UnpackLength(v: seq<sextet>)
    requires |v| % 4 != 1
    ensures |Unpack(v)| == |v| / 4 * 3 + (if |v| % 4 == 0 then 0 else |v| % 4 - 1)
    decreases |v|
  {
    hide ByteA, ByteB, ByteC;
    if |v| >= 4 {
      UnpackLength(v[4..]);
    }
  }

  lemma ShortZeroTail(p: sextet, q: sextet, r: sextet)
    ensures ZeroTail([]) && (q % 16 == 0 ==> ZeroTail([p, q])) && (r % 4 == 0 ==> ZeroTail([p, q, r]))
  {}

  lemma {:induction false} PackZeroTail(b: Bytes)
    ensures |Pack(b)| % 4 != 1 && ZeroTail(Pack(b))
    decreases |b|
  {
    hide First, Second, Third, Fourth, ZeroTail;
    if |b| == 0 {
      ShortZeroTail(0, 0, 0);
    } else if |b| == 1 {
      BytesBack(b[0], 0, 0);
      ShortZeroTail(First(b[0]), Second(b[0], 0), 0);
    } else if |b| == 2 {
      BytesBack(b[0], b[1], 0);
      ShortZeroTail(First(b[0]), Second(b[0], b[1]), Third(b[1], 0));
    } else {
      PackZeroTail(b[3..]);
      PackMore(b);
      TailKept(Pack(b));
    }
  }

  lemma PackMore(b: Bytes)
    requires |b| >= 3
    ensures |Pack(b)| >= 4 && Pack(b)[4..] == Pack(b[3..])
    ensures Pack(b)[..4] == [First(b[0]), Second(b[0], b[1]), Third(b[1], b[2]), Fourth(b[2])]
  {}

  lemma {:induction false} PackUndone(b: Bytes)
    ensures |Pack(b)| % 4 != 1 && ZeroTail(Pack(b)) && Unpack(Pack(b)) == b
    decreases |b|
  {
    hide First, Second, Third, Fourth, ByteA, ByteB, ByteC, ZeroTail;
    PackZeroTail(b);
    if |b| == 1 {
      BytesBack(b[0], 0, 0);
    } else if |b| == 2 {
      BytesBack(b[0], b[1], 0);
    } else if |b| >= 3 {
      BytesBack(b[0], b[1], b[2]);
      PackUndone(b[3..]);
      PackMore(b);
      hide Pack;
      var v := Pack(b);
      assert v[0] == v[..4][0] && v[1] == v[..4][1] && v[2] == v[..4][2] && v[3] == v[..4][3];
      assert b == [b[0], b[1], b[2]] + b[3..];
    }
  }

  lemma TailKept(v: seq<sextet>)
    requires |v| >= 4
    ensures ZeroTail(v) <==> ZeroTail(v[4..])
  {}

  lemma {:induction false} UnpackUndone(v: seq<sextet>)
    requires |v| % 4 != 1 && ZeroTail(v)
    ensures Pack(Unpack(v)) == v
    decreases |v|
  {
    hide First, Second, Third, Fourth, ByteA, ByteB, ByteC;
    if |v| == 2 {
      SextetsBack(v[0], v[1], 0, 0);
    } else if |v| == 3 {
      SextetsBack(v[0], v[1], v[2], 0);
    } else if |v| >= 4 {
      SextetsBack(v[0], v[1], v[2], v[3]);
      TailKept(v);
      UnpackUndone(v[4..]);
      var b := Unpack(v);
      assert b[3..] == Unpack(v[4..]);
      assert v == [v[0], v[1], v[2], v[3]] + v[4..];
    }
  }

  function Encode(b: Bytes): (s: Bytes)
    ensures |s| == |Pack(b)|
  {
    seq(|Pack(b)|, i requires 0 <= i < |Pack(b)| => Char(Pack(b)[i]))
  }

  // ---------------------------------------------------------------------
  // Accepted tags
  // ---------------------------------------------------------------------

  const PLAIN: Bytes := [0x66]                      // f
  const BUCKET: Bytes := [0x66, 0x61, 0x3A]         // fa:
  const DIGEST: Bytes := [0x66, 0x3A]               // f:

  predicate AllInAlphabet(s: Bytes) { forall i :: 0 <= i < |s| ==> InAlphabet(s[i]) }

  /** The last character of a 16-byte digest: A, Q, g or w. */
  predicate EndsIn16(c: byte) { c == 0x41 || c == 0x51 || c == 0x67 || c == 0x77 }

  /** The last character of a 32-byte digest. */
  predicate EndsIn32(c: byte) {
    c == 0x41 || c == 0x45 || c == 0x49 || c == 0x4D || c == 0x51 || c == 0x55 || c == 0x59 || c == 0x63 ||
    c == 0x67 || c == 0x6B || c == 0x6F || c == 0x73 || c == 0x77 || c == 0x30 || c == 0x34 || c == 0x38
  }

  predicate ValidDigest(d: Bytes) {
    if |d| == 22 then AllInAlphabet(d[..21]) && EndsIn16(d[21])
    else |d| == 43 && AllInAlphabet(d[..42]) && EndsIn32(d[42])
  }

  /** The fold over a bucket's digits saturates at the largest u16. */
  function SaturatedDecimal(s: Bytes): nat
    requires Digits(s)
  {
    if s == [] then 0
    else
      var before := SaturatedDecimal(s[..|s| - 1]);
      var scaled := if before * 10 > 0xFFFF then 0xFFFF else before * 10;
      var sum := scaled + (s[|s| - 1] - 0x30);
      if sum > 0xFFFF then 0xFFFF else sum
  }

  predicate ValidBucket(s: Bytes) {
    s != [] && (|s| == 1 || s[0] != 0x30) && Digits(s) && SaturatedDecimal(s) <= 255
  }

  /** `valid_flow_tag`. */
  predicate ValidTag(tag: Bytes) {
    if tag == PLAIN then true
    else if StartsWith(tag, BUCKET) then ValidBucket(tag[3..])
    else StartsWith(tag, DIGEST) && ValidDigest(tag[2..])
  }

  // ---------------------------------------------------------------------
  // Accepted digests are exactly the encodings
  // ---------------------------------------------------------------------

  lemma LastCharacter(c: byte)
    ensures EndsIn16(c) <==> InAlphabet(c) && ValueOf(c) % 16 == 0
    ensures EndsIn32(c) <==> InAlphabet(c) && ValueOf(c) % 4 == 0
  {}

  /** A string of alphabet characters whose unused last bits are zero is the encoding of the
      bytes it unpacks to. */
  lemma AlphabetIsEncoding(d: Bytes) returns (b: Bytes)
    requires AllInAlphabet(d) && |d| % 4 != 1
    requires |d| % 4 == 2 ==> ValueOf(d[|d| - 1]) % 16 == 0
    requires |d| % 4 == 3 ==> ValueOf(d[|d| - 1]) % 4 == 0
    ensures d == Encode(b) && |b| == |d| / 4 * 3 + (if |d| % 4 == 0 then 0 else |d| % 4 - 1)
  {
    hide Pack, Unpack, ValueOf, Char;
    var v: seq<sextet> := seq(|d|, i requires 0 <= i < |d| => ValueOf(d[i]));
    b := Unpack(v);
    UnpackUndone(v);
    UnpackLength(v);
    forall i | 0 <= i < |d| ensures Encode(b)[i] == d[i] {
      ValueRoundTrip(d[i]);
    }
  }

  lemma EncodingIsAlphabet(b: Bytes)
    ensures AllInAlphabet(Encode(b)) && |Encode(b)| == |Pack(b)| && |Encode(b)| % 4 != 1
    ensures |Encode(b)| % 4 == 2 ==> ValueOf(Encode(b)[|Encode(b)| - 1]) % 16 == 0
    ensures |Encode(b)| % 4 == 3 ==> ValueOf(Encode(b)[|Encode(b)| - 1]) % 4 == 0
  {
    hide Pack, Unpack, ValueOf, Char, InAlphabet;
    PackUndone(b);
    forall i | 0 <= i < |Pack(b)|
      ensures InAlphabet(Encode(b)[i]) && ValueOf(Encode(b)[i]) == Pack(b)[i]
    {
      CharRoundTrip(Pack(b)[i]);
    }
  }

  ghost predicate IsDigest(d: Bytes) { exists b: Bytes :: (|b| == 16 || |b| == 32) && d == Encode(b) }

  /** Accepted digests are exactly the base64url encodings of 16-byte and 32-byte strings. */
  lemma DigestsAreEncodings(d: Bytes)
    ensures ValidDigest(d) <==> IsDigest(d)
  {
    hide InAlphabet, ValueOf, Encode, EndsIn16, EndsIn32, Pack;
    if ValidDigest(d) {
      var n := |d| - 1;
      LastCharacter(d[n]);
      assert d == d[..n] + [d[n]];
      var b := AlphabetIsEncoding(d);
      assert |b| == 16 || |b| == 32;
    }
    if b: Bytes :| (|b| == 16 || |b| == 32) && d == Encode(b) {
      EncodingIsAlphabet(b);
      PackLength(b);
      LastCharacter(d[|d| - 1]);
      assert |d| == 22 || |d| == 43;
    }
  }

  // ---------------------------------------------------------------------
  // Accepted buckets are exactly the decimals up to 255
  // ---------------------------------------------------------------------

  lemma {:induction false} Saturates(s: Bytes)
    requires Digits(s)
    ensures SaturatedDecimal(s) == if Decimal(s) > 0xFFFF then 0xFFFF else Decimal(s)
    decreases |s|
  {
    if s != [] {
      Saturates(s[..|s| - 1]);
    }
  }

  ghost predicate IsBucket(s: Bytes) { exists n: nat :: n <= 255 && s == ToDecimal(n) }

  lemma BucketsAreDecimals(s: Bytes)
    ensures ValidBucket(s) <==> IsBucket(s)
  {
    hide ToDecimal, Decimal;
    if ValidBucket(s) {
      Saturates(s);
      DecimalCanonical(s);
      assert Decimal(s) <= 255 && s == ToDecimal(Decimal(s));
    }
    if n: nat :| n <= 255 && s == ToDecimal(n) {
      DecimalRoundTrip(n);
      NoLeadingZero(n);
      Saturates(s);
    }
  }

  /** The accepted tags, by what they stand for. */
  lemma TagsAreCanonical(tag: Bytes)
    ensures ValidTag(tag) <==>
      || tag == PLAIN
      || (exists n: nat :: n <= 255 && tag == BUCKET + ToDecimal(n))
      || (exists b: Bytes :: (|b| == 16 || |b| == 32) && tag == DIGEST + Encode(b))
  {
    hide ToDecimal, Encode, ValidBucket, ValidDigest, Pack;
    if ValidTag(tag) && tag != PLAIN {
      if StartsWith(tag, BUCKET) {
        BucketsAreDecimals(tag[3..]);
        var n: nat :| n <= 255 && tag[3..] == ToDecimal(n);
        assert tag == BUCKET + ToDecimal(n);
      } else {
        DigestsAreEncodings(tag[2..]);
        var b: Bytes :| (|b| == 16 || |b| == 32) && tag[2..] == Encode(b);
        assert tag == DIGEST + Encode(b);
      }
    }
    if n: nat :| n <= 255 && tag == BUCKET + ToDecimal(n) {
      assert tag[3..] == ToDecimal(n) && tag[..3] == BUCKET;
      BucketsAreDecimals(tag[3..]);
    } else if b: Bytes :| (|b| == 16 || |b| == 32) && tag == DIGEST + Encode(b) {
      assert tag[2..] == Encode(b) && tag[..2] == DIGEST;
      assert tag[1] == 0x3A;
      DigestsAreEncodings(tag[2..]);
    }
  }

  // ---------------------------------------------------------------------
  // State keys
  // ---------------------------------------------------------------------

  const OPEN: Bytes := [0x66, 0x3A, 0x7B]           // f:{
  const MARKER: Bytes := [0x7D, 0x3A, 0x73, 0x3A]   // }:s:

  function StateKey(tag: Bytes, id: Bytes): Bytes { OPEN + (tag + (MARKER + id)) }

  /** The first position of the marker. */
  function FindMarker(s: Bytes): (r: Option<nat>)
    ensures r.Some? ==> r.value + 4 <= |s| && s[r.value..r.value + 4] == MARKER
  {
    if |s| < 4 then None
    else if s[..4] == MARKER then Some(0)
    else
      match FindMarker(s[1..])
      case None => None
      case Some(i) =>
        assert s[1..][i..i + 4] == s[i + 1..i + 5];
        Some(i + 1)
  }

  /** `state_key_owns_id`. */
  predicate OwnsId(key: Bytes, id: Bytes) {
    StartsWith(key, OPEN) &&
    match FindMarker(key[3..])
    case None => false
    case Some(p) => ValidTag(key[3..][..p]) && key[3..][p + 4..] == id
  }

  lemma TagHasNoBrace(tag: Bytes)
    requires ValidTag(tag)
    ensures 0x7D !in tag
  {}

  lemma {:induction false} MarkerFollowsTag(tag: Bytes, id: Bytes)
    requires 0x7D !in tag
    ensures FindMarker(tag + (MARKER + id)) == Some(|tag|)
    decreases |tag|
  {
    var s := tag + (MARKER + id);
    if tag == [] {
      assert s == MARKER + id;
      assert s[..4] == MARKER;
    } else {
      MarkerFollowsTag(tag[1..], id);
      assert s[1..] == tag[1..] + (MARKER + id);
      assert s[0] == tag[0] && s[..4][0] == s[0];
    }
  }

  /** A state key owns exactly the id behind its tag's marker, whatever the id contains. */
  lemma OwnershipIsExact(key: Bytes, id: Bytes)
    ensures OwnsId(key, id) <==> exists tag :: ValidTag(tag) && key == StateKey(tag, id)
  {
    hide ValidTag, FindMarker;
    if OwnsId(key, id) {
      var p := FindMarker(key[3..]).value;
      var tag := key[3..][..p];
      assert key[3..] == tag + (MARKER + id) by {
        SplitAt3(key[3..], p, p + 4, |key| - 3);
        assert key[3..][|key| - 3..] == [] && MARKER + (id + []) == MARKER + id;
      }
      assert key == StateKey(tag, id);
    }
    if tag :| ValidTag(tag) && key == StateKey(tag, id) {
      TagHasNoBrace(tag);
      MarkerFollowsTag(tag, id);
      KeyParts(tag, id);
    }
  }

  lemma KeyParts(tag: Bytes, id: Bytes)
    ensures StartsWith(StateKey(tag, id), OPEN)
    ensures var rest := StateKey(tag, id)[3..];
      rest == tag + (MARKER + id) && rest[..|tag|] == tag && rest[|tag| + 4..] == id
  {}

  /** Two valid tags and ids never share a state key. */
  lemma StateKeyDetermines(t1: Bytes, i1: Bytes, t2: Bytes, i2: Bytes)
    requires ValidTag(t1) && ValidTag(t2) && StateKey(t1, i1) == StateKey(t2, i2)
    ensures t1 == t2 && i1 == i2
  {
    hide ValidTag, FindMarker;
    TagHasNoBrace(t1);
    TagHasNoBrace(t2);
    MarkerFollowsTag(t1, i1);
    MarkerFollowsTag(t2, i2);
    KeyParts(t1, i1);
    KeyParts(t2, i2);
  }
}
