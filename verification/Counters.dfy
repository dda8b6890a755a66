/** Signed 64-bit counters as sketch files store them: little-endian two's
    complement, eight bytes each, one after the other. */
module Counters {
  import opened Bytes

  function ToWord(n: i64): u64 { if n >= 0 then n else n + U64_MAX + 1 }
  function FromWord(w: u64): i64 { if w <= I64_MAX then w else w - U64_MAX - 1 }

  function EncodeI64(n: i64): (s: Bytes)
    ensures |s| == 8
  {
    ToLe(ToWord(n), 8)
  }

  function DecodeI64(s: Bytes): i64
    requires |s| == 8
  {
    SpanValues();
    FromWord(FromLe(s))
  }

  lemma I64RoundTrip(n: i64)
    ensures DecodeI64(EncodeI64(n)) == n
  {
    hide ToLe, FromLe, Span;
    SpanValues();
    LeRoundTrip(ToWord(n), 8);
  }

  predicate AllI64(c: seq<int>) {
    forall i :: 0 <= i < |c| ==> -(I64_MAX + 1) <= c[i] <= I64_MAX
  }

  function EncodeCounters(c: seq<int>): (s: Bytes)
    requires AllI64(c)
    ensures |s| == 8 * |c|
  {
    if c == [] then [] else EncodeI64(c[0]) + EncodeCounters(c[1..])
  }

  function DecodeCounters(s: Bytes): (c: seq<int>)
    ensures |c| == |s| / 8 && AllI64(c)
  {
    if |s| < 8 then [] else [DecodeI64(s[..8])] + DecodeCounters(s[8..])
  }

  lemma {:induction false} CountersRoundTrip(c: seq<int>)
    requires AllI64(c)
    ensures DecodeCounters(EncodeCounters(c)) == c
    decreases |c|
  {
    hide EncodeI64, DecodeI64;
    if c != [] {
      var s := EncodeCounters(c);
      assert s[..8] == EncodeI64(c[0]) && s[8..] == EncodeCounters(c[1..]);
      I64RoundTrip(c[0]);
      CountersRoundTrip(c[1..]);
      assert c == [c[0]] + c[1..];
    }
  }

  /** Counter `i` is decoded from its own eight bytes. */
  lemma {:induction false} DecodedAt(s: Bytes, i: nat)
    requires 8 * i + 8 <= |s|
    ensures DecodeCounters(s)[i] == DecodeI64(s[8 * i..8 * i + 8])
    decreases i
  {
    hide DecodeI64;
    if i > 0 {
      DecodedAt(s[8..], i - 1);
      SliceOfSlice(s, 8, |s|, 8 * (i - 1), 8 * (i - 1) + 8);
      assert s[8..|s|] == s[8..];
    }
  }

  lemma {:induction false} EncodeAppend(a: seq<int>, b: seq<int>)
    requires AllI64(a) && AllI64(b)
    ensures AllI64(a + b) && EncodeCounters(a + b) == EncodeCounters(a) + EncodeCounters(b)
    decreases |a|
  {
    hide EncodeI64;
    if a == [] {
      assert a + b == b;
    } else {
      assert (a + b)[0] == a[0] && (a + b)[1..] == a[1..] + b;
      EncodeAppend(a[1..], b);
    }
  }
}
