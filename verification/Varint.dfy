/** Variable-length integers: unsigned LEB128 (section 7.6 of DWARF 5) restricted to u64 and
    to canonical encodings. */
module Varint {
  import opened Bytes

  function EncodeVarint(n: nat): (s: Bytes)
    ensures |s| > 0
  {
    if n < 128 then [n] else [n % 128 + 128] + EncodeVarint(n / 128)
  }

  /** Reading from byte number `index` on; byte ten carries one bit, and no longer encoding
      ends in a zero byte. */
  function DecodeFrom(input: Bytes, index: nat): (r: Option<(nat, Bytes)>)
    requires index < 10
    ensures r.Some? ==> |r.value.1| < |input|
    decreases 10 - index
  {
    if input == [] then None
    else
      var b := input[0];
      if index == 9 && b > 1 then None
      else if b < 128 then (if index > 0 && b == 0 then None else Some((b, input[1..])))
      else
        match DecodeFrom(input[1..], index + 1)
        case None => None
        case Some((high, rest)) => Some((b % 128 + 128 * high, rest))
  }

  function DecodeVarint(input: Bytes): (r: Option<(nat, Bytes)>)
    ensures r.Some? ==> |r.value.1| < |input|
  {
    DecodeFrom(input, 0)
  }

  /** The largest value whose encoding may start at byte `index`. */
  function Limit(index: nat): nat
    requires index < 10
    decreases 10 - index
  {
    if index == 9 then 1 else 127 + 128 * Limit(index + 1)
  }

  lemma LimitIsU64()
    ensures Limit(0) == U64_MAX && Limit(9) == 1
  {}

  lemma {:induction false} RoundTripFrom(n: nat, index: nat, tail: Bytes)
    requires index < 10 && n <= Limit(index) && (index == 0 || n > 0)
    ensures DecodeFrom(EncodeVarint(n) + tail, index) == Some((n, tail))
    decreases n
  {
    var s := EncodeVarint(n) + tail;
    if n >= 128 {
      assert s[1..] == EncodeVarint(n / 128) + tail;
      RoundTripFrom(n / 128, index + 1, tail);
    } else {
      assert s[1..] == tail;
    }
  }

  lemma {:induction false} CanonicalFrom(input: Bytes, index: nat)
    requires index < 10 && DecodeFrom(input, index).Some?
    ensures var (n, rest) := DecodeFrom(input, index).value;
      n <= Limit(index) && (index > 0 ==> n > 0) && input == EncodeVarint(n) + rest
    decreases 10 - index
  {
    assert input == [input[0]] + input[1..];
    if index < 9 {
      if input[0] >= 128 {
        CanonicalFrom(input[1..], index + 1);
        var (high, rest) := DecodeFrom(input[1..], index + 1).value;
        var n := input[0] % 128 + 128 * high;
        assert n / 128 == high && n % 128 == input[0] % 128;
        assert input == [input[0]] + (EncodeVarint(high) + rest);
      }
    }
  }

  /** Every u64 round-trips, and nothing else follows it. */
  lemma VarintRoundTrip(n: nat, tail: Bytes)
    requires n <= U64_MAX
    ensures DecodeVarint(EncodeVarint(n) + tail) == Some((n, tail))
  {
    LimitIsU64();
    RoundTripFrom(n, 0, tail);
  }

  /** Exactly the encodings are accepted. */
  lemma VarintCanonical(input: Bytes)
    requires DecodeVarint(input).Some?
    ensures var (n, rest) := DecodeVarint(input).value; n <= U64_MAX && input == EncodeVarint(n) + rest
  {
    LimitIsU64();
    CanonicalFrom(input, 0);
  }

  // ---------------------------------------------------------------------
  // The loops
  // ---------------------------------------------------------------------

  method PushVarint(out: Bytes, value: u64) returns (next: Bytes)
    ensures next == out + EncodeVarint(value)
  {
    next := out;
    var left: nat := value;
    while left >= 128
      invariant next + EncodeVarint(left) == out + EncodeVarint(value)
    {
      assert next + [left % 128 + 128] + EncodeVarint(left / 128) == next + EncodeVarint(left);
      next := next + [left % 128 + 128];
      left := left / 128;
    }
    next := next + [left];
  }

  function Combine(low: nat, weight: nat, r: Option<(nat, Bytes)>): Option<(nat, Bytes)> {
    match r
    case None => None
    case Some((high, rest)) => Some((low + weight * high, rest))
  }

  lemma CombineStep(low: nat, weight: nat, b: nat, high: nat)
    ensures low + weight * (b + 128 * high) == (low + weight * b) + 128 * weight * high
  {}

  /** One byte shifted into place. */
  lemma ShiftedIn(rest: Bytes, index: nat, low: nat, weight: nat)
    requires index < 9 && rest != [] && rest[0] >= 128
    ensures Combine(low, weight, DecodeFrom(rest, index))
         == Combine(low + weight * (rest[0] % 128), 128 * weight, DecodeFrom(rest[1..], index + 1))
  {
    if DecodeFrom(rest[1..], index + 1).Some? {
      CombineStep(low, weight, rest[0] % 128, DecodeFrom(rest[1..], index + 1).value.0);
    }
  }

  lemma LastByte(rest: Bytes, index: nat, low: nat, weight: nat)
    requires index < 10 && rest != [] && rest[0] < 128
    ensures Combine(low, weight, DecodeFrom(rest, index))
         == if (index == 9 && rest[0] > 1) || (index > 0 && rest[0] == 0) then None
            else Some((low + weight * rest[0], rest[1..]))
  {}

  /** `decode_varint`: ten bytes at most, each shifted into place. */
  method ReadVarint(input: Bytes) returns (r: Option<(nat, Bytes)>)
    ensures r == DecodeVarint(input)
  {
    var result: nat, shift: nat, rest := 0, 1, input;
    for index := 0 to 10
      invariant index < 10 ==> DecodeVarint(input) == Combine(result, shift, DecodeFrom(rest, index))
      invariant index == 10 ==> DecodeVarint(input).None?
    {
      hide Combine;
      if rest == [] {
        NothingLeft(index, result, shift);
        return None;
      }
      var b: nat := rest[0];
      if b < 128 {
        LastByte(rest, index, result, shift);
        if index == 9 && b > 1 { return None; }
        if index > 0 && b == 0 { return None; }
        return Some((result + shift * b, rest[1..]));
      }
      if index == 9 {
        TooLong(rest, result, shift);
        return None;
      }
      ShiftedIn(rest, index, result, shift);
      result, shift, rest := result + shift * (b % 128), 128 * shift, rest[1..];
    }
    return None;
  }

  lemma NothingLeft(index: nat, low: nat, weight: nat)
    requires index < 10
    ensures Combine(low, weight, DecodeFrom([], index)).None?
  {}

  lemma TooLong(rest: Bytes, low: nat, weight: nat)
    requires rest != [] && rest[0] >= 128
    ensures Combine(low, weight, DecodeFrom(rest, 9)).None?
  {}
}
