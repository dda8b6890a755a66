/** The result list a TopK batch stores in its receipt, so that a replay can answer
    what the first execution answered. */
module TopKResults {
  import opened Bytes

  const MAX_ELEMENT_LEN: nat := 252

  type Evicted = Option<Bytes>

  predicate UpTo(results: seq<Evicted>, n: nat) {
    forall i :: 0 <= i < |results| && results[i].Some? ==> |results[i].value| <= n
  }

  /** What the decoder takes back. */
  predicate Storable(results: seq<Evicted>) { |results| <= U32_MAX && UpTo(results, MAX_ELEMENT_LEN) }

  function EncodeItem(item: Evicted): Bytes
    requires item.Some? ==> |item.value| <= U32_MAX
  {
    match item
    case None => ToLe(U32_MAX, 4)
    case Some(value) => ToLe(|value|, 4) + value
  }

  function EncodeItems(results: seq<Evicted>): Bytes
    requires UpTo(results, U32_MAX)
  {
    if results == [] then [] else EncodeItem(results[0]) + EncodeItems(results[1..])
  }

  /** `v2_encode_mutation_results`: the count and every length must be a u32. */
  function EncodeResults(results: seq<Evicted>): Result<Bytes> {
    if |results| > U32_MAX || !UpTo(results, U32_MAX) then Err
    else Ok(ToLe(|results|, 4) + EncodeItems(results))
  }

  /** One item from the front of `input`, and what is left. */
  function ParseItem(input: Bytes): (r: Result<(Evicted, Bytes)>)
    ensures r.Ok? ==> |r.value.1| < |input|
    ensures r.Ok? && r.value.0.Some? ==> |r.value.0.value| <= MAX_ELEMENT_LEN
  {
    if |input| < 4 then Err
    else
      var length := FromLe(input[..4]);
      if length == U32_MAX then Ok((None, input[4..]))
      else if length > MAX_ELEMENT_LEN || |input| < 4 + length then Err
      else Ok((Some(input[4..4 + length]), input[4 + length..]))
  }

  function ParseItems(input: Bytes, count: nat): (r: Result<(seq<Evicted>, Bytes)>)
    ensures r.Ok? ==> |r.value.0| == count && |r.value.1| <= |input|
    ensures r.Ok? ==> forall i :: 0 <= i < count && r.value.0[i].Some? ==> |r.value.0[i].value| <= MAX_ELEMENT_LEN
    decreases count
  {
    if count == 0 then Ok(([], input))
    else
      match ParseItem(input)
      case Err => Err
      case Ok((first, rest)) =>
        match ParseItems(rest, count - 1)
        case Err => Err
        case Ok((others, left)) => Ok(([first] + others, left))
  }

  function DecodeResults(encoded: Bytes, expected: nat): (r: Result<seq<Evicted>>)
  {
    if |encoded| < 4 || FromLe(encoded[..4]) != expected then Err
    else
      match ParseItems(encoded[4..], expected)
      case Err => Err
      case Ok((results, left)) => if left == [] then Ok(results) else Err
  }

  lemma ItemRoundTrip(item: Evicted, tail: Bytes)
    requires item.Some? ==> |item.value| <= MAX_ELEMENT_LEN
    ensures ParseItem(EncodeItem(item) + tail) == Ok((item, tail))
  {
    hide ToLe, FromLe, Span;
    SpanValues();
    match item
    case None =>
      LeRoundTrip(U32_MAX, 4);
      assert (ToLe(U32_MAX, 4) + tail)[..4] == ToLe(U32_MAX, 4);
    case Some(value) =>
      LeRoundTrip(|value|, 4);
      assert EncodeItem(item) + tail == ToLe(|value|, 4) + (value + (tail + []));
      Join3(ToLe(|value|, 4), value, tail, []);
  }

  lemma ItemCanonical(input: Bytes)
    requires ParseItem(input).Ok?
    ensures var (item, rest) := ParseItem(input).value; EncodeItem(item) + rest == input
  {
    hide ToLe, FromLe, Span;
    LeCanonical(input[..4]);
    var length := FromLe(input[..4]);
    if length == U32_MAX {
      assert input == input[..4] + input[4..];
    } else {
      SplitAt3(input, 4, 4 + length, 4 + length);
      assert input[..4] + input[4..4 + length] + input[4 + length..] == input;
    }
  }

  lemma {:induction false} ItemsRoundTrip(results: seq<Evicted>, tail: Bytes)
    requires Storable(results)
    ensures ParseItems(EncodeItems(results) + tail, |results|) == Ok((results, tail))
    decreases |results|
  {
    hide EncodeItem, ParseItem;
    if results == [] {
      assert EncodeItems(results) + tail == tail;
    } else {
      var rest := EncodeItems(results[1..]) + tail;
      assert EncodeItems(results) + tail == EncodeItem(results[0]) + rest;
      ItemRoundTrip(results[0], rest);
      ItemsRoundTrip(results[1..], tail);
      assert results == [results[0]] + results[1..];
    }
  }

  lemma {:induction false} ItemsCanonical(input: Bytes, count: nat)
    requires count <= U32_MAX && ParseItems(input, count).Ok?
    ensures var (results, left) := ParseItems(input, count).value;
      Storable(results) && EncodeItems(results) + left == input
    decreases count
  {
    hide EncodeItem, ParseItem;
    var (results, left) := ParseItems(input, count).value;
    if count > 0 {
      var (first, rest) := ParseItem(input).value;
      ItemCanonical(input);
      ItemsCanonical(rest, count - 1);
      assert results[1..] == ParseItems(rest, count - 1).value.0;
      assert EncodeItems(results) + left == EncodeItem(first) + (EncodeItems(results[1..]) + left);
    }
  }

  lemma StorableEncodes(results: seq<Evicted>)
    requires Storable(results)
    ensures EncodeResults(results).Ok?
  {}

  lemma StoredDecodes(results: seq<Evicted>)
    requires Storable(results)
    ensures DecodeResults(EncodeResults(results).value, |results|) == Ok(results)
  {
    hide ToLe, FromLe, Span, EncodeItems, ParseItems;
    SpanValues();
    LeRoundTrip(|results|, 4);
    var s := EncodeResults(results).value;
    assert s[..4] == ToLe(|results|, 4) && s[4..] == EncodeItems(results);
    ItemsRoundTrip(results, []);
    assert EncodeItems(results) + [] == EncodeItems(results);
  }

  /** A replay decodes what was stored exactly when no evicted element is longer than an element
      may be; the encoder itself takes longer ones. */
  lemma ResultsRoundTrip(results: seq<Evicted>)
    requires EncodeResults(results).Ok?
    ensures DecodeResults(EncodeResults(results).value, |results|) == Ok(results) <==> UpTo(results, MAX_ELEMENT_LEN)
  {
    hide ToLe, FromLe, Span, EncodeItems, ParseItem;
    if UpTo(results, MAX_ELEMENT_LEN) {
      StoredDecodes(results);
    }
  }

  /** And nothing else decodes: accepted bytes are the encoding of what they decode to. */
  lemma ResultsCanonical(encoded: Bytes, expected: nat)
    requires DecodeResults(encoded, expected).Ok?
    ensures var results := DecodeResults(encoded, expected).value;
      |results| == expected && Storable(results) && EncodeResults(results) == Ok(encoded)
  {
    hide ToLe, FromLe, Span, EncodeItems, ParseItems;
    SpanValues();
    LeCanonical(encoded[..4]);
    ItemsCanonical(encoded[4..], expected);
    var results := DecodeResults(encoded, expected).value;
    assert EncodeItems(results) + [] == EncodeItems(results);
    assert encoded == encoded[..4] + encoded[4..];
  }

  // ---------------------------------------------------------------------
  // The code: a cursor over the stored bytes
  // ---------------------------------------------------------------------

  lemma {:induction false} ParseItemsStep(input: Bytes, n: nat, done: seq<Evicted>, rest: Bytes)
    requires ParseItems(input, n) == Ok((done, rest))
    ensures ParseItem(rest).Err? ==> ParseItems(input, n + 1).Err?
    ensures ParseItem(rest).Ok? ==>
      ParseItems(input, n + 1) == Ok((done + [ParseItem(rest).value.0], ParseItem(rest).value.1))
    decreases n
  {
    hide ParseItem;
    if n == 0 {
      if ParseItem(rest).Ok? {
        assert [ParseItem(rest).value.0] + [] == done + [ParseItem(rest).value.0];
        assert ParseItems(ParseItem(rest).value.1, 0) == Ok(([], ParseItem(rest).value.1));
      }
    } else {
      var (first, tail) := ParseItem(input).value;
      ParseItemsStep(tail, n - 1, done[1..], rest);
      assert done == [first] + done[1..];
      if ParseItem(rest).Ok? {
        assert [first] + (done[1..] + [ParseItem(rest).value.0]) == done + [ParseItem(rest).value.0];
      }
    }
  }

  lemma {:induction false} ParseItemsFails(input: Bytes, n: nat, count: nat)
    requires n <= count && ParseItems(input, n).Err?
    ensures ParseItems(input, count).Err?
    decreases n
  {
    if n > 0 && ParseItem(input).Ok? {
      ParseItemsFails(ParseItem(input).value.1, n - 1, count - 1);
    }
  }

  lemma ItemAt(encoded: Bytes, cursor: nat, n: nat)
    requires cursor + 4 + n <= |encoded|
    ensures encoded[cursor..][..4] == encoded[cursor..cursor + 4]
    ensures encoded[cursor..][4..4 + n] == encoded[cursor + 4..cursor + 4 + n]
    ensures encoded[cursor..][4 + n..] == encoded[cursor + 4 + n..]
  {}

  /** `v2_decode_mutation_results`. */
  method DecodeMutationResults(encoded: Bytes, expected: nat) returns (r: Result<seq<Evicted>>)
    ensures r == DecodeResults(encoded, expected)
  {
    hide FromLe, Span, ParseItems;
    if |encoded| < 4 { return Err; }
    var count := FromLe(encoded[..4]);
    if count != expected { return Err; }
    var results := [];
    var cursor := 4;
    ParseNone(encoded[4..]);
    for n := 0 to count
      invariant 4 <= cursor <= |encoded|
      invariant ParseItems(encoded[4..], n) == Ok((results, encoded[cursor..]))
    {
      ParseItemsStep(encoded[4..], n, results, encoded[cursor..]);
      if cursor + 4 > |encoded| {
        ParseItemsFails(encoded[4..], n + 1, count);
        return Err;
      }
      ItemAt(encoded, cursor, 0);
      var length := FromLe(encoded[cursor..cursor + 4]);
      if length == U32_MAX {
        results, cursor := results + [None], cursor + 4;
      } else if length > MAX_ELEMENT_LEN || cursor + 4 + length > |encoded| {
        ParseItemsFails(encoded[4..], n + 1, count);
        return Err;
      } else {
        ItemAt(encoded, cursor, length);
        results := results + [Some(encoded[cursor + 4..cursor + 4 + length])];
        cursor := cursor + 4 + length;
      }
    }
    if cursor != |encoded| { return Err; }
    return Ok(results);
  }

  lemma ParseNone(input: Bytes)
    ensures ParseItems(input, 0) == Ok(([], input))
  {}
}
