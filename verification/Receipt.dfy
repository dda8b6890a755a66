/** Mutation tokens, transactions and the durable receipt format of
    probabilistic sidecars. The checksum is a parameter. */
module Receipt {
  import opened Bytes
  import opened AfterImages

  /** "FPTXN001" */
  const MAGIC: Bytes := [0x46, 0x50, 0x54, 0x58, 0x4E, 0x30, 0x30, 0x31]
  const VERSION: u32 := 1
  const FIXED_HEADER_SIZE := 56
  const CHECKSUM_SIZE := 4
  const TOKEN_SIZE := 16
  const MAX_TRANSACTION_BYTES: nat := 512 * 1024 * 1024
  const MAX_AFTER_IMAGES: nat := 20_000_000
  const COMPACT_RECEIPT_THRESHOLD_BYTES: nat := 1024 * 1024

  type Checksum = Bytes -> u32

  datatype Token = Token(index: u64, ordinal: u64) {
    predicate Less(other: Token) {
      index < other.index || (index == other.index && ordinal < other.ordinal)
    }

    /** Index and ordinal as the high and the low half of one number. */
    function Number(): nat { index * (U64_MAX + 1) + ordinal }

    function Encode(): (s: Bytes)
      ensures |s| == TOKEN_SIZE
    {
      ToLe(index, 8) + ToLe(ordinal, 8)
    }
  }

  const ZERO := Token(0, 0)

  /** Tokens are ordered as numbers, so of two different tokens exactly one is less. */
  lemma TokenOrder(a: Token, b: Token)
    ensures a.Less(b) <==> a.Number() < b.Number()
    ensures a == b <==> a.Number() == b.Number()
  {
    if a.index < b.index {
      assert (a.index + 1) * (U64_MAX + 1) <= b.index * (U64_MAX + 1);
    } else if b.index < a.index {
      assert (b.index + 1) * (U64_MAX + 1) <= a.index * (U64_MAX + 1);
    }
  }

  function DecodeToken(encoded: Bytes): (r: Result<Token>)
    ensures r.Ok? <==> |encoded| == TOKEN_SIZE
  {
    if |encoded| != TOKEN_SIZE then Err
    else
      SpanValues();
      Ok(Token(FromLe(encoded[0..8]), FromLe(encoded[8..16])))
  }

  lemma TokenRoundTrip(t: Token)
    ensures DecodeToken(t.Encode()) == Ok(t)
  {
    SpanValues();
    LeRoundTrip(t.index, 8);
    LeRoundTrip(t.ordinal, 8);
    assert t.Encode()[0..8] == ToLe(t.index, 8) && t.Encode()[8..16] == ToLe(t.ordinal, 8);
  }

  lemma TokenCanonical(s: Bytes)
    requires |s| == TOKEN_SIZE
    ensures DecodeToken(s).value.Encode() == s
  {
    LeCanonical(s[0..8]);
    LeCanonical(s[8..16]);
    assert s == s[0..8] + s[8..16];
  }

  datatype Txn = Txn(token: Token, tokenOffset: u64, fileSize: u64, images: seq<Image>, result: Bytes)

  // ---------------------------------------------------------------------
  // Validation
  // ---------------------------------------------------------------------

  predicate ValidTokenLocation(tokenOffset: u64, fileSize: u64) {
    tokenOffset + TOKEN_SIZE == fileSize
  }

  predicate ValidImages(images: seq<Image>, fileSize: u64) {
    |images| <= MAX_AFTER_IMAGES && Fits(images, fileSize)
  }

  function ImagesSize(images: seq<Image>): nat {
    if images == [] then 0 else 16 + |images[0].bytes| + ImagesSize(images[1..])
  }

  function EncodedSize(t: Txn): nat {
    FIXED_HEADER_SIZE + |t.result| + CHECKSUM_SIZE + ImagesSize(t.images)
  }

  /** `validate_transaction_encoding`. */
  predicate ValidEncoding(t: Txn) {
    && ValidTokenLocation(t.tokenOffset, t.fileSize)
    && ValidImages(t.images, t.fileSize)
    && |t.result| <= U32_MAX
    && EncodedSize(t) <= MAX_TRANSACTION_BYTES
  }

  // ---------------------------------------------------------------------
  // Encoding
  // ---------------------------------------------------------------------

  function EncodeImage(im: Image, tail: Bytes): (s: Bytes)
    ensures |s| == 16 + |im.bytes| + |tail|
  {
    ToLe(im.offset, 8) + (ToLe(|im.bytes|, 8) + (im.bytes + tail))
  }

  function EncodeImages(images: seq<Image>, tail: Bytes): (s: Bytes)
    ensures |s| == ImagesSize(images) + |tail|
  {
    if images == [] then tail else EncodeImage(images[0], EncodeImages(images[1..], tail))
  }

  function EncodeHeader(token: Token, tokenOffset: u64, fileSize: u64, imageCount: nat, resultLen: nat): (s: Bytes)
    ensures |s| == FIXED_HEADER_SIZE
  {
    MAGIC + ToLe(VERSION, 4) + ToLe(0, 4) + ToLe(token.index, 8) + ToLe(token.ordinal, 8)
    + ToLe(tokenOffset, 8) + ToLe(fileSize, 8) + ToLe(imageCount, 4) + ToLe(resultLen, 4)
  }

  function Content(t: Txn): (s: Bytes)
    ensures |s| == FIXED_HEADER_SIZE + ImagesSize(t.images) + |t.result|
  {
    EncodeHeader(t.token, t.tokenOffset, t.fileSize, |t.images|, |t.result|)
    + EncodeImages(t.images, t.result)
  }

  /** What `write_transaction` publishes, or an error and nothing is published. */
  function EncodeReceipt(t: Txn, crc: Checksum): (r: Result<Bytes>)
    ensures r.Ok? <==> ValidEncoding(t)
    ensures r.Ok? ==> |r.value| == EncodedSize(t)
  {
    if ValidEncoding(t) then Ok(Content(t) + ToLe(crc(Content(t)), 4)) else Err
  }

  // ---------------------------------------------------------------------
  // Decoding
  // ---------------------------------------------------------------------

  /** Reads one image from the front; the second part is what follows it. */
  function ParseImage(input: Bytes): (r: Result<(Image, Bytes)>)
    ensures r.Ok? ==> |input| == 16 + |r.value.0.bytes| + |r.value.1|
  {
    if |input| < 16 then Err
    else
      SpanValues();
      var end := 16 + FromLe(input[8..16]);
      if end > |input| then Err
      else Ok((Image(FromLe(input[..8]), input[16..end]), input[end..]))
  }

  function ParseImages(input: Bytes, count: nat): (r: Result<(seq<Image>, Bytes)>)
    ensures r.Ok? ==> |r.value.0| == count
    decreases count
  {
    if count == 0 then Ok(([], input))
    else match ParseImage(input)
      case Err => Err
      case Ok((image, rest)) => Prepend([image], ParseImages(rest, count - 1))
  }

  function Prepend(images: seq<Image>, r: Result<(seq<Image>, Bytes)>): Result<(seq<Image>, Bytes)> {
    match r
    case Err => Err
    case Ok((more, rest)) => Ok((images + more, rest))
  }

  /** The checks `decode_transaction` makes on the fixed part, and the fields it reads there. */
  function DecodeHeader(encoded: Bytes, crc: Checksum): (r: Result<(Token, u64, u64, u32, u32)>)
    ensures r.Ok? ==> |encoded| >= FIXED_HEADER_SIZE + CHECKSUM_SIZE
  {
    if |encoded| < FIXED_HEADER_SIZE + CHECKSUM_SIZE || |encoded| > MAX_TRANSACTION_BYTES then Err
    else
      SpanValues();
      var contentLen := |encoded| - CHECKSUM_SIZE;
      if crc(encoded[..contentLen]) != FromLe(encoded[contentLen..]) then Err
      else if encoded[0..8] != MAGIC then Err
      else if FromLe(encoded[8..12]) != VERSION || FromLe(encoded[12..16]) != 0 then Err
      else
        var token := Token(FromLe(encoded[16..24]), FromLe(encoded[24..32]));
        var tokenOffset, fileSize := FromLe(encoded[32..40]), FromLe(encoded[40..48]);
        var imageCount, resultLen := FromLe(encoded[48..52]), FromLe(encoded[52..56]);
        if imageCount > MAX_AFTER_IMAGES || !ValidTokenLocation(tokenOffset, fileSize) then Err
        else Ok((token, tokenOffset, fileSize, imageCount, resultLen))
  }

  function DecodeReceipt(encoded: Bytes, crc: Checksum): (r: Result<Txn>)
  {
    match DecodeHeader(encoded, crc)
    case Err => Err
    case Ok((token, tokenOffset, fileSize, imageCount, resultLen)) =>
      var contentLen := |encoded| - CHECKSUM_SIZE;
      match ParseImages(encoded[FIXED_HEADER_SIZE..contentLen], imageCount)
      case Err => Err
      case Ok((images, rest)) =>
        if |rest| != resultLen then Err
        else if !ValidImages(images, fileSize) then Err
        else Ok(Txn(token, tokenOffset, fileSize, images, rest))
  }

  // ---------------------------------------------------------------------
  // The format is a bijection between valid transactions and accepted bytes
  // ---------------------------------------------------------------------

  lemma ImageRoundTrip(im: Image, tail: Bytes)
    requires im.End() <= U64_MAX
    ensures ParseImage(EncodeImage(im, tail)) == Ok((im, tail))
  {
    var a, b := ToLe(im.offset, 8), ToLe(|im.bytes|, 8);
    SpanValues();
    LeRead(a, im.offset, 8);
    LeRead(b, |im.bytes|, 8);
    Join3(a, b, im.bytes, tail);
  }

  lemma ImageCanonical(input: Bytes)
    requires ParseImage(input).Ok?
    ensures var (im, tail) := ParseImage(input).value; EncodeImage(im, tail) == input
  {
    LeCanonical(input[..8]);
    LeCanonical(input[8..16]);
    SplitAt3(input, 8, 16, 16 + FromLe(input[8..16]));
  }

  lemma {:induction false} ImagesRoundTrip(images: seq<Image>, tail: Bytes)
    requires Fits(images, U64_MAX)
    ensures ParseImages(EncodeImages(images, tail), |images|) == Ok((images, tail))
    decreases |images|
  {
    if images != [] {
      ImagesRoundTrip(images[1..], tail);
      ImageRoundTrip(images[0], EncodeImages(images[1..], tail));
      assert images == [images[0]] + images[1..];
    }
  }

  lemma {:induction false} ImagesCanonical(input: Bytes, count: nat)
    requires ParseImages(input, count).Ok?
    ensures var (images, rest) := ParseImages(input, count).value; EncodeImages(images, rest) == input
    decreases count
  {
    if count > 0 {
      ImageCanonical(input);
      ImagesCanonical(ParseImage(input).value.1, count - 1);
    }
  }

  /** One fixed-width field after a prefix reads back. */
  lemma FieldRoundTrip(pre: Bytes, n: nat, width: nat, h: Bytes)
    requires n < Span(width)
    requires pre + ToLe(n, width) <= h
    ensures pre <= h
    ensures FromLe(h[|pre|..|pre| + width]) == n
  {
    LeRoundTrip(n, width);
    var p := pre + ToLe(n, width);
    assert h[..|p|] == p;
    assert h[..|pre|] == p[..|pre|] == pre;
  }

  lemma HeaderRoundTrip(token: Token, tokenOffset: u64, fileSize: u64, imageCount: u32, resultLen: u32)
    ensures var h := EncodeHeader(token, tokenOffset, fileSize, imageCount, resultLen);
      && h[0..8] == MAGIC && FromLe(h[8..12]) == VERSION && FromLe(h[12..16]) == 0
      && FromLe(h[16..24]) == token.index && FromLe(h[24..32]) == token.ordinal
      && FromLe(h[32..40]) == tokenOffset && FromLe(h[40..48]) == fileSize
      && FromLe(h[48..52]) == imageCount && FromLe(h[52..56]) == resultLen
  {
    var p1 := MAGIC + ToLe(VERSION, 4);
    var p2 := p1 + ToLe(0, 4);
    var p3 := p2 + ToLe(token.index, 8);
    var p4 := p3 + ToLe(token.ordinal, 8);
    var p5 := p4 + ToLe(tokenOffset, 8);
    var p6 := p5 + ToLe(fileSize, 8);
    var p7 := p6 + ToLe(imageCount, 4);
    var h := p7 + ToLe(resultLen, 4);
    SpanValues();
    FieldRoundTrip(p7, resultLen, 4, h);
    FieldRoundTrip(p6, imageCount, 4, h);
    FieldRoundTrip(p5, fileSize, 8, h);
    FieldRoundTrip(p4, tokenOffset, 8, h);
    FieldRoundTrip(p3, token.ordinal, 8, h);
    FieldRoundTrip(p2, token.index, 8, h);
    FieldRoundTrip(p1, 0, 4, h);
    FieldRoundTrip(MAGIC, VERSION, 4, h);
  }

  /** Every receipt this code publishes is read back exactly. */
  lemma ReceiptRoundTrip(t: Txn, crc: Checksum)
    requires ValidEncoding(t)
    ensures DecodeReceipt(EncodeReceipt(t, crc).value, crc) == Ok(t)
  {
    var enc := EncodeReceipt(t, crc).value;
    var header := EncodeHeader(t.token, t.tokenOffset, t.fileSize, |t.images|, |t.result|);
    var sum := ToLe(crc(Content(t)), 4);
    var contentLen := |enc| - CHECKSUM_SIZE;
    SpanValues();
    LeRoundTrip(crc(Content(t)), 4);
    assert enc[..contentLen] == Content(t) && enc[contentLen..] == sum;
    HeaderRoundTrip(t.token, t.tokenOffset, t.fileSize, |t.images|, |t.result|);
    assert enc[..FIXED_HEADER_SIZE] == header;
    forall a, b | 0 <= a <= b <= FIXED_HEADER_SIZE ensures enc[a..b] == header[a..b] {
      assert enc[a..b] == enc[..FIXED_HEADER_SIZE][a..b];
    }
    assert DecodeHeader(enc, crc) == Ok((t.token, t.tokenOffset, t.fileSize, |t.images|, |t.result|));
    assert enc[FIXED_HEADER_SIZE..contentLen] == EncodeImages(t.images, t.result);
    ImagesRoundTrip(t.images, t.result);
  }

  lemma HeaderCanonical(encoded: Bytes, crc: Checksum)
    requires DecodeHeader(encoded, crc).Ok?
    ensures var (token, tokenOffset, fileSize, imageCount, resultLen) := DecodeHeader(encoded, crc).value;
      encoded[..FIXED_HEADER_SIZE] == EncodeHeader(token, tokenOffset, fileSize, imageCount, resultLen)
  {
    LeCanonical(encoded[8..12]);
    LeCanonical(encoded[12..16]);
    LeCanonical(encoded[16..24]);
    LeCanonical(encoded[24..32]);
    LeCanonical(encoded[32..40]);
    LeCanonical(encoded[40..48]);
    LeCanonical(encoded[48..52]);
    LeCanonical(encoded[52..56]);
    assert encoded[..FIXED_HEADER_SIZE] == encoded[0..8] + encoded[8..12] + encoded[12..16] + encoded[16..24]
      + encoded[24..32] + encoded[32..40] + encoded[40..48] + encoded[48..52] + encoded[52..56];
  }

  lemma ChecksumCanonical(encoded: Bytes, crc: Checksum)
    requires DecodeHeader(encoded, crc).Ok?
    ensures var contentLen := |encoded| - CHECKSUM_SIZE;
      encoded == encoded[..contentLen] + ToLe(crc(encoded[..contentLen]), 4)
  {
    var contentLen := |encoded| - CHECKSUM_SIZE;
    LeCanonical(encoded[contentLen..]);
    assert encoded == encoded[..contentLen] + encoded[contentLen..];
  }

  lemma DecodedIsValid(encoded: Bytes, crc: Checksum)
    requires DecodeReceipt(encoded, crc).Ok?
    ensures DecodeHeader(encoded, crc).Ok?
    ensures ValidEncoding(DecodeReceipt(encoded, crc).value)
  {
    ContentCanonical(encoded, crc);
  }

  lemma ContentCanonical(encoded: Bytes, crc: Checksum)
    requires DecodeReceipt(encoded, crc).Ok?
    ensures Content(DecodeReceipt(encoded, crc).value) == encoded[..|encoded| - CHECKSUM_SIZE]
  {
    var t := DecodeReceipt(encoded, crc).value;
    var contentLen := |encoded| - CHECKSUM_SIZE;
    HeaderCanonical(encoded, crc);
    ImagesCanonical(encoded[FIXED_HEADER_SIZE..contentLen], |t.images|);
    assert encoded[..contentLen] == encoded[..FIXED_HEADER_SIZE] + encoded[FIXED_HEADER_SIZE..contentLen];
  }

  /** Bytes the decoder accepts are exactly what the encoder writes for the decoded transaction. */
  lemma ReceiptCanonical(encoded: Bytes, crc: Checksum)
    requires DecodeReceipt(encoded, crc).Ok?
    ensures EncodeReceipt(DecodeReceipt(encoded, crc).value, crc) == Ok(encoded)
  {
    DecodedIsValid(encoded, crc);
    ContentCanonical(encoded, crc);
    ChecksumCanonical(encoded, crc);
  }

  /** `decode_transaction` itself: one pass with an advancing cursor. */
  method DecodeTransaction(encoded: Bytes, crc: Checksum) returns (r: Result<Txn>)
    ensures r == DecodeReceipt(encoded, crc)
  {
    var header := DecodeHeader(encoded, crc);
    if header.Err? { return Err; }
    var (token, tokenOffset, fileSize, imageCount, resultLen) := header.value;
    var contentLen := |encoded| - CHECKSUM_SIZE;
    var images, cursor := ReadImages(encoded, FIXED_HEADER_SIZE, contentLen, imageCount);
    if images.Err? || cursor + resultLen != contentLen { return Err; }
    if !ValidImages(images.value, fileSize) { return Err; }
    return Ok(Txn(token, tokenOffset, fileSize, images.value, encoded[cursor..contentLen]));
  }

  method ReadImages(encoded: Bytes, start: nat, limit: nat, count: nat) returns (r: Result<seq<Image>>, cursor: nat)
    requires start <= limit <= |encoded|
    ensures match ParseImages(encoded[start..limit], count)
      case Err => r.Err?
      case Ok((images, rest)) => r == Ok(images) && cursor <= limit && encoded[cursor..limit] == rest
  {
    hide ParseImage;
    var images: seq<Image> := [];
    cursor := start;
    ghost var whole := ParseImages(encoded[start..limit], count);
    PrependNothing(whole);
    while |images| < count
      invariant |images| <= count
      invariant start <= cursor <= limit
      invariant Prepend(images, ParseImages(encoded[cursor..limit], count - |images|)) == whole
    {
      var next := ParseImage(encoded[cursor..limit]);
      if next.Err? { return Err, cursor; }
      var image := next.value.0;
      ReadImageStep(encoded, cursor, limit, images, count - |images|);
      images := images + [image];
      cursor := cursor + 16 + |image.bytes|;
    }
    r := Ok(images);
    assert images + [] == images;
  }

  lemma ReadImageStep(encoded: Bytes, cursor: nat, limit: nat, images: seq<Image>, count: nat)
    requires cursor <= limit <= |encoded| && count > 0
    requires ParseImage(encoded[cursor..limit]).Ok?
    ensures var (image, rest) := ParseImage(encoded[cursor..limit]).value;
      && cursor + 16 + |image.bytes| <= limit
      && Prepend(images, ParseImages(encoded[cursor..limit], count))
         == Prepend(images + [image], ParseImages(encoded[cursor + 16 + |image.bytes|..limit], count - 1))
  {
    var input := encoded[cursor..limit];
    var (image, rest) := ParseImage(input).value;
    SliceOfSlice(encoded, cursor, limit, 16 + |image.bytes|, |input|);
    assert rest == input[16 + |image.bytes|..|input|];
    PrependAssociative(images, image, ParseImages(rest, count - 1));
  }

  lemma PrependNothing(r: Result<(seq<Image>, Bytes)>)
    ensures Prepend([], r) == r
  {
    if r.Ok? {
      assert [] + r.value.0 == r.value.0;
    }
  }

  lemma PrependAssociative(images: seq<Image>, im: Image, r: Result<(seq<Image>, Bytes)>)
    ensures Prepend(images + [im], r) == Prepend(images, Prepend([im], r))
  {
    if r.Ok? {
      assert images + [im] + r.value.0 == images + ([im] + r.value.0);
    }
  }
}
