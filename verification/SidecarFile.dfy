/** `recover`, `begin`, `commit` and `effective_token` on a file that is
    overwritten in place, without interruption. */
module SidecarFile {
  import opened Bytes
  import opened AfterImages
  import opened Receipt
  import opened SidecarProtocol

  datatype Decision = Apply | Replay(result: Bytes) | OutOfDate

  /** The receipt files and the name of the data file, as a disk without data. */
  datatype Receipts = Receipts(receipt: Option<Bytes>, pending: Option<Bytes>, named: bool) {
    function Read(crc: Checksum): Result<Option<(Txn, bool)>> {
      Disk([], [], receipt, pending, named).Read(crc)
    }

    function Publish(encoded: Bytes): Receipts {
      if named then this.(receipt := Some(encoded)) else this.(pending := Some(encoded))
    }

    /** The receipt that recovery and decisions see, when it can be read. */
    function Current(crc: Checksum): Option<Txn> {
      match Read(crc)
      case Ok(Some((t, _))) => Some(t)
      case _ => None
    }
  }

  /** What is known of the receipts once `recover` or `commit` is done with `t`. */
  predicate Settled(crc: Checksum, r: Receipts, t: Txn) {
    r.Current(crc) == Some(t) || r.Current(crc) == Some(Compacted(t))
  }

  predicate SameLayout(t: Option<Txn>, tokenOffset: u64, fileSize: u64) {
    t.Some? ==> t.value.tokenOffset == tokenOffset && t.value.fileSize == fileSize
  }

  /** `recover` goes through: the layout is sound and the receipt, if any, is readable and of this file. */
  predicate Acceptable(crc: Checksum, r: Receipts, tokenOffset: u64, fileSize: u64) {
    && ValidTokenLocation(tokenOffset, fileSize) && r.Read(crc).Ok?
    && SameLayout(r.Current(crc), tokenOffset, fileSize)
  }

  /** `f` is `file` after recovery from receipt `t`, if there is one. */
  predicate IsRecovered(f: Bytes, file: Bytes, t: Option<Txn>) {
    |file| >= TOKEN_SIZE && (t.Some? ==> Fits(t.value.images, |file|)) && f == RecoveredFile(file, t)
  }

  lemma CompactedIsValid(t: Txn)
    requires ValidEncoding(t)
    ensures ValidEncoding(Compacted(t))
  {}

  lemma PublishedIsCurrent(crc: Checksum, r: Receipts, t: Txn)
    requires ValidEncoding(t) && (!r.named ==> r.receipt == None)
    ensures r.Publish(EncodeReceipt(t, crc).value).Current(crc) == Some(t)
  {
    hide DecodeReceipt, EncodeReceipt;
    ReceiptRoundTrip(t, crc);
  }

  class Sidecar {
    const crc: Checksum
    var file: array<byte>
    var receipts: Receipts

    constructor (crc: Checksum, file: array<byte>, receipts: Receipts)
      ensures this.crc == crc && this.file == file && this.receipts == receipts
    {
      this.crc, this.file, this.receipts := crc, file, receipts;
    }

    method WriteAllAt(image: Image)
      requires image.End() <= file.Length
      modifies file
      ensures file[..] == WriteAt(old(file[..]), image)
    {
      var n := 0;
      while n < |image.bytes|
        invariant n <= |image.bytes|
        invariant forall i :: 0 <= i < file.Length ==>
          file[i] == if image.offset <= i < image.offset + n then image.bytes[i - image.offset] else old(file[i])
      {
        file[image.offset + n] := image.bytes[n];
        n := n + 1;
      }
    }

    /** `apply_transaction`. */
    method ApplyTransaction(t: Txn)
      requires Fits(t.images, file.Length)
      modifies file
      ensures file[..] == ApplyImages(old(file[..]), t.images)
    {
      var k := 0;
      while k < |t.images|
        invariant k <= |t.images|
        invariant ApplyImages(file[..], t.images[k..]) == ApplyImages(old(file[..]), t.images)
      {
        assert t.images[k..][1..] == t.images[k + 1..];
        WriteAllAt(t.images[k]);
        k := k + 1;
      }
    }

    /** `read_token`: the token's bytes must be there. */
    method ReadToken(tokenOffset: u64) returns (r: Result<Token>)
      ensures r == if tokenOffset + TOKEN_SIZE <= file.Length
                   then DecodeToken(file[tokenOffset..tokenOffset + TOKEN_SIZE]) else Err
      ensures tokenOffset + TOKEN_SIZE == file.Length ==> r == Ok(Footer(file[..]))
    {
      hide DecodeToken;
      if tokenOffset + TOKEN_SIZE > file.Length { return Err; }
      assert tokenOffset + TOKEN_SIZE == file.Length ==>
        file[tokenOffset..tokenOffset + TOKEN_SIZE] == file[..][|file[..]| - TOKEN_SIZE..];
      return DecodeToken(file[tokenOffset..tokenOffset + TOKEN_SIZE]);
    }

    /** `compact_receipt_if_large`. */
    method CompactIfLarge(t: Txn)
      requires ValidEncoding(t) && receipts.Current(crc) == Some(t)
      requires !receipts.named ==> receipts.receipt == None
      modifies this`receipts
      ensures receipts.Current(crc) == Some(if Compactable(t) then Compacted(t) else t)
      ensures receipts.named == old(receipts.named) && (!receipts.named ==> receipts.receipt == None)
    {
      if EncodedSize(t) >= COMPACT_RECEIPT_THRESHOLD_BYTES && t.images != [] {
        CompactedIsValid(t);
        PublishedIsCurrent(crc, receipts, Compacted(t));
        receipts := receipts.Publish(EncodeReceipt(Compacted(t), crc).value);
      }
    }

    /** `recover`. On an error the file and the receipts stay as they were. */
    method Recover(tokenOffset: u64, fileSize: u64) returns (ok: bool)
      requires file.Length == fileSize
      requires !receipts.named ==> receipts.receipt == None
      modifies this`receipts, file
      ensures ok <==> old(Acceptable(crc, receipts, tokenOffset, fileSize))
      ensures !ok ==> receipts == old(receipts) && file[..] == old(file[..])
      ensures ok ==> IsRecovered(file[..], old(file[..]), old(receipts.Current(crc)))
      ensures ok && old(receipts.Current(crc)).None? ==> receipts == old(receipts)
      ensures ok && old(receipts.Current(crc)).Some? ==> Settled(crc, receipts, old(receipts.Current(crc)).value)
      ensures receipts.named == old(receipts.named) && (!receipts.named ==> receipts.receipt == None)
    {
      hide DecodeReceipt, EncodeReceipt, DecodeToken, Footer;
      if !ValidTokenLocation(tokenOffset, fileSize) { return false; }
      var found := receipts.Read(crc);
      if found.Err? { return false; }
      if found.value.None? { return true; }
      var (t, fromPending) := found.value.value;
      if t.tokenOffset != tokenOffset || t.fileSize != fileSize { return false; }
      ReadIsValid(crc, receipts);
      var current := ReadToken(tokenOffset);
      if current.value.Less(t.token) {
        ApplyTransaction(t);
      }
      if fromPending {
        receipts := Receipts(receipts.pending, None, receipts.named);
      }
      CompactIfLarge(t);
      return true;
    }

    /** `effective_token`: an index of 0 asks for the token after the sidecar's own. */
    method EffectiveToken(token: Token, tokenOffset: u64, fileSize: u64) returns (r: Result<Token>)
      requires file.Length == fileSize && (!receipts.named ==> receipts.receipt == None)
      modifies this`receipts, file
      ensures token.index != 0 ==> r == Ok(token) && receipts == old(receipts) && file[..] == old(file[..])
      ensures token.index == 0 ==>
        if old(Acceptable(crc, receipts, tokenOffset, fileSize)) then
          && IsRecovered(file[..], old(file[..]), old(receipts.Current(crc)))
          && var footer := Footer(file[..]);
          r == if footer.index == U64_MAX then Err else Ok(Token(footer.index + 1, Max(token.ordinal, 1)))
        else r == Err && receipts == old(receipts) && file[..] == old(file[..])
      ensures receipts.named == old(receipts.named) && (!receipts.named ==> receipts.receipt == None)
    {
      hide DecodeReceipt, EncodeReceipt, DecodeToken, Footer, IsRecovered;
      if token.index != 0 { return Ok(token); }
      var ok := Recover(tokenOffset, fileSize);
      if !ok { return Err; }
      var current := ReadToken(tokenOffset);
      if current.value.index == U64_MAX { return Err; }
      return Ok(Token(current.value.index + 1, Max(token.ordinal, 1)));
    }

    /** `begin`. */
    method Begin(token: Token, tokenOffset: u64, fileSize: u64) returns (r: Result<Decision>)
      requires file.Length == fileSize && (!receipts.named ==> receipts.receipt == None)
      modifies this`receipts, file
      ensures r.Ok? <==> old(Acceptable(crc, receipts, tokenOffset, fileSize))
      ensures r.Err? ==> receipts == old(receipts) && file[..] == old(file[..])
      ensures r.Ok? ==>
        && IsRecovered(file[..], old(file[..]), old(receipts.Current(crc)))
        && (r.value.Apply? <==> Footer(file[..]).Number() < token.Number())
        && (r.value.Replay? <==>
              Footer(file[..]) == token && receipts.Current(crc).Some? && receipts.Current(crc).value.token == token)
        && (r.value.Replay? ==> r.value.result == receipts.Current(crc).value.result)
      ensures r.Ok? && old(receipts.Current(crc)).Some? ==> Settled(crc, receipts, old(receipts.Current(crc)).value)
      ensures receipts.named == old(receipts.named) && (!receipts.named ==> receipts.receipt == None)
    {
      hide DecodeReceipt, EncodeReceipt, DecodeToken, Footer, RecoveredFile;
      var ok := Recover(tokenOffset, fileSize);
      if !ok { return Err; }
      var current := ReadToken(tokenOffset);
      TokenOrder(current.value, token);
      if current.value.Less(token) { return Ok(Apply); }
      if token.Less(current.value) { return Ok(OutOfDate); }
      var found := receipts.Read(crc);
      if found.Err? { return Err; }
      if found.value.Some? && found.value.value.0.token == token {
        return Ok(Replay(found.value.value.0.result));
      }
      return Ok(OutOfDate);
    }

    /** `commit`: nothing changes unless the receipt can be published. */
    method Commit(token: Token, tokenOffset: u64, fileSize: u64, images: seq<Image>, result: Bytes) returns (ok: bool)
      requires file.Length == fileSize && (!receipts.named ==> receipts.receipt == None)
      modifies this`receipts, file
      ensures ok <==> ValidEncoding(Commitment(token, tokenOffset, fileSize, images, result))
      ensures !ok ==> receipts == old(receipts) && file[..] == old(file[..])
      ensures ok ==>
        && file.Length >= TOKEN_SIZE && Fits(images, file.Length)
        && Footer(file[..]) == token
        && Body(file[..]) == Body(ApplyImages(old(file[..]), images))
        && Settled(crc, receipts, Commitment(token, tokenOffset, fileSize, images, result))
    {
      hide DecodeReceipt, EncodeReceipt, DecodeToken;
      var t := Commitment(token, tokenOffset, fileSize, images, result);
      if !ValidEncoding(t) { return false; }
      assert t.images[..|images|] == images && t.images[|images|] == FooterImage(token, tokenOffset);
      FooterWrittenLast(file[..], images, token, tokenOffset);
      PublishedIsCurrent(crc, receipts, t);
      receipts := receipts.Publish(EncodeReceipt(t, crc).value);
      ApplyTransaction(t);
      CompactIfLarge(t);
      return true;
    }
  }

  lemma ReadIsValid(crc: Checksum, r: Receipts)
    requires r.Current(crc).Some?
    ensures ValidEncoding(r.Current(crc).value)
  {
    var encoded := if r.named && r.receipt.Some? then r.receipt.value else r.pending.value;
    DecodedIsValid(encoded, crc);
  }

  lemma FooterStays(file: Bytes, images: seq<Image>, tokenOffset: nat)
    requires tokenOffset + TOKEN_SIZE == |file| && Fits(images, tokenOffset)
    ensures Fits(images, |file|) && Footer(ApplyImages(file, images)) == Footer(file)
  {
    hide DecodeToken, ApplyImages;
    assert file == Body(file) + file[tokenOffset..];
    ApplyBelow(Body(file), file[tokenOffset..], images);
    assert ApplyImages(file, images)[tokenOffset..] == file[tokenOffset..];
  }

  /** While the images of a plan that keeps below the footer are written, the footer stays as it was. */
  lemma FooterUntilLast(file: Bytes, images: seq<Image>, tokenOffset: nat)
    requires tokenOffset + TOKEN_SIZE == |file| && Fits(images, tokenOffset)
    ensures forall k :: 0 <= k <= |images| ==>
      Fits(images[..k], |file|) && Footer(ApplyImages(file, images[..k])) == Footer(file)
  {
    hide Footer, ApplyImages;
    forall k | 0 <= k <= |images|
      ensures Fits(images[..k], |file|) && Footer(ApplyImages(file, images[..k])) == Footer(file)
    {
      FooterStays(file, images[..k], tokenOffset);
    }
  }

  /** The last image brings the new token and leaves the planned body. */
  lemma FooterWrittenLast(file: Bytes, images: seq<Image>, token: Token, tokenOffset: u64)
    requires tokenOffset + TOKEN_SIZE == |file| && Fits(images, |file|)
    ensures Fits(images + [FooterImage(token, tokenOffset)], |file|)
    ensures var f := ApplyImages(file, images + [FooterImage(token, tokenOffset)]);
      Footer(f) == token && Body(f) == Body(ApplyImages(file, images))
  {
    hide Token.Encode, DecodeToken;
    var footer := FooterImage(token, tokenOffset);
    var g := ApplyImages(file, images);
    ApplyAppend(file, images, [footer]);
    assert ApplyImages(g, [footer]) == WriteAt(g, footer) == Body(g) + token.Encode();
    FooterOf(Body(g), token);
  }
}
