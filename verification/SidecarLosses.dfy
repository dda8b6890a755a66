/** Runs that lose a committed mutation: one on a disk that does not order publishes
    after data writes, one with an image that reaches into the footer. The second
    makes the footer offset the exact bound on images. */
module SidecarLosses {
  import opened Bytes
  import opened AfterImages
  import opened Receipt
  import opened SidecarProtocol
  import opened SidecarSafety
  import opened SidecarTheorems
  import CR = SidecarCrashes

  // ---------------------------------------------------------------------
  // Losing a mutation to an unordered publish
  // ---------------------------------------------------------------------

  const T1 := Token(1, 1)
  const T2 := Token(2, 1)

  /** Sets the only body byte to one. */
  const SetOne := Mutation((body: Bytes) => if |body| == 1 then Plan([Image(0, [1])], []) else Refused)

  /** Changes nothing. */
  const Touch := Mutation((body: Bytes) => Plan([], []))

  // A run in which the fsync of the first mutation fails after its footer was
  // written; the next mutation then finds the footer and does not sync it either.

  const Txn1 := Commitment(T1, 1, 17, [Image(0, [1])], [])
  const Txn2 := Commitment(T2, 1, 17, [], [])
  const Req1 := Request(T1, SetOne, false)
  const Req2 := Request(T2, Touch, false)
  const Log1 := [Entry(T1, SetOne, [])]
  const Log2 := Log1 + [Entry(T2, Touch, [])]

  lemma SmallReceiptsEncode()
    ensures ValidEncoding(Txn1) && ValidEncoding(Txn2) && EncodedSize(Txn1) < COMPACT_RECEIPT_THRESHOLD_BYTES
  {
    hide Token.Encode;
    assert Txn1.images == [Image(0, [1]), Image(1, T1.Encode())] && Txn2.images == [Image(1, T2.Encode())];
    assert ImagesSize(Txn1.images[1..]) == 32 && ImagesSize(Txn1.images) == 49 && ImagesSize(Txn2.images) == 32;
  }

  ghost function Written(crc: Checksum, n: nat): Disk
    requires n <= 2
  {
    SmallReceiptsEncode();
    Disk([0] + ZERO.Encode(), Txn1.images[..n], Some(EncodeReceipt(Txn1, crc).value), None, true)
  }

  ghost function Early(phase: Phase): World {
    World(Disk([0] + ZERO.Encode(), [], None, None, true), phase, [], [])
  }

  ghost function Late(crc: Checksum, phase: Phase): World {
    World(Written(crc, 2), phase, Log1, [(T1, Failed)])
  }

  ghost function Lost(crc: Checksum): World {
    SmallReceiptsEncode();
    World(Written(crc, 2).(receipt := Some(EncodeReceipt(Txn2, crc).value)), Committing(Req2, Txn2, 0), Log2, [(T1, Failed)])
  }

  ghost function Half(crc: Checksum, n: nat): World
    requires n <= 2
  {
    World(Written(crc, n), Committing(Req1, Txn1, n), Log1, [])
  }

  ghost function LosingRun(crc: Checksum): seq<World> {
    [ Early(Idle), Early(Recovering(Req1)), Early(Recovered(Req1)), Early(Staging(Req1)),
      Half(crc, 0), Half(crc, 1), Half(crc, 2),
      Late(crc, Idle), Late(crc, Recovering(Req2)), Late(crc, Tidying(Req2, Txn1)), Late(crc, Recovered(Req2)),
      Late(crc, Staging(Req2)), Lost(crc) ]
  }

  lemma WrittenFiles(crc: Checksum)
    ensures forall n: nat :: n <= 2 ==> Written(crc, n).Fit()
    ensures Written(crc, 0).Visible() == [0] + ZERO.Encode()
    ensures Written(crc, 2).Visible() == [1] + T1.Encode()
    ensures Written(crc, 2).Read(crc) == Ok(Some((Txn1, false)))
  {
    hide Token.Encode, DecodeReceipt, EncodeReceipt;
    SmallReceiptsEncode();
    ReceiptRoundTrip(Txn1, crc);
    var a, b := Image(0, [1]), Image(1, T1.Encode());
    var images := Txn1.images;
    assert images == [a, b] && images[..0] == [] && images[..1] == [a] && images[..2] == [a, b];
    var file := [0] + ZERO.Encode();
    assert WriteAt(file, a) == [1] + ZERO.Encode() && WriteAt([1] + ZERO.Encode(), b) == [1] + T1.Encode();
    assert [a, b][1..] == [b] && [b][1..] == [];
    assert ApplyImages([1] + ZERO.Encode(), [b]) == [1] + T1.Encode();
  }

  lemma FirstSteps(s: Setting)
    requires s.tokenOffset == 1
    ensures Step(s, Early(Idle), Early(Recovering(Req1)))
    ensures Step(s, Early(Recovering(Req1)), Early(Recovered(Req1)))
    ensures Step(s, Early(Recovered(Req1)), Early(Staging(Req1)))
  {
    hide Token.Encode, DecodeToken, DecodeReceipt, EncodeReceipt, ValidEncoding;
    FooterOf([0], ZERO);
    assert Arrives(s, Early(Idle), Early(Recovering(Req1)));
    assert Reads(s, Early(Recovering(Req1)), Early(Recovered(Req1)));
    assert Decides(s, Early(Recovered(Req1)), Early(Staging(Req1)));
  }

  lemma FirstPublish(crc: Checksum)
    ensures Step(Setting(crc, 1, false), Early(Staging(Req1)), Half(crc, 0))
  {
    hide Token.Encode, DecodeToken, DecodeReceipt, EncodeReceipt, ValidEncoding;
    SmallReceiptsEncode();
    FooterOf([0], ZERO);
    assert Txn1.images[..0] == [];
    assert Stages(Setting(crc, 1, false), Early(Staging(Req1)), Half(crc, 0));
  }

  lemma MiddleSteps(crc: Checksum)
    ensures var s := Setting(crc, 1, false);
      && Step(s, Half(crc, 0), Half(crc, 1)) && Step(s, Half(crc, 1), Half(crc, 2)) && Step(s, Half(crc, 2), Late(crc, Idle))
  {
    hide Token.Encode, DecodeToken, DecodeReceipt, EncodeReceipt, ValidEncoding;
    SmallReceiptsEncode();
    WrittenFiles(crc);
    var s := Setting(crc, 1, false);
    var images := Txn1.images;
    assert images[..0] + [images[0]] == images[..1] && images[..1] + [images[1]] == images[..2];
    assert Commits(s, Half(crc, 0), Half(crc, 1));
    assert Commits(s, Half(crc, 1), Half(crc, 2));
    assert Abandons(s, Half(crc, 2), Late(crc, Idle));
  }

  lemma LastSteps(crc: Checksum)
    ensures var s := Setting(crc, 1, false);
      && Step(s, Late(crc, Idle), Late(crc, Recovering(Req2)))
      && Step(s, Late(crc, Recovering(Req2)), Late(crc, Tidying(Req2, Txn1)))
      && Step(s, Late(crc, Tidying(Req2, Txn1)), Late(crc, Recovered(Req2)))
      && Step(s, Late(crc, Recovered(Req2)), Late(crc, Staging(Req2)))
      && Step(s, Late(crc, Staging(Req2)), Lost(crc))
  {
    hide Token.Encode, DecodeToken, DecodeReceipt, EncodeReceipt, ValidEncoding;
    SmallReceiptsEncode();
    WrittenFiles(crc);
    FooterOf([1], T1);
    var s := Setting(crc, 1, false);
    assert Arrives(s, Late(crc, Idle), Late(crc, Recovering(Req2)));
    assert Reads(s, Late(crc, Recovering(Req2)), Late(crc, Tidying(Req2, Txn1)));
    assert TidiesAfterRecovery(s, Late(crc, Tidying(Req2, Txn1)), Late(crc, Recovered(Req2)));
    assert Decides(s, Late(crc, Recovered(Req2)), Late(crc, Staging(Req2)));
    assert Stages(s, Late(crc, Staging(Req2)), Lost(crc));
  }

  lemma LosingRunIsRun(crc: Checksum)
    ensures IsRun(Setting(crc, 1, false), [0], ZERO, LosingRun(crc))
  {
    hide Step, Half, Late, Lost;
    FirstSteps(Setting(crc, 1, false));
    FirstPublish(crc);
    MiddleSteps(crc);
    LastSteps(crc);
  }

  /** With a disk that does not order publishes after earlier data writes, one
      abandoned operation is enough to lose a committed mutation. */
  lemma UnorderedPublishLosesMutation(crc: Checksum)
    ensures var s, run, f := Setting(crc, 1, false), LosingRun(crc), [0] + ZERO.Encode();
      && IsRun(s, [0], ZERO, run) && Confined(s, run[|run| - 1].log, s.tokenOffset)
      && Survives(run[|run| - 1].disk, f, s.tokenOffset)
      && CurrentTxn(s, run[|run| - 1].disk) == Some(Txn2)
      && Body(RecoveredFile(f, Some(Txn2))) == [0]
      && Fold([0], run[|run| - 1].log) == [1]
  {
    hide Token.Encode, DecodeToken, DecodeReceipt, EncodeReceipt, ValidEncoding, Step, IsRun;
    SmallReceiptsEncode();
    WrittenFiles(crc);
    ReceiptRoundTrip(Txn2, crc);
    LosingRunIsRun(crc);
    var d, f := LosingRun(crc)[12].disk, [0] + ZERO.Encode();
    assert d.unsynced[..0] == [];
    assert SurvivesAt(d, f, 1, 0);
    FooterOf([0], ZERO);
    FooterOf([0], T2);
    assert WriteAt(f, Image(1, T2.Encode())) == [0] + T2.Encode();
    assert ApplyImages(f, Txn2.images) == [0] + T2.Encode();
    FoldsToOne();
  }

  lemma FoldsToOne()
    ensures Fold([0], Log2) == [1]
  {}

  // ---------------------------------------------------------------------
  // Losing a mutation to an image over the footer
  // ---------------------------------------------------------------------

  /** Its first image makes the footer's token larger than any it will be given. */
  ghost function Overrun(n: u64): Mutation {
    Mutation((body: Bytes) => Plan([Image(n, [255]), Image(0, [1])], []))
  }

  ghost function OverrunCommit(n: u64): CR.Commit {
    CR.Commit(Zeros(n), ZERO, T1, Overrun(n))
  }

  ghost function OverrunTxn(s: Setting): Txn
    requires s.Valid()
  {
    CR.TxnOf(s, OverrunCommit(s.tokenOffset))
  }

  lemma OverrunEncodes(s: Setting)
    requires s.Valid()
    ensures CR.Possible(s, OverrunCommit(s.tokenOffset))
    ensures OverrunTxn(s).images == [Image(s.tokenOffset, [255]), Image(0, [1]), FooterImage(T1, s.tokenOffset)]
  {
    hide Token.Encode;
    var images := OverrunTxn(s).images;
    assert images == [Image(s.tokenOffset, [255]), Image(0, [1]), FooterImage(T1, s.tokenOffset)];
    assert ImagesSize(images[2..]) == 32 && ImagesSize(images[1..]) == 49 && ImagesSize(images) == 66;
  }

  ghost function Spoiled(n: nat): Bytes {
    Zeros(n) + Token(255, 0).Encode()
  }

  /** Power fails after the first image. */
  ghost function OverrunRun(s: Setting): (run: seq<World>)
    requires s.Valid()
    ensures |run| == 7
  {
    OverrunEncodes(s);
    CR.CrashRun(s, OverrunCommit(s.tokenOffset), 1, Spoiled(s.tokenOffset))
  }

  lemma OverrunWrites(n: u64)
    requires n + TOKEN_SIZE <= U64_MAX
    ensures WriteAt(Zeros(n) + ZERO.Encode(), Image(n, [255])) == Spoiled(n)
  {
    LeadByte();
    hide Token.Encode;
    var rest := ZERO.Encode()[1..];
    assert Spoiled(n) == Zeros(n) + [255] + rest;
    assert Zeros(n) + ZERO.Encode() == Zeros(n) + [ZERO.Encode()[0]] + rest;
  }

  lemma LeadByte()
    ensures Token(255, 0).Encode() == [255] + ZERO.Encode()[1..]
  {
    var rest := ToLe(0, 7);
    FirstByte(255, 8);
    FirstByte(0, 8);
    hide ToLe;
    assert Token(255, 0).Encode() == [255] + rest + ToLe(0, 8) && ZERO.Encode() == [0] + rest + ToLe(0, 8);
  }

  lemma FirstByte(b: byte, width: nat)
    requires width > 0
    ensures ToLe(b, width) == [b] + ToLe(0, width - 1)
  {}

  lemma OverrunIsRun(s: Setting)
    requires s.Valid()
    ensures var run := OverrunRun(s);
      && IsRun(s, Zeros(s.tokenOffset), ZERO, run) && HarmlessRun(s, run) && LosesPower(s, run[5], run[6])
      && run[6].disk.stable == Spoiled(s.tokenOffset) && run[6].disk.unsynced == []
      && CurrentTxn(s, run[6].disk) == Some(OverrunTxn(s))
      && run[6].log == [Entry(T1, Overrun(s.tokenOffset), [])]
  {
    hide Token.Encode, DecodeToken, DecodeReceipt, EncodeReceipt, Step, HarmlessStep, LosesPower, CR.WorldAt;
    OverrunEncodes(s);
    OverrunWrites(s.tokenOffset);
    var c, f, x := OverrunCommit(s.tokenOffset), Spoiled(s.tokenOffset), Image(s.tokenOffset, [255]);
    var d := CR.Written(s, c, 1).disk;
    assert d.unsynced == [x] && d.unsynced[..1] == [x] && [x][1..] == [];
    assert ApplyImages(f, []) == f;
    assert SurvivesAt(d, f, s.tokenOffset, 1);
    CR.CrashRunIsRun(s, c, 1, f);
  }

  lemma OverrunIsConfined(s: Setting, bound: nat)
    requires s.Valid() && s.tokenOffset < bound
    ensures Confined(s, [Entry(T1, Overrun(s.tokenOffset), [])], bound)
  {
    assert EndsBy(Overrun(s.tokenOffset), s.tokenOffset, bound);
  }

  lemma OverrunFold(n: u64)
    requires n + TOKEN_SIZE <= U64_MAX
    ensures var log := [Entry(T1, Overrun(n), [])];
      n > 0 ==> Fold(Zeros(n), log)[0] == 1
  {
    hide Token.Encode;
    var base, log := Zeros(n), [Entry(T1, Overrun(n), [])];
    assert log[..0] == [] && Fold(base, log) == Effect(base, Overrun(n));
    var x, y := Image(n, [255]), Image(0, [1]);
    assert [x, y][1..] == [y] && [y][1..] == [];
    var file := base + ZERO.Encode();
    assert ApplyImages(file, [x, y]) == ApplyImages(WriteAt(file, x), [y]) == WriteAt(WriteAt(file, x), y);
  }

  /** An image one byte into the footer is enough. The receipt passes every check of `commit`,
      power fails after its first image, and recovery takes the file for complete: the body
      is the one before the mutation. */
  lemma FooterImageLosesMutation(s: Setting)
    requires s.Valid()
    ensures var run := OverrunRun(s); var last, f := run[6], Spoiled(s.tokenOffset);
      && IsRun(s, Zeros(s.tokenOffset), ZERO, run) && LosesPower(s, run[5], last)
      && Confined(s, last.log, s.tokenOffset + 1) && HarmlessRun(s, run)
      && last.disk.stable == f && CurrentTxn(s, last.disk) == Some(OverrunTxn(s))
      && Fits(OverrunTxn(s).images, |f|) && RecoveredFile(f, Some(OverrunTxn(s))) == f
      && Body(f) == Zeros(s.tokenOffset)
      && (s.tokenOffset > 0 ==> Fold(Zeros(s.tokenOffset), last.log)[0] == 1)
      && !Lossless(s, Zeros(s.tokenOffset), ZERO, last)
  {
    hide Token.Encode, DecodeToken, LosesPower, Confined, IsRun, HarmlessRun, Fold, OverrunRun;
    var n, run := s.tokenOffset, OverrunRun(s);
    OverrunEncodes(s);
    OverrunIsRun(s);
    OverrunIsConfined(s, n + 1);
    OverrunFold(n);
    FooterOf(Zeros(n), Token(255, 0));
    FooterOf(Fold(Zeros(n), run[6].log), T1);
    VisibleSurvives(run[6].disk, n);
  }

  /** Plans that end at or below `bound` are exactly-once across all crashes of all runs,
      exactly when the bound is at or below the footer. */
  lemma FooterIsTheBound(s: Setting, bound: nat)
    requires s.Valid()
    ensures (forall base, first, run: seq<World> ::
               IsRun(s, base, first, run) && Confined(s, run[|run| - 1].log, bound) && HarmlessRun(s, run) ==>
               Lossless(s, base, first, run[|run| - 1]))
       <==> bound <= s.tokenOffset
  {
    hide Step, Starts, Lossless, HarmlessRun, OverrunRun;
    if bound <= s.tokenOffset {
      forall base, first, run: seq<World> | IsRun(s, base, first, run) && Confined(s, run[|run| - 1].log, bound) && HarmlessRun(s, run)
        ensures Lossless(s, base, first, run[|run| - 1])
      {
        Tighter(s, run[|run| - 1].log, bound);
        ExactlyOnce(s, base, first, run);
      }
    } else {
      FooterImageLosesMutation(s);
      OverrunIsRun(s);
      OverrunIsConfined(s, bound);
    }
  }

  lemma Tighter(s: Setting, log: seq<Entry>, bound: nat)
    requires bound <= s.tokenOffset && Confined(s, log, bound)
    ensures Confined(s, log, s.tokenOffset)
  {}
}
