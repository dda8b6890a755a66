/** Exactly-once across crashes: the inductive invariant of the sidecar
    protocol and what it gives for every run. */
module SidecarSafety {
  import opened Bytes
  import opened AfterImages
  import opened Receipt
  import opened SidecarProtocol

  // ---------------------------------------------------------------------
  // The invariant
  // ---------------------------------------------------------------------

  /** The file that holds every logged mutation and its token. */
  ghost function Target(base: Bytes, first: Token, log: seq<Entry>): (f: Bytes)
    ensures |f| == |base| + TOKEN_SIZE
  {
    Fold(base, log) + LastToken(first, log).Encode()
  }

  ghost predicate Full(s: Setting, txn: Txn) {
    && txn.images != []
    && Fits(txn.images[..|txn.images| - 1], s.tokenOffset)
    && txn.images[|txn.images| - 1] == FooterImage(txn.token, s.tokenOffset)
  }

  ghost function CurrentTxn(s: Setting, d: Disk): Option<Txn> {
    match d.Read(s.crc)
    case Ok(Some((t, _))) => Some(t)
    case _ => None
  }

  ghost predicate ReceiptMatches(s: Setting, log: seq<Entry>, txn: Txn) {
    && log != [] && txn.token == log[|log| - 1].token && txn.result == log[|log| - 1].result
    && txn.tokenOffset == s.tokenOffset && txn.fileSize == s.FileSize()
    && ValidEncoding(txn)
    && (txn.images == [] || Full(s, txn))
  }

  /** The receipt is that of the last logged mutation. */
  ghost predicate ReceiptInv(s: Setting, d: Disk, log: seq<Entry>) {
    && (!d.named ==> d.receipt == None)
    && (log == [] ==> d.receipt == None && d.pending == None)
    && (log != [] ==> CurrentTxn(s, d).Some? && ReceiptMatches(s, log, CurrentTxn(s, d).value))
  }

  /** Recovery turns `f` into `target`. */
  ghost predicate Redoable(s: Setting, target: Bytes, txn: Option<Txn>, f: Bytes)
    requires |target| >= TOKEN_SIZE
  {
    && txn.Some? && Full(s, txn.value) && |f| == |target| && Fits(txn.value.images, |f|)
    && Footer(f).Less(txn.value.token)
    && ApplyImages(f, txn.value.images) == target
  }

  ghost predicate SafeFile(s: Setting, target: Bytes, txn: Option<Txn>, f: Bytes)
    requires |target| >= TOKEN_SIZE
  {
    f == target || Redoable(s, target, txn, f)
  }

  predicate Chosen(req: Request) {
    req.logless && req.token.index != 0
  }

  /** The images before `next` have been written, so the rest finishes the job. */
  ghost predicate Writing(s: Setting, target: Bytes, d: Disk, txn: Txn, next: nat)
    requires |target| >= TOKEN_SIZE && d.Fit() && |d.stable| == |target|
  {
    && CurrentTxn(s, d) == Some(txn) && Full(s, txn) && Fits(txn.images, |target|)
    && next <= |txn.images|
    && ApplyImages(d.Visible(), txn.images[next..]) == target
    && (next < |txn.images| ==> Footer(d.Visible()).Less(txn.token))
  }

  ghost predicate PhaseInv(s: Setting, target: Bytes, last: Token, d: Disk, phase: Phase)
    requires |target| >= TOKEN_SIZE && d.Fit() && |d.stable| == |target|
  {
    match phase
    case Idle => true
    case Recovering(req) => Chosen(req) ==> d.Visible() == target && last.Less(req.token)
    case Redo(req, txn, fromPending, next) =>
      !Chosen(req) && Writing(s, target, d, txn, next) && fromPending == (d.named && d.receipt.None?)
    case Promoting(req, txn) => AtTarget(s, target, last, d, req, txn) && d.named && d.receipt.None?
    case Tidying(req, txn) => AtTarget(s, target, last, d, req, txn)
    case Recovered(req) => d.Visible() == target && (Chosen(req) ==> last.Less(req.token))
    case Staging(req) => d.Visible() == target && last.Less(req.token)
    case Committing(req, txn, next) => Writing(s, target, d, txn, next) && req.token == txn.token
    case Finishing(req, txn) =>
      d.Visible() == target && d.unsynced == [] && CurrentTxn(s, d) == Some(txn) && req.token == txn.token
  }

  ghost predicate AtTarget(s: Setting, target: Bytes, last: Token, d: Disk, req: Request, txn: Txn)
    requires d.Fit()
  {
    && d.Visible() == target && CurrentTxn(s, d) == Some(txn)
    && (Chosen(req) ==> last.Less(req.token))
  }

  ghost predicate Logged(log: seq<Entry>, token: Token, result: Bytes) {
    exists i :: 0 <= i < |log| && log[i].token == token && log[i].result == result
  }

  /** Every result ever returned for a token is the one logged for it. */
  ghost predicate RepliesInv(log: seq<Entry>, replies: seq<(Token, Reply)>) {
    forall i :: 0 <= i < |replies| ==>
      match replies[i].1
      case Applied(r) => Logged(log, replies[i].0, r)
      case Replayed(r) => Logged(log, replies[i].0, r)
      case _ => true
  }

  ghost predicate Shape(s: Setting, base: Bytes, d: Disk) {
    && s.Valid() && |base| == s.tokenOffset && |d.stable| == s.FileSize() && d.Fit()
  }

  ghost predicate SurvivorsInv(s: Setting, target: Bytes, d: Disk)
    requires d.Fit() && |target| >= TOKEN_SIZE
  {
    forall f :: Survives(d, f, s.tokenOffset) ==> SafeFile(s, target, CurrentTxn(s, d), f)
  }

  ghost predicate Inv(s: Setting, base: Bytes, first: Token, w: World) {
    && Shape(s, base, w.disk)
    && TokensIncrease(first, w.log)
    && ReceiptInv(s, w.disk, w.log)
    && SurvivorsInv(s, Target(base, first, w.log), w.disk)
    && PhaseInv(s, Target(base, first, w.log), LastToken(first, w.log), w.disk, w.phase)
    && RepliesInv(w.log, w.replies)
  }

  /** Every logged mutation's images end at or below `bound`. */
  ghost predicate Confined(s: Setting, log: seq<Entry>, bound: nat) {
    forall i :: 0 <= i < |log| ==> EndsBy(log[i].mutation, s.tokenOffset, bound)
  }

  // ---------------------------------------------------------------------
  // Publishing over unsynced writes
  // ---------------------------------------------------------------------

  ghost predicate SameOutside(images: seq<Image>, f: Bytes, g: Bytes) {
    |f| == |g| && forall i :: 0 <= i < |f| && !Covered(images, i) ==> f[i] == g[i]
  }

  /** Every file a power loss may leave is the visible one wherever `images` do not write. */
  ghost predicate Harmless(s: Setting, d: Disk, images: seq<Image>)
    requires d.Fit()
  {
    s.ordered || forall f :: Survives(d, f, s.tokenOffset) ==> SameOutside(images, f, d.Visible())
  }

  /** The steps that publish a receipt, except the compaction after a commit: that one
      directly follows an fsync. */
  ghost predicate Publishes(w: World, w': World) {
    || (w.phase.Staging? && w'.phase.Committing?)
    || (w.phase.Tidying? && w'.phase.Recovered? && w'.disk != w.disk)
  }

  /** The images of the receipt that a publishing step leaves; a compacted one has none. */
  ghost function PublishedImages(w': World): seq<Image> {
    if w'.phase.Committing? then w'.phase.txn.images else []
  }

  ghost predicate HarmlessStep(s: Setting, w: World, w': World) {
    Publishes(w, w') ==> w.disk.Fit() && Harmless(s, w.disk, PublishedImages(w'))
  }

  lemma SettledIsHarmless(s: Setting, d: Disk, images: seq<Image>)
    requires s.ordered || d.unsynced == []
    requires d.Fit()
    ensures Harmless(s, d, images)
  {}

  // ---------------------------------------------------------------------
  // Files
  // ---------------------------------------------------------------------

  lemma FooterUntouched(f: Bytes, g: Bytes)
    requires |f| == |g| >= TOKEN_SIZE
    requires forall i :: |f| - TOKEN_SIZE <= i < |f| ==> f[i] == g[i]
    ensures Footer(f) == Footer(g)
  {
    assert f[|f| - TOKEN_SIZE..] == g[|g| - TOKEN_SIZE..];
  }

  /** Losing part of a body write leaves a file that recovery still repairs. */
  lemma TornIsRedoable(s: Setting, target: Bytes, txn: Txn, g: Bytes, image: Image, f: Bytes)
    requires s.Valid() && |target| == s.FileSize()
    requires Redoable(s, target, Some(txn), g)
    requires image.End() <= s.tokenOffset
    requires forall i :: image.Covers(i) ==> Covered(txn.images, i)
    requires Torn(g, image, f, s.tokenOffset)
    ensures Redoable(s, target, Some(txn), f)
  {
    hide DecodeToken;
    FooterUntouched(f, g);
    ApplyDependsOnUncovered(f, g, txn.images);
  }

  lemma VisibleSurvives(d: Disk, tokenOffset: nat)
    requires d.Fit()
    ensures Survives(d, d.Visible(), tokenOffset)
  {
    assert d.unsynced[..|d.unsynced|] == d.unsynced;
    assert SurvivesAt(d, d.Visible(), tokenOffset, |d.unsynced|);
  }

  lemma SyncedSurvivor(d: Disk, f: Bytes, tokenOffset: nat)
    requires d.unsynced == [] && Survives(d, f, tokenOffset)
    ensures f == d.stable
  {}

  lemma VisibleAfterWrite(d: Disk, image: Image)
    requires d.Fit() && image.End() <= |d.stable|
    ensures d.Write(image).Fit()
    ensures d.Write(image).Visible() == WriteAt(d.Visible(), image)
  {
    ApplyAppend(d.stable, d.unsynced, [image]);
  }

  /** A new write adds only what it may leave over the file it finds. */
  lemma SurvivorsAfterWrite(d: Disk, image: Image, f: Bytes, tokenOffset: nat)
    requires d.Fit() && image.End() <= |d.stable|
    requires d.Write(image).Fit() && Survives(d.Write(image), f, tokenOffset)
    ensures Survives(d, f, tokenOffset) || Torn(d.Visible(), image, f, tokenOffset)
  {
    var d' := d.Write(image);
    var n := |d.unsynced|;
    var k :| 0 <= k <= |d'.unsynced| && SurvivesAt(d', f, tokenOffset, k);
    VisibleAfterWrite(d, image);
    if k <= n {
      assert d'.unsynced[..k] == d.unsynced[..k];
      assert d.unsynced[..n] == d.unsynced;
      if k < n {
        assert SurvivesAt(d, f, tokenOffset, k);
      } else if f == ApplyImages(d.stable, d.unsynced[..k]) {
        assert SurvivesAt(d, f, tokenOffset, k);
      }
    } else {
      assert d'.unsynced[..k] == d'.unsynced;
    }
  }

  // ---------------------------------------------------------------------
  // Disk operations
  // ---------------------------------------------------------------------

  ghost predicate Ready(s: Setting, target: Bytes, d: Disk) {
    && s.Valid() && d.Fit() && |d.stable| == |target| == s.FileSize()
    && SurvivorsInv(s, target, d)
  }

  lemma VisibleIsSafe(s: Setting, target: Bytes, d: Disk)
    requires Ready(s, target, d)
    ensures SafeFile(s, target, CurrentTxn(s, d), d.Visible())
  {
    VisibleSurvives(d, s.tokenOffset);
  }

  lemma TargetIsDone(s: Setting, target: Bytes, d: Disk, txn: Txn)
    requires Ready(s, target, d) && CurrentTxn(s, d) == Some(txn) && Footer(target) == txn.token
    requires Footer(d.Visible()).Less(txn.token)
    ensures Redoable(s, target, Some(txn), d.Visible())
  {
    VisibleIsSafe(s, target, d);
  }

  /** Adding a write that only touches bytes the receipt covers keeps every survivor repairable. */
  lemma CoveredWriteKeeps(s: Setting, target: Bytes, d: Disk, txn: Txn, image: Image)
    requires Ready(s, target, d) && CurrentTxn(s, d) == Some(txn)
    requires Redoable(s, target, Some(txn), d.Visible())
    requires image.End() <= s.tokenOffset
    requires forall i :: image.Covers(i) ==> Covered(txn.images, i)
    ensures Ready(s, target, d.Write(image))
  {
    hide DecodeReceipt, DecodeToken;
    VisibleAfterWrite(d, image);
    forall f | Survives(d.Write(image), f, s.tokenOffset)
      ensures SafeFile(s, target, Some(txn), f)
    {
      SurvivorsAfterWrite(d, image, f, s.tokenOffset);
      if !Survives(d, f, s.tokenOffset) {
        TornIsRedoable(s, target, txn, d.Visible(), image, f);
      }
    }
  }

  lemma FooterWriteKeeps(s: Setting, target: Bytes, d: Disk, txn: Txn, image: Image)
    requires Ready(s, target, d) && CurrentTxn(s, d) == Some(txn)
    requires Redoable(s, target, Some(txn), d.Visible())
    requires image.offset == s.tokenOffset && image.End() <= |target|
    requires WriteAt(d.Visible(), image) == target
    ensures Ready(s, target, d.Write(image))
  {
    hide DecodeReceipt, DecodeToken;
    VisibleAfterWrite(d, image);
    forall f | Survives(d.Write(image), f, s.tokenOffset)
      ensures SafeFile(s, target, Some(txn), f)
    {
      SurvivorsAfterWrite(d, image, f, s.tokenOffset);
    }
  }

  /** One image of the receipt is written. */
  lemma WriteKeeps(s: Setting, target: Bytes, d: Disk, txn: Txn, next: nat)
    requires Ready(s, target, d) && Footer(target) == txn.token
    requires Writing(s, target, d, txn, next) && next < |txn.images|
    ensures Ready(s, target, d.Write(txn.images[next]))
    ensures Writing(s, target, d.Write(txn.images[next]), txn, next + 1)
  {
    hide DecodeReceipt, DecodeToken;
    var image := txn.images[next];
    TargetIsDone(s, target, d, txn);
    VisibleAfterWrite(d, image);
    assert txn.images[next..][1..] == txn.images[next + 1..];
    assert ApplyImages(WriteAt(d.Visible(), image), txn.images[next + 1..]) == target;
    if next < |txn.images| - 1 {
      assert image == txn.images[..|txn.images| - 1][next];
      CoveredWriteKeeps(s, target, d, txn, image);
      FooterUntouched(d.Visible(), WriteAt(d.Visible(), image));
    } else {
      assert txn.images[next + 1..] == [];
      FooterWriteKeeps(s, target, d, txn, image);
    }
  }

  lemma ShortWriteKeeps(s: Setting, target: Bytes, d: Disk, txn: Txn, next: nat, n: nat)
    requires Ready(s, target, d) && Footer(target) == txn.token
    requires Writing(s, target, d, txn, next) && next < |txn.images|
    requires n < |txn.images[next].bytes| && txn.images[next].offset != s.tokenOffset
    ensures Ready(s, target, d.Write(Image(txn.images[next].offset, txn.images[next].bytes[..n])))
  {
    hide DecodeReceipt, DecodeToken;
    TargetIsDone(s, target, d, txn);
    assert txn.images[next] == txn.images[..|txn.images| - 1][next];
    CoveredWriteKeeps(s, target, d, txn, Image(txn.images[next].offset, txn.images[next].bytes[..n]));
  }

  lemma SyncKeeps(s: Setting, target: Bytes, d: Disk)
    requires Ready(s, target, d)
    ensures Ready(s, target, d.Sync()) && d.Sync().Visible() == d.Visible()
  {
    hide DecodeReceipt, DecodeToken;
    VisibleIsSafe(s, target, d);
    forall f | Survives(d.Sync(), f, s.tokenOffset)
      ensures f == d.Visible()
    {
      SyncedSurvivor(d.Sync(), f, s.tokenOffset);
    }
  }

  /** A published receipt is the one read next, over the file as it was. */
  lemma PublishGives(s: Setting, d: Disk, txn: Txn)
    requires d.Fit() && ValidEncoding(txn) && (!d.named ==> d.receipt == None)
    ensures var d' := d.Publish(EncodeReceipt(txn, s.crc).value, s.ordered);
      && d'.Fit() && d'.Visible() == d.Visible() && |d'.stable| == |d.stable|
      && (s.ordered || d.unsynced == [] ==> d'.unsynced == [])
      && CurrentTxn(s, d') == Some(txn)
      && d'.named == d.named && (!d'.named ==> d'.receipt == None)
  {
    ReceiptRoundTrip(txn, s.crc);
    hide DecodeReceipt, DecodeToken, EncodeReceipt;
  }

  /** An ordered publish leaves only the visible file to survive; any other leaves what could survive before. */
  lemma PublishSurvivors(s: Setting, d: Disk, encoded: Bytes, f: Bytes)
    requires d.Fit()
    ensures Survives(d.Publish(encoded, s.ordered), f, s.tokenOffset)
       <==> if s.ordered then f == d.Visible() else Survives(d, f, s.tokenOffset)
  {
    var d' := d.Publish(encoded, s.ordered);
    if s.ordered {
      VisibleSurvives(d', s.tokenOffset);
    } else {
      SameSurvivors(d, d', f, s.tokenOffset);
    }
  }

  lemma SameSurvivors(d: Disk, d': Disk, f: Bytes, tokenOffset: nat)
    requires d.stable == d'.stable && d.unsynced == d'.unsynced
    ensures Survives(d, f, tokenOffset) <==> Survives(d', f, tokenOffset)
  {
    if Survives(d, f, tokenOffset) {
      var k :| 0 <= k <= |d.unsynced| && SurvivesAt(d, f, tokenOffset, k);
      assert SurvivesAt(d', f, tokenOffset, k);
    }
    if Survives(d', f, tokenOffset) {
      var k :| 0 <= k <= |d'.unsynced| && SurvivesAt(d', f, tokenOffset, k);
      assert SurvivesAt(d, f, tokenOffset, k);
    }
  }

  lemma HarmlessSurvivors(s: Setting, d: Disk, encoded: Bytes, images: seq<Image>, f: Bytes)
    requires d.Fit() && Harmless(s, d, images)
    requires Survives(d.Publish(encoded, s.ordered), f, s.tokenOffset)
    ensures SameOutside(images, f, d.Visible())
  {
    PublishSurvivors(s, d, encoded, f);
  }

  // ---------------------------------------------------------------------
  // Steps
  // ---------------------------------------------------------------------

  lemma TargetFooter(base: Bytes, first: Token, w: World)
    ensures Footer(Target(base, first, w.log)) == LastToken(first, w.log)
    ensures Body(Target(base, first, w.log)) == Fold(base, w.log)
  {
    FooterOf(Fold(base, w.log), LastToken(first, w.log));
  }

  lemma ReplyKeeps(log: seq<Entry>, replies: seq<(Token, Reply)>, token: Token, reply: Reply)
    requires RepliesInv(log, replies)
    requires reply.Applied? || reply.Replayed? ==> Logged(log, token, reply.result)
    ensures RepliesInv(log, replies + [(token, reply)])
  {}

  lemma StartIsSafe(s: Setting, base: Bytes, first: Token, w: World)
    requires s.Valid() && Starts(s, base, first, w)
    ensures Inv(s, base, first, w)
  {}

  lemma ArrivesKeeps(s: Setting, base: Bytes, first: Token, w: World, w': World)
    requires Inv(s, base, first, w) && Arrives(s, w, w')
    ensures Inv(s, base, first, w')
  {}

  lemma RenamesKeeps(s: Setting, base: Bytes, first: Token, w: World, w': World)
    requires Inv(s, base, first, w) && Renames(s, w, w')
    ensures Inv(s, base, first, w')
  {
    hide DecodeReceipt, DecodeToken;
    assert CurrentTxn(s, w'.disk) == CurrentTxn(s, w.disk);
    forall f | Survives(w'.disk, f, s.tokenOffset)
      ensures Survives(w.disk, f, s.tokenOffset)
    {
      SameSurvivors(w.disk, w'.disk, f, s.tokenOffset);
    }
  }

  lemma ReadsKeeps(s: Setting, base: Bytes, first: Token, w: World, w': World)
    requires Inv(s, base, first, w) && Reads(s, w, w')
    ensures Inv(s, base, first, w')
    ensures w'.phase != Idle
  {
    hide DecodeReceipt, DecodeToken, ValidEncoding;
    var target := Target(base, first, w.log);
    TargetFooter(base, first, w);
    VisibleIsSafe(s, target, w.disk);
    if w.log != [] {
      var txn := CurrentTxn(s, w.disk).value;
      if Footer(w.disk.Visible()).Less(txn.token) {
        TargetIsDone(s, target, w.disk, txn);
        assert txn.images[0..] == txn.images;
      }
    }
  }

  lemma RedoesKeeps(s: Setting, base: Bytes, first: Token, w: World, w': World)
    requires Inv(s, base, first, w) && Redoes(s, w, w')
    ensures Inv(s, base, first, w')
  {
    hide DecodeReceipt, DecodeToken, ReadAt, Footer, Full, SurvivorsInv, RepliesInv, TokensIncrease, ValidEncoding, Fold;
    var target := Target(base, first, w.log);
    TargetFooter(base, first, w);
    var txn := w.phase.txn;
    if w.phase.next < |txn.images| {
      WriteKeeps(s, target, w.disk, txn, w.phase.next);
    } else {
      assert txn.images[w.phase.next..] == [];
      SyncKeeps(s, target, w.disk);
    }
  }

  lemma PromotesKeeps(s: Setting, base: Bytes, first: Token, w: World, w': World)
    requires Inv(s, base, first, w) && Promotes(s, w, w')
    ensures Inv(s, base, first, w')
  {
    hide DecodeReceipt, DecodeToken, ValidEncoding;
    assert CurrentTxn(s, w'.disk) == CurrentTxn(s, w.disk);
    forall f | Survives(w'.disk, f, s.tokenOffset)
      ensures Survives(w.disk, f, s.tokenOffset)
    {
      SameSurvivors(w.disk, w'.disk, f, s.tokenOffset);
    }
  }

  /** Compaction happens only over a file that already is the target. */
  lemma TidyKeeps(s: Setting, base: Bytes, first: Token, w: World, txn: Txn, d': Disk)
    requires Inv(s, base, first, w) && w.disk.Visible() == Target(base, first, w.log)
    requires CurrentTxn(s, w.disk) == Some(txn) && w.log != []
    requires Tidies(s, w.disk, txn, d') && (d' != w.disk ==> Harmless(s, w.disk, []))
    ensures ReceiptInv(s, d', w.log) && Ready(s, Target(base, first, w.log), d')
    ensures d'.Visible() == w.disk.Visible()
  {
    hide DecodeReceipt, DecodeToken, EncodeReceipt;
    if d' != w.disk {
      assert ValidEncoding(Compacted(txn));
      PublishGives(s, w.disk, Compacted(txn));
      forall f | Survives(d', f, s.tokenOffset) ensures f == d'.Visible() {
        HarmlessSurvivors(s, w.disk, EncodeReceipt(Compacted(txn), s.crc).value, [], f);
      }
    }
  }

  lemma TidiesAfterRecoveryKeeps(s: Setting, base: Bytes, first: Token, w: World, w': World)
    requires Inv(s, base, first, w) && TidiesAfterRecovery(s, w, w') && HarmlessStep(s, w, w')
    ensures Inv(s, base, first, w')
  {
    hide DecodeReceipt, DecodeToken, EncodeReceipt, ValidEncoding;
    TidyKeeps(s, base, first, w, w.phase.txn, w'.disk);
  }

  lemma ReturnKeeps(s: Setting, base: Bytes, first: Token, w: World, reply: Reply)
    requires Inv(s, base, first, w) && !w.phase.Idle?
    requires reply.Applied? || reply.Replayed? ==> Logged(w.log, w.phase.req.token, reply.result)
    ensures Inv(s, base, first, w.Return(reply))
  {
    hide DecodeReceipt, DecodeToken, SurvivorsInv, ReceiptInv, Footer, RepliesInv, TokensIncrease, Fold;
    ReplyKeeps(w.log, w.replies, w.phase.req.token, reply);
  }

  lemma ReceiptIsLogged(s: Setting, d: Disk, log: seq<Entry>)
    requires ReceiptInv(s, d, log)
    ensures d.Read(s.crc).Ok?
    ensures d.Read(s.crc).value.Some? <==> log != []
    ensures log != [] ==> var txn := d.Read(s.crc).value.value.0;
      txn.token == log[|log| - 1].token && Logged(log, txn.token, txn.result)
  {}

  lemma DecidesKeeps(s: Setting, base: Bytes, first: Token, w: World, w': World)
    requires Inv(s, base, first, w) && Decides(s, w, w')
    ensures Inv(s, base, first, w')
    ensures Chosen(w.phase.req) ==> w'.phase == Staging(w.phase.req)
  {
    hide DecodeReceipt, DecodeToken, SurvivorsInv, ReceiptInv, Footer, RepliesInv, CurrentTxn, ReadAt, TokensIncrease, Fold,
      ApplyImages, Fits;
    TargetFooter(base, first, w);
    ReceiptIsLogged(s, w.disk, w.log);
    if w'.phase.Idle? {
      ReturnKeeps(s, base, first, w, w'.replies[|w.replies|].1);
    }
  }

  lemma LogGrows(base: Bytes, first: Token, log: seq<Entry>, e: Entry)
    requires TokensIncrease(first, log) && LastToken(first, log).Less(e.token)
    ensures TokensIncrease(first, log + [e])
    ensures LastToken(first, log + [e]) == e.token
    ensures Fold(base, log + [e]) == Effect(Fold(base, log), e.mutation)
  {}

  lemma RepliesGrow(log: seq<Entry>, replies: seq<(Token, Reply)>, e: Entry)
    requires RepliesInv(log, replies)
    ensures RepliesInv(log + [e], replies)
  {
    forall token, result | Logged(log, token, result) ensures Logged(log + [e], token, result) {
      var i :| 0 <= i < |log| && log[i].token == token && log[i].result == result;
      assert (log + [e])[i] == log[i];
    }
  }

  /** Every survivor's footer is below `token`. */
  ghost predicate Behind(s: Setting, d: Disk, token: Token) {
    forall f :: Survives(d, f, s.tokenOffset) ==> |f| == s.FileSize() && Footer(f).Less(token)
  }

  lemma SurvivorsAreBehind(s: Setting, base: Bytes, first: Token, w: World, token: Token)
    requires Inv(s, base, first, w) && LastToken(first, w.log).Less(token)
    ensures Behind(s, w.disk, token)
  {
    hide DecodeReceipt, DecodeToken, Footer, ValidEncoding;
    TargetFooter(base, first, w);
  }

  /** Every survivor is below the receipt's token, and its images complete them all. */
  lemma FreshReceiptIsReady(s: Setting, target: Bytes, d: Disk, txn: Txn)
    requires s.Valid() && d.Fit() && |d.stable| == |target| == s.FileSize()
    requires CurrentTxn(s, d) == Some(txn) && Redoable(s, target, Some(txn), d.Visible())
    requires Behind(s, d, txn.token)
    requires forall f :: Survives(d, f, s.tokenOffset) ==> SameOutside(txn.images, f, d.Visible())
    ensures Ready(s, target, d) && Writing(s, target, d, txn, 0)
  {
    hide DecodeReceipt, DecodeToken, Footer;
    assert txn.images[0..] == txn.images;
    forall f | Survives(d, f, s.tokenOffset) ensures Redoable(s, target, Some(txn), f) {
      ApplyDependsOnUncovered(f, d.Visible(), txn.images);
    }
  }

  /** The receipt of a new mutation, and what its images make of a fully recovered file. */
  lemma StagedReceipt(s: Setting, base: Bytes, first: Token, log: seq<Entry>, images: seq<Image>, e: Entry, txn: Txn)
    requires s.Valid() && |base| == s.tokenOffset
    requires TokensIncrease(first, log) && LastToken(first, log).Less(e.token)
    requires EndsBy(e.mutation, s.tokenOffset, s.tokenOffset) && e.mutation.stage(Fold(base, log)) == Plan(images, e.result)
    requires txn == Commitment(e.token, s.tokenOffset, s.FileSize(), images, e.result) && ValidEncoding(txn)
    ensures Redoable(s, Target(base, first, log + [e]), Some(txn), Target(base, first, log))
    ensures ReceiptMatches(s, log + [e], txn)
  {
    hide DecodeReceipt, DecodeToken, Footer, ApplyImages, Effect, ValidEncoding, Fold, TokensIncrease, Commitment;
    var body, last := Fold(base, log), LastToken(first, log);
    CommitmentReaches(s, body, last, e.mutation, e.token);
    CommitmentFields(e.token, s.tokenOffset, s.FileSize(), images, e.result);
    LogGrows(base, first, log, e);
    FooterOf(body, last);
  }

  /** The disk once the receipt of a new mutation is published over a fully recovered file. */
  lemma PublishedDisk(s: Setting, base: Bytes, first: Token, log: seq<Entry>, d: Disk, images: seq<Image>, e: Entry, txn: Txn)
    requires Shape(s, base, d) && d.Visible() == Target(base, first, log) && (!d.named ==> d.receipt == None)
    requires Behind(s, d, e.token) && Harmless(s, d, txn.images)
    requires TokensIncrease(first, log) && LastToken(first, log).Less(e.token)
    requires EndsBy(e.mutation, s.tokenOffset, s.tokenOffset) && e.mutation.stage(Fold(base, log)) == Plan(images, e.result)
    requires txn == Commitment(e.token, s.tokenOffset, s.FileSize(), images, e.result) && ValidEncoding(txn)
    ensures var d', target := d.Publish(EncodeReceipt(txn, s.crc).value, s.ordered), Target(base, first, log + [e]);
      Ready(s, target, d') && Writing(s, target, d', txn, 0) && ReceiptInv(s, d', log + [e])
  {
    hide DecodeReceipt, DecodeToken, EncodeReceipt, Footer, CurrentTxn, ApplyImages, Effect, ValidEncoding, Fold,
      TokensIncrease, Commitment, EndsBy, Harmless, Survives;
    var encoded := EncodeReceipt(txn, s.crc).value;
    var d' := d.Publish(encoded, s.ordered);
    PublishGives(s, d, txn);
    StagedReceipt(s, base, first, log, images, e, txn);
    CommitmentFields(e.token, s.tokenOffset, s.FileSize(), images, e.result);
    VisibleSurvives(d, s.tokenOffset);
    forall f | Survives(d', f, s.tokenOffset)
      ensures SameOutside(txn.images, f, d'.Visible()) && |f| == s.FileSize() && Footer(f).Less(e.token)
    {
      HarmlessSurvivors(s, d, encoded, txn.images, f);
      PublishSurvivors(s, d, encoded, f);
    }
    FreshReceiptIsReady(s, Target(base, first, log + [e]), d', txn);
  }

  lemma PublishKeeps(s: Setting, base: Bytes, first: Token, w: World, images: seq<Image>, e: Entry, txn: Txn)
    requires Inv(s, base, first, w) && w.phase.Staging? && Harmless(s, w.disk, txn.images)
    requires e.token == w.phase.req.token && EndsBy(e.mutation, s.tokenOffset, s.tokenOffset)
    requires e.mutation.stage(Fold(base, w.log)) == Plan(images, e.result)
    requires txn == Commitment(e.token, s.tokenOffset, s.FileSize(), images, e.result) && ValidEncoding(txn)
    ensures Inv(s, base, first, w.(disk := w.disk.Publish(EncodeReceipt(txn, s.crc).value, s.ordered),
                                   phase := Committing(w.phase.req, txn, 0), log := w.log + [e]))
  {
    hide DecodeReceipt, DecodeToken, EncodeReceipt, Footer, SurvivorsInv, RepliesInv, CurrentTxn, ApplyImages, Effect,
      ValidEncoding, Fold, TokensIncrease, Commitment, Writing, ReceiptMatches, Harmless, EndsBy;
    SurvivorsAreBehind(s, base, first, w, e.token);
    PublishedDisk(s, base, first, w.log, w.disk, images, e, txn);
    CommitmentFields(e.token, s.tokenOffset, s.FileSize(), images, e.result);
    LogGrows(base, first, w.log, e);
    RepliesGrow(w.log, w.replies, e);
  }

  lemma CommitmentFields(token: Token, tokenOffset: u64, fileSize: u64, images: seq<Image>, result: Bytes)
    ensures var txn := Commitment(token, tokenOffset, fileSize, images, result);
      txn.token == token && txn.tokenOffset == tokenOffset && txn.fileSize == fileSize && txn.result == result
  {}

  lemma StagesKeeps(s: Setting, base: Bytes, first: Token, w: World, w': World)
    requires Inv(s, base, first, w) && Stages(s, w, w') && HarmlessStep(s, w, w')
    requires Confined(s, w'.log, s.tokenOffset)
    ensures Inv(s, base, first, w')
  {
    hide DecodeReceipt, DecodeToken, EncodeReceipt, ValidEncoding, Footer, SurvivorsInv, ReceiptInv, RepliesInv, CurrentTxn;
    if w'.phase.Idle? {
      ReturnKeeps(s, base, first, w, Failed);
    } else {
      TargetFooter(base, first, w);
      var req := w.phase.req;
      var plan := req.mutation.stage(Body(w.disk.Visible()));
      var e := Entry(req.token, req.mutation, plan.result);
      assert w'.log[|w.log|] == e;
      PublishKeeps(s, base, first, w, plan.images, e, w'.phase.txn);
    }
  }

  lemma CommitsKeeps(s: Setting, base: Bytes, first: Token, w: World, w': World)
    requires Inv(s, base, first, w) && Commits(s, w, w')
    ensures Inv(s, base, first, w')
  {
    hide DecodeReceipt, DecodeToken, ReadAt, Footer, Full, SurvivorsInv, RepliesInv, TokensIncrease, ValidEncoding, Fold;
    var target := Target(base, first, w.log);
    TargetFooter(base, first, w);
    var txn := w.phase.txn;
    if w.phase.next < |txn.images| {
      WriteKeeps(s, target, w.disk, txn, w.phase.next);
    } else {
      assert txn.images[w.phase.next..] == [];
      SyncKeeps(s, target, w.disk);
    }
  }

  lemma FinishesKeeps(s: Setting, base: Bytes, first: Token, w: World, w': World)
    requires Inv(s, base, first, w) && Finishes(s, w, w')
    ensures Inv(s, base, first, w')
  {
    hide DecodeReceipt, DecodeToken, EncodeReceipt, ValidEncoding, Footer, SurvivorsInv, ReadAt;
    ReceiptIsLogged(s, w.disk, w.log);
    SettledIsHarmless(s, w.disk, []);
    TidyKeeps(s, base, first, w, w.phase.txn, w'.disk);
    ReplyKeeps(w.log, w.replies, w.phase.req.token, Applied(w.phase.txn.result));
  }

  lemma AbandonsKeeps(s: Setting, base: Bytes, first: Token, w: World, w': World)
    requires Inv(s, base, first, w) && Abandons(s, w, w')
    ensures Inv(s, base, first, w')
  {
    hide DecodeReceipt, DecodeToken, ReadAt, Footer, Full, SurvivorsInv, RepliesInv, TokensIncrease, ValidEncoding, Fold;
    TargetFooter(base, first, w);
    ReplyKeeps(w.log, w.replies, w.phase.req.token, Failed);
    if w'.disk != w.disk {
      var n: nat :| ShortWrite(s, w, n) && w'.disk == w.disk.Write(Shortened(w, n));
      ShortWriteKeeps(s, Target(base, first, w.log), w.disk, w.phase.txn, w.phase.next, n);
    }
  }

  lemma LosesPowerKeeps(s: Setting, base: Bytes, first: Token, w: World, w': World)
    requires Inv(s, base, first, w) && LosesPower(s, w, w')
    ensures Inv(s, base, first, w')
  {
    hide DecodeReceipt, DecodeToken, ValidEncoding, Footer, Full;
    assert CurrentTxn(s, w'.disk) == CurrentTxn(s, w.disk);
    forall f | Survives(w'.disk, f, s.tokenOffset) ensures f == w'.disk.stable {
      SyncedSurvivor(w'.disk, f, s.tokenOffset);
    }
  }

  lemma StepKeeps(s: Setting, base: Bytes, first: Token, w: World, w': World)
    requires s.Valid() && Inv(s, base, first, w) && Step(s, w, w') && HarmlessStep(s, w, w')
    requires Confined(s, w'.log, s.tokenOffset)
    ensures Inv(s, base, first, w')
  {
    hide Inv, Arrives, Renames, Reads, Redoes, Promotes, TidiesAfterRecovery, Decides, Stages, Commits, Finishes,
      Abandons, LosesPower;
    if Arrives(s, w, w') { ArrivesKeeps(s, base, first, w, w'); }
    else if Renames(s, w, w') { RenamesKeeps(s, base, first, w, w'); }
    else if Reads(s, w, w') { ReadsKeeps(s, base, first, w, w'); }
    else if Redoes(s, w, w') { RedoesKeeps(s, base, first, w, w'); }
    else if Promotes(s, w, w') { PromotesKeeps(s, base, first, w, w'); }
    else if TidiesAfterRecovery(s, w, w') { TidiesAfterRecoveryKeeps(s, base, first, w, w'); }
    else if Decides(s, w, w') { DecidesKeeps(s, base, first, w, w'); }
    else if Stages(s, w, w') { StagesKeeps(s, base, first, w, w'); }
    else if Commits(s, w, w') { CommitsKeeps(s, base, first, w, w'); }
    else if Finishes(s, w, w') { FinishesKeeps(s, base, first, w, w'); }
    else if Abandons(s, w, w') { AbandonsKeeps(s, base, first, w, w'); }
    else { LosesPowerKeeps(s, base, first, w, w'); }
  }

  lemma CommitmentReaches(s: Setting, body: Bytes, last: Token, m: Mutation, token: Token)
    requires s.Valid() && |body| == s.tokenOffset && EndsBy(m, |body|, |body|) && m.stage(body).Plan? && last.Less(token)
    ensures var txn := Commitment(token, s.tokenOffset, s.FileSize(), m.stage(body).images, m.stage(body).result);
      && Full(s, txn) && Fits(txn.images, s.FileSize())
      && ApplyImages(body + last.Encode(), txn.images) == Effect(body, m) + token.Encode()
  {
    var images := m.stage(body).images;
    var footer := FooterImage(token, s.tokenOffset);
    var f := body + last.Encode();
    assert (images + [footer])[..|images|] == images;
    ApplyAppend(f, images, [footer]);
    ApplyBelow(body, last.Encode(), images);
    EffectBelow(body, m);
    var g := ApplyImages(f, images);
    assert ApplyImages(g, [footer]) == WriteAt(g, footer);
    assert WriteAt(g, footer) == Effect(body, m) + token.Encode();
  }
}
