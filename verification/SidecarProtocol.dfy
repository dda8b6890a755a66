/** The crash-safe mutation protocol of probabilistic sidecars as a state
    machine: one step per write, publish, rename, fsync, decision, abandoned
    operation or power loss.

    Disk axioms. A receipt publish is atomic and durable. Data writes reach the
    disk in the order they were issued, so a power loss keeps a prefix of the
    unsynced writes and may tear the next one, except that the 16-byte footer
    write is whole or absent. `ordered` says whether a durable publish also
    implies that every data write issued before it is durable. */
module SidecarProtocol {
  import opened Bytes
  import opened AfterImages
  import opened Receipt

  // ---------------------------------------------------------------------
  // Files, mutations and the log they are folded from
  // ---------------------------------------------------------------------

  function Footer(file: Bytes): (t: Token)
    requires |file| >= TOKEN_SIZE
  {
    DecodeToken(file[|file| - TOKEN_SIZE..]).value
  }

  function Body(file: Bytes): Bytes
    requires |file| >= TOKEN_SIZE
  {
    file[..|file| - TOKEN_SIZE]
  }

  lemma FooterOf(body: Bytes, t: Token)
    ensures Footer(body + t.Encode()) == t
    ensures Body(body + t.Encode()) == body
  {
    TokenRoundTrip(t);
    assert (body + t.Encode())[|body|..] == t.Encode();
  }

  /** What a staged mutation wants written, or a staging error. */
  datatype Plan = Plan(images: seq<Image>, result: Bytes) | Refused

  /** A mutation is staged from the body it finds. */
  datatype Mutation = Mutation(stage: Bytes -> Plan)

  /** Staged images stay below the footer. */
  ghost predicate BelowFooter(m: Mutation) {
    forall body: Bytes :: m.stage(body).Plan? ==> Fits(m.stage(body).images, |body|)
  }

  /** Images staged from a body of `size` bytes end at or below `bound`. */
  ghost predicate EndsBy(m: Mutation, size: nat, bound: nat) {
    forall body: Bytes :: |body| == size && m.stage(body).Plan? ==> Fits(m.stage(body).images, bound)
  }

  /** One execution of a mutation: the body once all images are in the file. */
  function Effect(body: Bytes, m: Mutation): (b: Bytes)
    ensures |b| == |body|
  {
    match m.stage(body)
    case Plan(images, _) =>
      if Fits(images, |body| + TOKEN_SIZE) then Body(ApplyImages(body + ZERO.Encode(), images)) else body
    case Refused => body
  }

  lemma EffectBelow(body: Bytes, m: Mutation)
    requires m.stage(body).Plan? && Fits(m.stage(body).images, |body|)
    ensures Effect(body, m) == ApplyImages(body, m.stage(body).images)
  {
    ApplyBelow(body, ZERO.Encode(), m.stage(body).images);
  }

  datatype Entry = Entry(token: Token, mutation: Mutation, result: Bytes)

  /** Every logged mutation executed once, in log order. */
  ghost function Fold(base: Bytes, log: seq<Entry>): (b: Bytes)
    ensures |b| == |base|
  {
    if log == [] then base else Effect(Fold(base, log[..|log| - 1]), log[|log| - 1].mutation)
  }

  ghost function LastToken(first: Token, log: seq<Entry>): Token {
    if log == [] then first else log[|log| - 1].token
  }

  ghost predicate TokensIncrease(first: Token, log: seq<Entry>) {
    && (forall i :: 0 <= i < |log| ==> first.Less(log[i].token))
    && (forall i, j :: 0 <= i < j < |log| ==> log[i].token.Less(log[j].token))
  }

  // ---------------------------------------------------------------------
  // What the code computes from a receipt and a file
  // ---------------------------------------------------------------------

  function FooterImage(token: Token, tokenOffset: u64): Image {
    Image(tokenOffset, token.Encode())
  }

  /** The transaction `commit` builds: the footer image comes last. */
  function Commitment(token: Token, tokenOffset: u64, fileSize: u64, images: seq<Image>, result: Bytes): Txn {
    Txn(token, tokenOffset, fileSize, images + [FooterImage(token, tokenOffset)], result)
  }

  function Compacted(t: Txn): Txn {
    t.(images := [])
  }

  /** `compact_receipt_if_large` replaces this receipt. */
  predicate Compactable(t: Txn) {
    ValidEncoding(t) && EncodedSize(t) >= COMPACT_RECEIPT_THRESHOLD_BYTES && t.images != []
  }

  /** The file after `recover` has seen receipt `t`. */
  function RecoveredFile(file: Bytes, t: Option<Txn>): (f: Bytes)
    requires |file| >= TOKEN_SIZE
    requires t.Some? ==> Fits(t.value.images, |file|)
    ensures |f| == |file|
  {
    if t.Some? && Footer(file).Less(t.value.token) then ApplyImages(file, t.value.images) else file
  }

  // ---------------------------------------------------------------------
  // The disk
  // ---------------------------------------------------------------------

  /** `named` is false while the sidecar still has its ".pending-create" name;
      then its receipt lives at the pending path. */
  datatype Disk = Disk(
    stable: Bytes, unsynced: seq<Image>, receipt: Option<Bytes>, pending: Option<Bytes>, named: bool)
  {
    predicate Fit() { Fits(unsynced, |stable|) }

    /** The file as reads see it. */
    function Visible(): Bytes
      requires Fit()
    {
      ApplyImages(stable, unsynced)
    }

    function Write(image: Image): Disk { this.(unsynced := unsynced + [image]) }

    function Sync(): Disk
      requires Fit()
    {
      this.(stable := Visible(), unsynced := [])
    }

    function Publish(encoded: Bytes, ordered: bool): Disk
      requires Fit()
    {
      var d := if ordered then Sync() else this;
      if named then d.(receipt := Some(encoded)) else d.(pending := Some(encoded))
    }

    function Promote(): Disk { this.(receipt := pending, pending := None) }

    /** `read_transaction_if_present`: the receipt and whether it came from the pending path. */
    function Read(crc: Checksum): Result<Option<(Txn, bool)>> {
      if named && receipt.Some? then ReadAt(receipt.value, false, crc)
      else if pending.Some? then ReadAt(pending.value, named, crc)
      else Ok(None)
    }
  }

  function ReadAt(encoded: Bytes, fromPending: bool, crc: Checksum): Result<Option<(Txn, bool)>> {
    match DecodeReceipt(encoded, crc)
    case Err => Err
    case Ok(t) => Ok(Some((t, fromPending)))
  }

  /** `f` may be what is left of writing `image` over `g` when the power goes. */
  ghost predicate Torn(g: Bytes, image: Image, f: Bytes, tokenOffset: nat) {
    && |f| == |g| && image.End() <= |g|
    && (forall i :: 0 <= i < |f| && !image.Covers(i) ==> f[i] == g[i])
    && (image.offset == tokenOffset ==> f == g || f == WriteAt(g, image))
  }

  /** `f` may be the file after a power loss. */
  ghost predicate Survives(d: Disk, f: Bytes, tokenOffset: nat) {
    d.Fit() && exists k :: 0 <= k <= |d.unsynced| && SurvivesAt(d, f, tokenOffset, k)
  }

  ghost predicate SurvivesAt(d: Disk, f: Bytes, tokenOffset: nat, k: nat)
    requires d.Fit() && k <= |d.unsynced|
  {
    var g := ApplyImages(d.stable, d.unsynced[..k]);
    f == g || (k < |d.unsynced| && Torn(g, d.unsynced[k], f, tokenOffset))
  }

  // ---------------------------------------------------------------------
  // The program
  // ---------------------------------------------------------------------

  /** `logless` marks a caller that passed index 0 and takes the sidecar's next token. */
  datatype Request = Request(token: Token, mutation: Mutation, logless: bool)

  datatype Reply = Applied(result: Bytes) | Replayed(result: Bytes) | Stale | Failed

  datatype Phase =
    | Idle
    | Recovering(req: Request)
    | Redo(req: Request, txn: Txn, fromPending: bool, next: nat)
    | Promoting(req: Request, txn: Txn)
    | Tidying(req: Request, txn: Txn)
    | Recovered(req: Request)
    | Staging(req: Request)
    | Committing(req: Request, txn: Txn, next: nat)
    | Finishing(req: Request, txn: Txn)

  /** `log` and `replies` are history: no step reads them. */
  datatype World = World(disk: Disk, phase: Phase, log: seq<Entry>, replies: seq<(Token, Reply)>)
  {
    function Return(reply: Reply): World
      requires !phase.Idle?
    {
      this.(phase := Idle, replies := replies + [(phase.req.token, reply)])
    }
  }

  datatype Setting = Setting(crc: Checksum, tokenOffset: u64, ordered: bool) {
    predicate Valid() { tokenOffset + TOKEN_SIZE <= U64_MAX }
    function FileSize(): nat { tokenOffset + TOKEN_SIZE }
  }

  ghost predicate Arrives(s: Setting, w: World, w': World) {
    && w.phase.Idle?
    && w'.phase.Recovering?
    && w' == w.(phase := w'.phase)
    && w'.phase.req.logless == (w'.phase.req.token.index == 0)
  }

  /** The data file gets its final name. */
  ghost predicate Renames(s: Setting, w: World, w': World) {
    w.phase.Idle? && !w.disk.named && w' == w.(disk := w.disk.(named := true))
  }

  /** `recover` reads the receipt. */
  ghost predicate Reads(s: Setting, w: World, w': World)
    requires s.Valid()
  {
    && w.phase.Recovering? && w.disk.Fit() && |w.disk.stable| == s.FileSize()
    && match w.disk.Read(s.crc)
       case Err => w' == w.Return(Failed)
       case Ok(None) => w' == w.(phase := Recovered(w.phase.req))
       case Ok(Some((txn, fromPending))) =>
         if txn.tokenOffset != s.tokenOffset || txn.fileSize != s.FileSize() then w' == w.Return(Failed)
         else if Footer(w.disk.Visible()).Less(txn.token) then
           w' == w.(phase := Redo(w.phase.req, txn, fromPending, 0))
         else
           w' == w.(phase := AfterRedo(w.phase.req, txn, fromPending))
  }

  function AfterRedo(req: Request, txn: Txn, fromPending: bool): Phase {
    if fromPending then Promoting(req, txn) else Tidying(req, txn)
  }

  ghost predicate Redoes(s: Setting, w: World, w': World) {
    && w.phase.Redo? && w.disk.Fit() && w.phase.next <= |w.phase.txn.images|
    && if w.phase.next < |w.phase.txn.images| then
         w' == w.(disk := w.disk.Write(w.phase.txn.images[w.phase.next]),
                  phase := Redo(w.phase.req, w.phase.txn, w.phase.fromPending, w.phase.next + 1))
       else
         w' == w.(disk := w.disk.Sync(), phase := AfterRedo(w.phase.req, w.phase.txn, w.phase.fromPending))
  }

  /** The rename is best effort. */
  ghost predicate Promotes(s: Setting, w: World, w': World) {
    && w.phase.Promoting?
    && (w'.disk == w.disk.Promote() || w'.disk == w.disk)
    && w' == w.(disk := w'.disk, phase := Tidying(w.phase.req, w.phase.txn))
  }

  /** Compaction is best effort. */
  ghost predicate Tidies(s: Setting, d: Disk, txn: Txn, d': Disk) {
    || d' == d
    || (d.Fit() && Compactable(txn) && EncodeReceipt(Compacted(txn), s.crc).Ok?
        && d' == d.Publish(EncodeReceipt(Compacted(txn), s.crc).value, s.ordered))
  }

  ghost predicate TidiesAfterRecovery(s: Setting, w: World, w': World) {
    && w.phase.Tidying?
    && Tidies(s, w.disk, w.phase.txn, w'.disk)
    && w' == w.(disk := w'.disk, phase := Recovered(w.phase.req))
  }

  /** `effective_token`, or the decision of `begin`. */
  ghost predicate Decides(s: Setting, w: World, w': World)
    requires s.Valid()
  {
    && w.phase.Recovered? && w.disk.Fit() && |w.disk.stable| == s.FileSize()
    && var req, footer := w.phase.req, Footer(w.disk.Visible());
    if req.token.index == 0 then
      if footer.index == U64_MAX then w' == w.Return(Failed)
      else w' == w.(phase := Recovering(req.(token := Token(footer.index + 1, Max(req.token.ordinal, 1)))))
    else if footer.Less(req.token) then w' == w.(phase := Staging(req))
    else if req.token.Less(footer) then w' == w.Return(Stale)
    else match w.disk.Read(s.crc)
      case Err => w' == w.Return(Failed)
      case Ok(None) => w' == w.Return(Stale)
      case Ok(Some((txn, _))) =>
        w' == w.Return(if txn.token == req.token then Replayed(txn.result) else Stale)
  }

  /** Staging and the receipt publish of `commit`. */
  ghost predicate Stages(s: Setting, w: World, w': World)
    requires s.Valid()
  {
    && w.phase.Staging? && w.disk.Fit() && |w.disk.stable| == s.FileSize()
    && var req := w.phase.req;
    match req.mutation.stage(Body(w.disk.Visible()))
    case Refused => w' == w.Return(Failed)
    case Plan(images, result) =>
      var txn := Commitment(req.token, s.tokenOffset, s.FileSize(), images, result);
      match EncodeReceipt(txn, s.crc)
      case Err => w' == w.Return(Failed)
      case Ok(encoded) =>
        w' == w.(disk := w.disk.Publish(encoded, s.ordered), phase := Committing(req, txn, 0),
                 log := w.log + [Entry(req.token, req.mutation, result)])
  }

  ghost predicate Commits(s: Setting, w: World, w': World) {
    && w.phase.Committing? && w.disk.Fit() && w.phase.next <= |w.phase.txn.images|
    && if w.phase.next < |w.phase.txn.images| then
         w' == w.(disk := w.disk.Write(w.phase.txn.images[w.phase.next]),
                  phase := Committing(w.phase.req, w.phase.txn, w.phase.next + 1))
       else
         w' == w.(disk := w.disk.Sync(), phase := Finishing(w.phase.req, w.phase.txn))
  }

  ghost predicate Finishes(s: Setting, w: World, w': World) {
    && w.phase.Finishing?
    && Tidies(s, w.disk, w.phase.txn, w'.disk)
    && w' == w.(disk := w'.disk).Return(Applied(w.phase.txn.result))
  }

  /** An I/O error or the death of the process: the page cache stays as it is,
      possibly with the first bytes of a failed write. */
  ghost predicate Abandons(s: Setting, w: World, w': World) {
    && !w.phase.Idle?
    && (w'.disk == w.disk || exists n: nat :: ShortWrite(s, w, n) && w'.disk == w.disk.Write(Shortened(w, n)))
    && w' == w.(disk := w'.disk).Return(Failed)
  }

  ghost predicate ShortWrite(s: Setting, w: World, n: nat) {
    && (w.phase.Redo? || w.phase.Committing?)
    && w.phase.next < |w.phase.txn.images|
    && n < |w.phase.txn.images[w.phase.next].bytes|
    && w.phase.txn.images[w.phase.next].offset != s.tokenOffset
  }

  ghost function Shortened(w: World, n: nat): Image
    requires (w.phase.Redo? || w.phase.Committing?) && w.phase.next < |w.phase.txn.images|
    requires n < |w.phase.txn.images[w.phase.next].bytes|
  {
    var image := w.phase.txn.images[w.phase.next];
    Image(image.offset, image.bytes[..n])
  }

  ghost predicate LosesPower(s: Setting, w: World, w': World) {
    && w.disk.Fit() && w'.disk.unsynced == []
    && Survives(w.disk, w'.disk.stable, s.tokenOffset)
    && w'.disk == w.disk.(stable := w'.disk.stable, unsynced := [])
    && w' == w.(disk := w'.disk, phase := Idle)
  }

  ghost predicate Step(s: Setting, w: World, w': World)
    requires s.Valid()
  {
    || Arrives(s, w, w') || Renames(s, w, w') || Reads(s, w, w') || Redoes(s, w, w') || Promotes(s, w, w')
    || TidiesAfterRecovery(s, w, w') || Decides(s, w, w') || Stages(s, w, w') || Commits(s, w, w')
    || Finishes(s, w, w') || Abandons(s, w, w') || LosesPower(s, w, w')
  }

  /** A sidecar with body `base` and token `first`, and no receipt yet. */
  ghost predicate Starts(s: Setting, base: Bytes, first: Token, w: World) {
    && |base| == s.tokenOffset
    && w == World(Disk(base + first.Encode(), [], None, None, w.disk.named), Idle, [], [])
  }

  ghost predicate IsRun(s: Setting, base: Bytes, first: Token, run: seq<World>)
    requires s.Valid()
  {
    && run != [] && Starts(s, base, first, run[0])
    && forall i :: 0 <= i < |run| - 1 ==> Step(s, run[i], run[i + 1])
  }
}
