/** What stands in front of recovery. Every entry point reads and checks the sketch's header
    before it calls `recover`, and one field of that header is overwritten by the mutations
    themselves: whether a file that a power loss leaves is opened at all depends on what is
    left of that field. */
module SidecarGates {
  import opened Bytes
  import opened AfterImages
  import opened Receipt
  import opened SidecarProtocol
  import opened SidecarSafety
  import opened SidecarTheorems
  import CR = SidecarCrashes

  // ---------------------------------------------------------------------
  // Headers
  // ---------------------------------------------------------------------

  /** The first `size` bytes. Mutations change only the little-endian number in `lo..hi`,
      and the check refuses it above `limit`. */
  datatype Header = Header(size: nat, lo: nat, hi: nat, limit: nat) {
    predicate Valid() { lo < hi <= size }
  }

  function Value(h: Header, file: Bytes): nat
    requires h.Valid() && h.size <= |file|
  {
    FromLe(file[h.lo..h.hi])
  }

  ghost predicate SameHeader(h: Header, f: Bytes, g: Bytes) {
    h.size <= |f| && h.size <= |g| && forall i :: 0 <= i < h.size && !(h.lo <= i < h.hi) ==> f[i] == g[i]
  }

  /** The image writes no other header byte than those of the field. */
  predicate Clean(h: Header, image: Image) {
    h.size <= image.offset || (h.lo <= image.offset && image.End() <= h.hi)
  }

  ghost predicate AllClean(h: Header, images: seq<Image>) {
    forall i :: 0 <= i < |images| ==> Clean(h, images[i])
  }

  /** Among bodies with the header of `base` the check looks at the field alone. */
  ghost predicate Guards(gate: Bytes -> bool, h: Header, base: Bytes) {
    && h.Valid() && h.size <= |base|
    && forall body: Bytes :: |body| == |base| && SameHeader(h, body, base) ==>
         (gate(body) <==> Value(h, body) <= h.limit)
  }

  // ---------------------------------------------------------------------
  // What a tear can make of the field
  // ---------------------------------------------------------------------

  lemma {:induction false} LeMonotone(a: Bytes, b: Bytes)
    requires |a| == |b| && forall i :: 0 <= i < |a| ==> a[i] <= b[i]
    ensures FromLe(a) <= FromLe(b)
    decreases |a|
  {
    if a != [] {
      LeMonotone(a[1..], b[1..]);
    }
  }

  function Ones(n: nat): (s: Bytes)
    ensures |s| == n && forall i :: 0 <= i < n ==> s[i] == 255
  {
    seq(n, _ => 255)
  }

  lemma {:induction false} OnesValue(n: nat)
    ensures FromLe(Ones(n)) == Span(n) - 1
  {
    if n > 0 {
      OnesValue(n - 1);
      assert Ones(n)[1..] == Ones(n - 1);
    }
  }

  /** The tear of `image` that leaves the largest number. */
  function Worst(image: Image): Image { Image(image.offset, Ones(|image.bytes|)) }

  lemma TornField(h: Header, g: Bytes, image: Image, f: Bytes)
    requires h.Valid() && h.size <= |g| == |f| && Clean(h, image) && image.End() <= |g|
    requires forall i :: 0 <= i < |f| && !image.Covers(i) ==> f[i] == g[i]
    ensures SameHeader(h, f, g)
    ensures h.size <= image.offset ==> Value(h, f) == Value(h, g)
    ensures Value(h, f) <= Value(h, WriteAt(g, Worst(image)))
  {
    hide FromLe;
    if h.size <= image.offset {
      assert f[h.lo..h.hi] == g[h.lo..h.hi];
    }
    LeMonotone(f[h.lo..h.hi], WriteAt(g, Worst(image))[h.lo..h.hi]);
  }

  lemma AppliedHeader(h: Header, f: Bytes, images: seq<Image>)
    requires h.Valid() && h.size <= |f| && AllClean(h, images) && Fits(images, |f|)
    ensures SameHeader(h, ApplyImages(f, images), f)
  {
    forall i | 0 <= i < h.size && !(h.lo <= i < h.hi) ensures ApplyImages(f, images)[i] == f[i] {
      ApplyKeepsUncovered(f, images, i);
    }
  }

  // ---------------------------------------------------------------------
  // Disks
  // ---------------------------------------------------------------------

  /** The file once the first `k` unsynced writes are durable. */
  ghost function After(d: Disk, k: nat): (f: Bytes)
    requires d.Fit() && k <= |d.unsynced|
    ensures |f| == |d.stable|
  {
    ApplyImages(d.stable, d.unsynced[..k])
  }

  lemma AfterNext(d: Disk, k: nat)
    requires d.Fit() && k < |d.unsynced|
    ensures After(d, k + 1) == WriteAt(After(d, k), d.unsynced[k])
  {
    assert d.unsynced[..k + 1] == d.unsynced[..k] + [d.unsynced[k]];
    ApplySnoc(d.stable, d.unsynced[..k], d.unsynced[k]);
  }

  ghost predicate CleanDisk(h: Header, base: Bytes, d: Disk) {
    h.Valid() && d.Fit() && SameHeader(h, d.stable, base) && AllClean(h, d.unsynced)
  }

  /** Whatever a power loss leaves passes the check. */
  ghost predicate Opens(s: Setting, gate: Bytes -> bool, d: Disk) {
    forall f :: Survives(d, f, s.tokenOffset) ==> |f| >= TOKEN_SIZE && gate(Body(f))
  }

  ghost predicate QuietAt(h: Header, d: Disk, k: nat)
    requires h.Valid() && d.Fit() && h.size <= |d.stable| && k < |d.unsynced|
  {
    Value(h, WriteAt(After(d, k), Worst(d.unsynced[k]))) <= h.limit
  }

  /** No unsynced write, torn at its worst, takes the field above the limit. */
  ghost predicate Quiet(h: Header, d: Disk)
    requires h.Valid() && d.Fit() && h.size <= |d.stable|
  {
    forall k :: 0 <= k < |d.unsynced| ==> QuietAt(h, d, k)
  }

  ghost predicate Sized(s: Setting, h: Header, base: Bytes, d: Disk) {
    s.Valid() && h.size <= s.tokenOffset == |base| && |d.stable| == s.FileSize()
  }

  lemma GateOfFile(s: Setting, gate: Bytes -> bool, h: Header, base: Bytes, f: Bytes)
    requires s.Valid() && h.size <= s.tokenOffset == |base| && |f| == s.FileSize()
    requires Guards(gate, h, base) && SameHeader(h, f, base)
    ensures gate(Body(f)) <==> Value(h, f) <= h.limit
  {
    hide FromLe;
    assert Body(f)[h.lo..h.hi] == f[h.lo..h.hi];
    assert SameHeader(h, Body(f), base);
  }

  lemma AfterHeader(s: Setting, h: Header, base: Bytes, d: Disk, k: nat)
    requires Sized(s, h, base, d) && CleanDisk(h, base, d) && k <= |d.unsynced|
    ensures SameHeader(h, After(d, k), base)
  {
    AppliedHeader(h, d.stable, d.unsynced[..k]);
  }

  lemma AfterBounded(s: Setting, h: Header, base: Bytes, d: Disk, k: nat)
    requires Sized(s, h, base, d) && CleanDisk(h, base, d) && k <= |d.unsynced|
    requires Value(h, d.stable) <= h.limit && Quiet(h, d)
    ensures Value(h, After(d, k)) <= h.limit
  {
    hide FromLe, WriteAt, Value;
    if k == 0 {
      assert d.unsynced[..0] == [];
    } else {
      AfterNext(d, k - 1);
      assert QuietAt(h, d, k - 1);
      TornField(h, After(d, k - 1), d.unsynced[k - 1], After(d, k));
    }
  }

  lemma SurvivorHeader(s: Setting, h: Header, base: Bytes, d: Disk, f: Bytes)
    requires Sized(s, h, base, d) && CleanDisk(h, base, d) && Survives(d, f, s.tokenOffset)
    ensures |f| == s.FileSize() && SameHeader(h, f, base)
  {
    hide FromLe, ApplyImages;
    var k :| 0 <= k <= |d.unsynced| && SurvivesAt(d, f, s.tokenOffset, k);
    AfterHeader(s, h, base, d, k);
    if f != After(d, k) {
      TornField(h, After(d, k), d.unsynced[k], f);
    }
  }

  lemma SurvivorBounded(s: Setting, h: Header, base: Bytes, d: Disk, f: Bytes)
    requires Sized(s, h, base, d) && CleanDisk(h, base, d)
    requires Value(h, d.stable) <= h.limit && Quiet(h, d) && Survives(d, f, s.tokenOffset)
    ensures |f| == s.FileSize() && SameHeader(h, f, base) && Value(h, f) <= h.limit
  {
    hide FromLe, WriteAt, Value, ApplyImages;
    var k :| 0 <= k <= |d.unsynced| && SurvivesAt(d, f, s.tokenOffset, k);
    AfterHeader(s, h, base, d, k);
    AfterBounded(s, h, base, d, k);
    if f != After(d, k) {
      assert QuietAt(h, d, k);
      TornField(h, After(d, k), d.unsynced[k], f);
    }
  }

  /** The worst tear of an unsynced write may be what a power loss leaves. */
  lemma WorstSurvives(s: Setting, h: Header, base: Bytes, d: Disk, k: nat)
    requires Sized(s, h, base, d) && CleanDisk(h, base, d) && k < |d.unsynced|
    ensures var f := WriteAt(After(d, k), Worst(d.unsynced[k]));
      && SameHeader(h, f, base)
      && (d.unsynced[k].offset < h.size ==> Survives(d, f, s.tokenOffset))
      && (d.unsynced[k].offset >= h.size ==>
            Survives(d, After(d, k), s.tokenOffset) && Value(h, f) == Value(h, After(d, k)))
  {
    hide FromLe;
    var g, image := After(d, k), d.unsynced[k];
    var f := WriteAt(g, Worst(image));
    AfterHeader(s, h, base, d, k);
    TornField(h, g, image, f);
    if h.size <= image.offset {
      assert SurvivesAt(d, g, s.tokenOffset, k);
    } else {
      assert image.offset == s.tokenOffset ==> f == g;
      assert SurvivesAt(d, f, s.tokenOffset, k);
    }
  }

  /** Every survivor is opened exactly when the durable field is within the limit and no
      unsynced write, torn at its worst, takes it above. */
  lemma OpensExactly(s: Setting, gate: Bytes -> bool, h: Header, base: Bytes, d: Disk)
    requires Sized(s, h, base, d) && CleanDisk(h, base, d) && Guards(gate, h, base)
    ensures Opens(s, gate, d) <==> Value(h, d.stable) <= h.limit && Quiet(h, d)
  {
    hide FromLe, WriteAt, Value, ApplyImages, Survives;
    if Value(h, d.stable) <= h.limit && Quiet(h, d) {
      forall f | Survives(d, f, s.tokenOffset) ensures |f| >= TOKEN_SIZE && gate(Body(f)) {
        SurvivorBounded(s, h, base, d, f);
        GateOfFile(s, gate, h, base, f);
      }
    }
    if Opens(s, gate, d) {
      StableSurvives(d, s.tokenOffset);
      GateOfFile(s, gate, h, base, d.stable);
      forall k | 0 <= k < |d.unsynced| ensures QuietAt(h, d, k) {
        WorstSurvives(s, h, base, d, k);
        AfterHeader(s, h, base, d, k);
        GateOfFile(s, gate, h, base, WriteAt(After(d, k), Worst(d.unsynced[k])));
        GateOfFile(s, gate, h, base, After(d, k));
      }
    }
  }

  lemma StableSurvives(d: Disk, tokenOffset: nat)
    requires d.Fit()
    ensures Survives(d, d.stable, tokenOffset)
  {
    assert d.unsynced[..0] == [];
    assert SurvivesAt(d, d.stable, tokenOffset, 0);
  }

  predicate Touches(h: Header, image: Image) { image.offset < h.size && image.bytes != [] }

  predicate Whole(h: Header, image: Image) { image.offset == h.lo && image.End() == h.hi }

  lemma WorstOfWhole(h: Header, g: Bytes, image: Image)
    requires h.Valid() && h.size <= |g| && Whole(h, image)
    ensures Value(h, WriteAt(g, Worst(image))) == Span(h.hi - h.lo) - 1
  {
    hide FromLe;
    WriteReads(g, Worst(image));
    OnesValue(h.hi - h.lo);
  }

  /** If the field could hold more than the limit, a whole write of it must not be unsynced. */
  lemma WholeWritesAreLoud(s: Setting, h: Header, base: Bytes, d: Disk)
    requires Sized(s, h, base, d) && CleanDisk(h, base, d) && Value(h, d.stable) <= h.limit < Span(h.hi - h.lo) - 1
    requires forall k :: 0 <= k < |d.unsynced| && Touches(h, d.unsynced[k]) ==> Whole(h, d.unsynced[k])
    ensures Quiet(h, d) <==> forall k :: 0 <= k < |d.unsynced| ==> !Touches(h, d.unsynced[k])
  {
    hide Value, WriteAt, Span, ApplyImages;
    forall k | 0 <= k < |d.unsynced| && Touches(h, d.unsynced[k]) ensures !QuietAt(h, d, k) {
      WorstOfWhole(h, After(d, k), d.unsynced[k]);
    }
    if forall k :: 0 <= k < |d.unsynced| ==> !Touches(h, d.unsynced[k]) {
      forall k | 0 <= k < |d.unsynced| ensures QuietAt(h, d, k) {
        UntouchedField(s, h, base, d, k);
      }
    }
  }

  lemma {:induction false} UntouchedField(s: Setting, h: Header, base: Bytes, d: Disk, k: nat)
    requires Sized(s, h, base, d) && CleanDisk(h, base, d) && k < |d.unsynced|
    requires forall i :: 0 <= i < |d.unsynced| ==> !Touches(h, d.unsynced[i])
    ensures Value(h, After(d, k)) == Value(h, d.stable)
    ensures Value(h, WriteAt(After(d, k), Worst(d.unsynced[k]))) == Value(h, d.stable)
  {
    hide FromLe, ApplyImages;
    assert forall i :: h.lo <= i < h.hi ==> !Covered(d.unsynced[..k], i);
    forall i | h.lo <= i < h.hi ensures After(d, k)[i] == d.stable[i] {
      ApplyKeepsUncovered(d.stable, d.unsynced[..k], i);
    }
    assert After(d, k)[h.lo..h.hi] == d.stable[h.lo..h.hi];
    assert WriteAt(After(d, k), Worst(d.unsynced[k]))[h.lo..h.hi] == After(d, k)[h.lo..h.hi];
  }

  /** A field whose every value is allowed is always quiet. */
  lemma FullRangeIsQuiet(h: Header, d: Disk)
    requires h.Valid() && d.Fit() && h.size <= |d.stable| && h.limit >= Span(h.hi - h.lo) - 1
    ensures Quiet(h, d)
  {}

  // ---------------------------------------------------------------------
  // Runs
  // ---------------------------------------------------------------------

  /** Plans of this mutation write no other header byte than those of the field. */
  ghost predicate KeepsHeader(m: Mutation, h: Header, size: nat) {
    forall body: Bytes :: |body| == size && m.stage(body).Plan? ==> AllClean(h, m.stage(body).images)
  }

  ghost predicate LogKeepsHeader(s: Setting, h: Header, log: seq<Entry>) {
    forall i :: 0 <= i < |log| ==> KeepsHeader(log[i].mutation, h, s.tokenOffset)
  }

  ghost predicate CleanReceipt(s: Setting, h: Header, receipt: Option<Bytes>) {
    receipt.Some? && DecodeReceipt(receipt.value, s.crc).Ok? ==>
      AllClean(h, DecodeReceipt(receipt.value, s.crc).value.images)
  }

  ghost predicate CleanPhase(s: Setting, h: Header, phase: Phase) {
    phase.Redo? || phase.Committing? ==> AllClean(h, phase.txn.images) && Fits(phase.txn.images, s.FileSize())
  }

  ghost predicate CleanWorld(s: Setting, h: Header, base: Bytes, w: World) {
    && Sized(s, h, base, w.disk) && CleanDisk(h, base, w.disk)
    && CleanReceipt(s, h, w.disk.receipt) && CleanReceipt(s, h, w.disk.pending) && CleanPhase(s, h, w.phase)
  }

  lemma CleanPublish(s: Setting, h: Header, base: Bytes, d: Disk, txn: Txn)
    requires Sized(s, h, base, d) && CleanDisk(h, base, d) && CleanReceipt(s, h, d.receipt) && CleanReceipt(s, h, d.pending)
    requires ValidEncoding(txn) && AllClean(h, txn.images)
    ensures var d' := d.Publish(EncodeReceipt(txn, s.crc).value, s.ordered);
      Sized(s, h, base, d') && CleanDisk(h, base, d') && CleanReceipt(s, h, d'.receipt) && CleanReceipt(s, h, d'.pending)
  {
    ReceiptRoundTrip(txn, s.crc);
    hide DecodeReceipt, EncodeReceipt, ApplyImages;
    AppliedHeader(h, d.stable, d.unsynced);
  }

  lemma CleanReads(s: Setting, h: Header, base: Bytes, w: World, w': World)
    requires CleanWorld(s, h, base, w) && Reads(s, w, w')
    ensures CleanWorld(s, h, base, w')
  {
    hide DecodeReceipt, Footer;
    if w'.phase.Redo? {
      var encoded := if w.disk.named && w.disk.receipt.Some? then w.disk.receipt.value else w.disk.pending.value;
      DecodedIsValid(encoded, s.crc);
    }
  }

  lemma CleanStages(s: Setting, h: Header, base: Bytes, w: World, w': World)
    requires CleanWorld(s, h, base, w) && Stages(s, w, w') && LogKeepsHeader(s, h, w'.log)
    ensures CleanWorld(s, h, base, w')
  {
    hide DecodeReceipt, EncodeReceipt, ApplyImages, DecodeToken;
    if w'.phase.Committing? {
      var e, txn := w'.log[|w.log|], w'.phase.txn;
      assert KeepsHeader(e.mutation, h, s.tokenOffset);
      assert AllClean(h, txn.images);
      CleanPublish(s, h, base, w.disk, txn);
    }
  }

  lemma CleanTidies(s: Setting, h: Header, base: Bytes, d: Disk, txn: Txn, d': Disk)
    requires Sized(s, h, base, d) && CleanDisk(h, base, d) && CleanReceipt(s, h, d.receipt) && CleanReceipt(s, h, d.pending)
    requires Tidies(s, d, txn, d')
    ensures Sized(s, h, base, d') && CleanDisk(h, base, d') && CleanReceipt(s, h, d'.receipt) && CleanReceipt(s, h, d'.pending)
  {
    hide DecodeReceipt, EncodeReceipt, ApplyImages;
    if d' != d {
      CleanPublish(s, h, base, d, Compacted(txn));
    }
  }

  lemma CleanLosesPower(s: Setting, h: Header, base: Bytes, w: World, w': World)
    requires CleanWorld(s, h, base, w) && LosesPower(s, w, w')
    ensures CleanWorld(s, h, base, w')
  {
    hide DecodeReceipt, ApplyImages;
    var d, f := w.disk, w'.disk.stable;
    var k :| 0 <= k <= |d.unsynced| && SurvivesAt(d, f, s.tokenOffset, k);
    AfterHeader(s, h, base, d, k);
    if f != After(d, k) {
      TornField(h, After(d, k), d.unsynced[k], f);
    }
  }

  lemma CleanWrites(s: Setting, h: Header, base: Bytes, w: World, w': World)
    requires CleanWorld(s, h, base, w) && (Redoes(s, w, w') || Commits(s, w, w') || Abandons(s, w, w'))
    ensures CleanWorld(s, h, base, w')
  {
    hide DecodeReceipt, ApplyImages, CleanReceipt;
    AppliedHeader(h, w.disk.stable, w.disk.unsynced);
  }

  lemma CleanOthers(s: Setting, h: Header, base: Bytes, w: World, w': World)
    requires CleanWorld(s, h, base, w)
    requires Arrives(s, w, w') || Renames(s, w, w') || Promotes(s, w, w') || Decides(s, w, w')
    ensures CleanWorld(s, h, base, w')
  {
    hide DecodeReceipt, DecodeToken, ApplyImages, Footer, ReadAt, AllClean;
  }

  lemma CleanStep(s: Setting, h: Header, base: Bytes, w: World, w': World)
    requires s.Valid() && CleanWorld(s, h, base, w) && Step(s, w, w') && LogKeepsHeader(s, h, w'.log)
    ensures CleanWorld(s, h, base, w')
  {
    hide CleanWorld, Arrives, Renames, Reads, Redoes, Promotes, Decides, Stages, Commits, Abandons, LosesPower, LogKeepsHeader;
    if Reads(s, w, w') { CleanReads(s, h, base, w, w'); }
    else if Stages(s, w, w') { CleanStages(s, h, base, w, w'); }
    else if LosesPower(s, w, w') { CleanLosesPower(s, h, base, w, w'); }
    else if TidiesAfterRecovery(s, w, w') || Finishes(s, w, w') { CleanTidying(s, h, base, w, w'); }
    else if Redoes(s, w, w') || Commits(s, w, w') || Abandons(s, w, w') { CleanWrites(s, h, base, w, w'); }
    else { CleanOthers(s, h, base, w, w'); }
  }

  lemma CleanTidying(s: Setting, h: Header, base: Bytes, w: World, w': World)
    requires CleanWorld(s, h, base, w) && (TidiesAfterRecovery(s, w, w') || Finishes(s, w, w'))
    ensures CleanWorld(s, h, base, w')
  {
    hide Tidies, CleanReceipt, CleanDisk;
    CleanTidies(s, h, base, w.disk, w.phase.txn, w'.disk);
  }

  lemma PrefixKeepsHeader(s: Setting, h: Header, base: Bytes, first: Token, run: seq<World>, k: nat)
    requires s.Valid() && IsRun(s, base, first, run) && 0 < k <= |run| && LogKeepsHeader(s, h, run[|run| - 1].log)
    ensures IsRun(s, base, first, run[..k]) && LogKeepsHeader(s, h, run[k - 1].log)
  {
    hide Step, Starts, KeepsHeader;
    LogOnlyGrows(s, base, first, run, k);
    var log, after := run[k - 1].log, run[|run| - 1].log;
    forall i | 0 <= i < |log| ensures KeepsHeader(log[i].mutation, h, s.tokenOffset) {
      assert log[i] == after[i];
    }
  }

  lemma StartIsClean(s: Setting, h: Header, base: Bytes, first: Token, w: World)
    requires s.Valid() && Starts(s, base, first, w) && h.Valid() && h.size <= |base|
    ensures CleanWorld(s, h, base, w) && Value(h, w.disk.stable) == Value(h, base)
  {
    hide FromLe, DecodeReceipt;
    assert w.disk.stable[h.lo..h.hi] == base[h.lo..h.hi];
  }

  lemma {:induction false} RunIsClean(s: Setting, h: Header, base: Bytes, first: Token, run: seq<World>)
    requires s.Valid() && IsRun(s, base, first, run) && h.Valid() && h.size <= |base|
    requires LogKeepsHeader(s, h, run[|run| - 1].log)
    ensures CleanWorld(s, h, base, run[|run| - 1])
    decreases |run|
  {
    hide Step, Starts, CleanWorld, LogKeepsHeader;
    var n := |run| - 1;
    if n == 0 {
      StartIsClean(s, h, base, first, run[0]);
    } else {
      PrefixKeepsHeader(s, h, base, first, run, n);
      RunIsClean(s, h, base, first, run[..n]);
      assert Step(s, run[n - 1], run[n - 1 + 1]);
      CleanStep(s, h, base, run[n - 1], run[n]);
    }
  }

  /** What becomes durable in a step might have survived a power loss just before it. */
  lemma StableSurvived(s: Setting, w: World, w': World)
    requires s.Valid() && w.disk.Fit() && Step(s, w, w')
    ensures Survives(w.disk, w'.disk.stable, s.tokenOffset)
  {
    hide DecodeReceipt, DecodeToken, EncodeReceipt, ValidEncoding, Footer, Survives, ReadAt, ShortWrite, ApplyImages;
    StableSurvives(w.disk, s.tokenOffset);
    VisibleSurvives(w.disk, s.tokenOffset);
  }

  ghost predicate QuietWorld(h: Header, w: World) {
    h.Valid() && w.disk.Fit() && h.size <= |w.disk.stable| && Quiet(h, w.disk)
  }

  lemma {:induction false} StableBounded(s: Setting, h: Header, base: Bytes, first: Token, run: seq<World>)
    requires s.Valid() && IsRun(s, base, first, run) && h.Valid() && h.size <= |base| && Value(h, base) <= h.limit
    requires LogKeepsHeader(s, h, run[|run| - 1].log)
    requires forall i :: 0 <= i < |run| ==> QuietWorld(h, run[i])
    ensures h.size <= |run[|run| - 1].disk.stable| && Value(h, run[|run| - 1].disk.stable) <= h.limit
    decreases |run|
  {
    hide Step, Starts, LogKeepsHeader, Value, Quiet;
    var n := |run| - 1;
    if n == 0 {
      StartIsClean(s, h, base, first, run[0]);
    } else {
      PrefixKeepsHeader(s, h, base, first, run, n);
      RunIsClean(s, h, base, first, run[..n]);
      StableBounded(s, h, base, first, run[..n]);
      assert Step(s, run[n - 1], run[n - 1 + 1]);
      StableSurvived(s, run[n - 1], run[n]);
      SurvivorBounded(s, h, base, run[n - 1].disk, run[n].disk.stable);
    }
  }

  /** At every moment of a run whatever a power loss leaves is opened, exactly when at every
      moment no unsynced write, torn at its worst, takes the field above the limit. */
  lemma OpensThroughout(s: Setting, gate: Bytes -> bool, h: Header, base: Bytes, first: Token, run: seq<World>)
    requires s.Valid() && IsRun(s, base, first, run) && Guards(gate, h, base) && gate(base)
    requires LogKeepsHeader(s, h, run[|run| - 1].log)
    ensures (forall i :: 0 <= i < |run| ==> Opens(s, gate, run[i].disk))
       <==> (forall i :: 0 <= i < |run| ==> QuietWorld(h, run[i]))
  {
    hide Step, Starts, LogKeepsHeader, Value, Quiet, Opens, CleanDisk;
    assert Value(h, base) <= h.limit by { assert SameHeader(h, base, base); }
    forall i | 0 <= i < |run|
      ensures CleanWorld(s, h, base, run[i])
      ensures Opens(s, gate, run[i].disk) ==> QuietWorld(h, run[i])
      ensures QuietWorld(h, run[i]) && Value(h, run[i].disk.stable) <= h.limit ==> Opens(s, gate, run[i].disk)
    {
      OpensAt(s, gate, h, base, first, run, i);
    }
    if forall i :: 0 <= i < |run| ==> QuietWorld(h, run[i]) {
      forall i | 0 <= i < |run| ensures Opens(s, gate, run[i].disk) {
        PrefixKeepsHeader(s, h, base, first, run, i + 1);
        StableBounded(s, h, base, first, run[..i + 1]);
      }
    }
  }

  lemma OpensAt(s: Setting, gate: Bytes -> bool, h: Header, base: Bytes, first: Token, run: seq<World>, i: nat)
    requires s.Valid() && IsRun(s, base, first, run) && Guards(gate, h, base) && i < |run|
    requires LogKeepsHeader(s, h, run[|run| - 1].log)
    ensures CleanWorld(s, h, base, run[i])
    ensures Opens(s, gate, run[i].disk) <==> Value(h, run[i].disk.stable) <= h.limit && QuietWorld(h, run[i])
  {
    hide Step, Starts, LogKeepsHeader, Value, Quiet, Opens;
    PrefixKeepsHeader(s, h, base, first, run, i + 1);
    RunIsClean(s, h, base, first, run[..i + 1]);
    OpensExactly(s, gate, h, base, run[i].disk);
  }

  // ---------------------------------------------------------------------
  // Refused files
  // ---------------------------------------------------------------------

  /** What is left when the write of image `k` is torn at its worst. */
  ghost function TornAt(s: Setting, c: CR.Commit, k: nat): Bytes
    requires CR.Possible(s, c) && k < |CR.TxnOf(s, c).images|
  {
    var d := CR.Written(s, c, k + 1).disk;
    CR.WrittenFits(s, c, k + 1);
    WriteAt(After(d, k), Worst(d.unsynced[k]))
  }

  lemma WrittenIsClean(s: Setting, h: Header, c: CR.Commit, n: nat)
    requires CR.Possible(s, c) && n <= |CR.TxnOf(s, c).images| && h.Valid() && h.size <= s.tokenOffset
    requires KeepsHeader(c.mutation, h, s.tokenOffset)
    ensures var d := CR.Written(s, c, n).disk; Sized(s, h, c.base, d) && CleanDisk(h, c.base, d)
  {
    hide EncodeReceipt, Token.Encode;
    CR.WrittenFits(s, c, n);
    assert AllClean(h, c.mutation.stage(c.base).images);
  }

  /** If the field could hold more than the limit, any mutation that writes it whole can lose
      power so that the file it leaves is refused: recovery never sees the receipt. */
  lemma TornFieldIsRefused(s: Setting, gate: Bytes -> bool, h: Header, c: CR.Commit, k: nat)
    requires CR.Possible(s, c) && Guards(gate, h, c.base) && KeepsHeader(c.mutation, h, s.tokenOffset)
    requires h.limit < Span(h.hi - h.lo) - 1
    requires k < |c.mutation.stage(c.base).images| && Whole(h, c.mutation.stage(c.base).images[k])
    ensures k < |CR.TxnOf(s, c).images|
    ensures var f := TornAt(s, c, k); var run := CR.CrashRun(s, c, k + 1, f);
      && IsRun(s, c.base, c.first, run) && HarmlessRun(s, run) && LosesPower(s, run[k + 5], run[k + 6])
      && run[k + 6].disk.stable == f && |f| == s.FileSize() && !gate(Body(f))
      && CurrentTxn(s, run[k + 6].disk) == Some(CR.TxnOf(s, c))
  {
    hide FromLe, WriteAt, ApplyImages, Span, IsRun, HarmlessRun, LosesPower, Survives, CurrentTxn, Value, EncodeReceipt, Token.Encode,
      ValidEncoding, CR.WorldAt;
    var d, f := CR.Written(s, c, k + 1).disk, TornAt(s, c, k);
    assert d.unsynced[k] == c.mutation.stage(c.base).images[k];
    WrittenIsClean(s, h, c, k + 1);
    WorstSurvives(s, h, c.base, d, k);
    WorstOfWhole(h, After(d, k), d.unsynced[k]);
    GateOfFile(s, gate, h, c.base, f);
    CR.CrashRunIsRun(s, c, k + 1, f);
  }

  /** A step of the program behind the check: recovery goes on only if the file is opened.
      A refusal is an operation that fails without touching the disk. */
  ghost predicate Gated(s: Setting, gate: Bytes -> bool, w: World, w': World)
    requires s.Valid()
  {
    && Step(s, w, w')
    && (w.phase.Recovering? && !w'.phase.Idle? ==>
          w.disk.Fit() && |w.disk.stable| >= TOKEN_SIZE && gate(Body(w.disk.Visible())))
  }

  /** Nothing is running but the opening of a file that is refused. */
  ghost predicate Shut(gate: Bytes -> bool, w: World) {
    && (w.phase.Idle? || w.phase.Recovering?) && w.disk.unsynced == []
    && |w.disk.stable| >= TOKEN_SIZE && !gate(Body(w.disk.stable))
  }

  lemma ShutStep(s: Setting, gate: Bytes -> bool, w: World, w': World)
    requires s.Valid() && Shut(gate, w) && Gated(s, gate, w, w')
    ensures Shut(gate, w') && w'.disk.stable == w.disk.stable && w'.log == w.log
  {
    hide DecodeReceipt, DecodeToken, EncodeReceipt, ValidEncoding, Footer, ReadAt;
    assert ApplyImages(w.disk.stable, []) == w.disk.stable;
  }

  /** Once refused, the file stays as it is and refused, whatever is asked of it. */
  lemma {:induction false} RefusedStaysRefused(s: Setting, gate: Bytes -> bool, run: seq<World>)
    requires s.Valid() && run != [] && Shut(gate, run[0])
    requires forall i :: 0 <= i < |run| - 1 ==> Gated(s, gate, run[i], run[i + 1])
    ensures var w := run[|run| - 1]; Shut(gate, w) && w.disk.stable == run[0].disk.stable && w.log == run[0].log
    decreases |run|
  {
    hide Gated, Shut;
    var n := |run| - 1;
    if n > 0 {
      RefusedStaysRefused(s, gate, run[..n]);
      assert Gated(s, gate, run[n - 1], run[n - 1 + 1]);
      ShutStep(s, gate, run[n - 1], run[n]);
    }
  }
}
