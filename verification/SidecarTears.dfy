/** Tears that keep a prefix of the new bytes over the old ones. A field that only grows and is
    little-endian never exceeds its new value under them, so the file is always opened. */
module SidecarTears {
  import opened Bytes
  import opened AfterImages
  import opened Receipt
  import opened SidecarProtocol
  import opened SidecarSafety
  import opened SidecarTheorems
  import opened SidecarGates

  // ---------------------------------------------------------------------
  // Prefix tears
  // ---------------------------------------------------------------------

  function Cut(image: Image, n: nat): Image
    requires n <= |image.bytes|
  {
    Image(image.offset, image.bytes[..n])
  }

  ghost predicate InOrderAt(d: Disk, f: Bytes, k: nat, n: nat)
    requires d.Fit() && k <= |d.unsynced|
  {
    || f == After(d, k)
    || (k < |d.unsynced| && n <= |d.unsynced[k].bytes| && f == WriteAt(After(d, k), Cut(d.unsynced[k], n)))
  }

  /** Some writes are durable, and a prefix of the next one. */
  ghost predicate InOrder(d: Disk, f: Bytes) {
    d.Fit() && exists k: nat, n: nat :: k <= |d.unsynced| && InOrderAt(d, f, k, n)
  }

  lemma VisibleInOrder(d: Disk)
    requires d.Fit()
    ensures InOrder(d, d.Visible())
  {
    assert d.unsynced[..|d.unsynced|] == d.unsynced;
    assert InOrderAt(d, d.Visible(), |d.unsynced|, 0);
  }

  lemma SyncedInOrder(d: Disk, f: Bytes)
    requires d.unsynced == [] && InOrder(d, f)
    ensures f == d.stable
  {}

  lemma SameInOrder(d: Disk, d': Disk, f: Bytes)
    requires d.stable == d'.stable && d.unsynced == d'.unsynced && InOrder(d', f)
    ensures InOrder(d, f)
  {
    var k: nat, n: nat :| k <= |d'.unsynced| && InOrderAt(d', f, k, n);
    assert InOrderAt(d, f, k, n);
  }

  /** A new write adds only its own prefixes over the file it finds. */
  lemma InOrderAfterWrite(d: Disk, image: Image, f: Bytes)
    requires d.Fit() && image.End() <= |d.stable| && InOrder(d.Write(image), f)
    ensures InOrder(d, f) || exists n: nat :: n <= |image.bytes| && f == WriteAt(d.Visible(), Cut(image, n))
  {
    hide WriteAt, ApplyImages;
    var d', m := d.Write(image), |d.unsynced|;
    var k: nat, n: nat :| k <= |d'.unsynced| && InOrderAt(d', f, k, n);
    assert d.unsynced[..m] == d.unsynced && d'.unsynced[..m] == d.unsynced;
    if k < m {
      assert d'.unsynced[..k] == d.unsynced[..k] && d'.unsynced[k] == d.unsynced[k];
      assert InOrderAt(d, f, k, n);
    } else if k == m {
      if f == After(d', m) {
        assert InOrderAt(d, f, m, 0);
      }
    } else {
      assert d'.unsynced[..k] == d'.unsynced;
      VisibleAfterWrite(d, image);
      assert image.bytes[..|image.bytes|] == image.bytes;
      assert f == WriteAt(d.Visible(), Cut(image, |image.bytes|));
    }
  }

  /** A prefix of a larger number over a smaller one is at most the larger. */
  lemma {:induction false} MixBelow(x: Bytes, y: Bytes, n: nat)
    requires |x| == |y| && n <= |y| && FromLe(x) <= FromLe(y)
    ensures FromLe(y[..n] + x[n..]) <= FromLe(y)
    decreases |x|
  {
    if n == 0 {
      assert y[..n] + x[n..] == x;
    } else {
      assert FromLe(x[1..]) <= FromLe(y[1..]);
      MixBelow(x[1..], y[1..], n - 1);
      assert (y[..n] + x[n..])[1..] == y[1..][..n - 1] + x[1..][n - 1..];
    }
  }

  // ---------------------------------------------------------------------
  // Growing fields
  // ---------------------------------------------------------------------

  /** The image is above the header, or writes exactly `v` into the field. */
  ghost predicate WritesValue(h: Header, image: Image, v: nat) {
    h.size <= image.offset || (Whole(h, image) && FromLe(image.bytes) == v)
  }

  ghost predicate AllWrite(h: Header, images: seq<Image>, v: nat) {
    forall i :: 0 <= i < |images| ==> WritesValue(h, images[i], v)
  }

  /** Plans raise the field or leave it, and write it whole. */
  ghost predicate Raises(m: Mutation, h: Header, size: nat) {
    h.Valid() && h.size <= size && forall body: Bytes :: |body| == size && m.stage(body).Plan? ==>
      Value(h, body) <= Value(h, Effect(body, m)) && AllWrite(h, m.stage(body).images, Value(h, Effect(body, m)))
  }

  ghost predicate LogRaises(s: Setting, h: Header, log: seq<Entry>) {
    forall i :: 0 <= i < |log| ==> Raises(log[i].mutation, h, s.tokenOffset)
  }

  lemma RaisingIsClean(s: Setting, h: Header, log: seq<Entry>)
    requires LogRaises(s, h, log)
    ensures LogKeepsHeader(s, h, log)
  {
    hide FromLe, Effect;
    forall i | 0 <= i < |log| ensures KeepsHeader(log[i].mutation, h, s.tokenOffset) {
      assert Raises(log[i].mutation, h, s.tokenOffset);
    }
  }

  /** A prefix of an image of the new value leaves at most that value. */
  lemma CutBelow(h: Header, g: Bytes, image: Image, n: nat, v: nat)
    requires h.Valid() && h.size <= |g| && image.End() <= |g| && n <= |image.bytes|
    requires WritesValue(h, image, v) && Value(h, g) <= v
    ensures Value(h, WriteAt(g, Cut(image, n))) <= v
  {
    var f := WriteAt(g, Cut(image, n));
    if h.size <= image.offset {
      assert f[h.lo..h.hi] == g[h.lo..h.hi];
    } else {
      var x := g[h.lo..h.hi];
      MixBelow(x, image.bytes, n);
      assert f[h.lo..h.hi] == image.bytes[..n] + x[n..];
    }
  }

  /** Every prefix-torn survivor's field is at most `v`. */
  ghost predicate Below(h: Header, d: Disk, v: nat)
    requires h.Valid() && h.size <= |d.stable|
  {
    forall f :: InOrder(d, f) ==> |f| == |d.stable| && Value(h, f) <= v
  }

  lemma WriteBelow(h: Header, d: Disk, image: Image, n: nat, v: nat)
    requires h.Valid() && h.size <= |d.stable| && d.Fit() && image.End() <= |d.stable| && n <= |image.bytes|
    requires WritesValue(h, image, v) && Below(h, d, v)
    ensures Below(h, d.Write(Cut(image, n)), v)
  {
    hide Value, InOrder, WriteAt;
    VisibleInOrder(d);
    var cut := Cut(image, n);
    forall f | InOrder(d.Write(cut), f) ensures |f| == |d.stable| && Value(h, f) <= v {
      InOrderAfterWrite(d, cut, f);
      if !InOrder(d, f) {
        var m: nat :| m <= |cut.bytes| && f == WriteAt(d.Visible(), Cut(cut, m));
        assert cut.bytes[..m] == image.bytes[..m];
        CutBelow(h, d.Visible(), image, m, v);
      }
    }
  }

  lemma SyncedBelow(h: Header, d: Disk, f: Bytes, d': Disk, v: nat)
    requires h.Valid() && h.size <= |d.stable| && Below(h, d, v) && InOrder(d, f)
    requires d'.unsynced == [] && d'.stable == f
    ensures h.size <= |d'.stable| && Below(h, d', v)
  {
    hide Value;
    forall g | InOrder(d', g) ensures g == f {
      SyncedInOrder(d', g);
    }
  }

  lemma SameBelow(h: Header, d: Disk, d': Disk, v: nat, v': nat)
    requires h.Valid() && h.size <= |d.stable| && Below(h, d, v) && v <= v'
    requires d'.stable == d.stable && d'.unsynced == d.unsynced
    ensures Below(h, d', v')
  {
    hide Value;
    forall f | InOrder(d', f) ensures InOrder(d, f) {
      SameInOrder(d, d', f);
    }
  }

  // ---------------------------------------------------------------------
  // Runs whose power losses keep prefixes
  // ---------------------------------------------------------------------

  /** What the field holds once every logged mutation is in the body. */
  ghost function Level(h: Header, base: Bytes, log: seq<Entry>): nat
    requires h.Valid() && h.size <= |base|
  {
    Value(h, Fold(base, log))
  }

  ghost predicate LevelInv(s: Setting, h: Header, base: Bytes, w: World) {
    && h.Valid() && h.size <= s.tokenOffset == |base| && |w.disk.stable| == s.tokenOffset + TOKEN_SIZE
    && (CurrentTxn(s, w.disk).Some? ==> AllWrite(h, CurrentTxn(s, w.disk).value.images, Level(h, base, w.log)))
    && Below(h, w.disk, Level(h, base, w.log))
  }

  lemma LevelWrites(s: Setting, h: Header, base: Bytes, first: Token, w: World, w': World)
    requires Inv(s, base, first, w) && LevelInv(s, h, base, w)
    requires Redoes(s, w, w') || Commits(s, w, w')
    ensures LevelInv(s, h, base, w')
  {
    hide DecodeReceipt, Value, Fold, ReadAt, Below, InOrder, Full, SurvivorsInv, WriteAt, WritesValue;
    var v, txn := Level(h, base, w.log), w.phase.txn;
    if w.phase.next < |txn.images| {
      var image := txn.images[w.phase.next];
      assert Cut(image, |image.bytes|) == image;
      WriteBelow(h, w.disk, image, |image.bytes|, v);
    } else {
      VisibleInOrder(w.disk);
      SyncedBelow(h, w.disk, w.disk.Visible(), w'.disk, v);
    }
  }

  lemma LevelAbandons(s: Setting, h: Header, base: Bytes, first: Token, w: World, w': World)
    requires Inv(s, base, first, w) && LevelInv(s, h, base, w) && Abandons(s, w, w')
    ensures LevelInv(s, h, base, w')
  {
    hide DecodeReceipt, Value, Fold, ReadAt, Below, InOrder, Full, SurvivorsInv, WriteAt, WritesValue;
    var v := Level(h, base, w.log);
    if w'.disk != w.disk {
      var n: nat :| ShortWrite(s, w, n) && w'.disk == w.disk.Write(Shortened(w, n));
      WriteBelow(h, w.disk, w.phase.txn.images[w.phase.next], n, v);
    }
  }

  /** What a publish does to the file and its survivors. */
  lemma LevelPublish(s: Setting, h: Header, d: Disk, encoded: Bytes, v: nat, v': nat)
    requires h.Valid() && h.size <= |d.stable| && d.Fit() && Below(h, d, v) && v <= v'
    ensures var d' := d.Publish(encoded, s.ordered); |d'.stable| == |d.stable| && Below(h, d', v')
  {
    hide Value, InOrder, Below;
    var d' := d.Publish(encoded, s.ordered);
    SameBelow(h, d, d, v, v');
    if s.ordered {
      VisibleInOrder(d);
      SyncedBelow(h, d, d.Visible(), d', v');
    } else {
      SameBelow(h, d, d', v, v');
    }
  }

  lemma LevelStages(s: Setting, h: Header, base: Bytes, first: Token, w: World, w': World)
    requires Inv(s, base, first, w) && LevelInv(s, h, base, w) && Stages(s, w, w') && LogRaises(s, h, w'.log)
    ensures LevelInv(s, h, base, w')
  {
    hide DecodeReceipt, DecodeToken, EncodeReceipt, ValidEncoding, Value, Fold, Below, InOrder, Footer, SurvivorsInv, ReceiptMatches,
      CurrentTxn, RepliesInv, TokensIncrease, ApplyImages, Effect;
    if w'.phase.Committing? {
      TargetFooter(base, first, w);
      var e, txn := w'.log[|w.log|], w'.phase.txn;
      assert Raises(e.mutation, h, s.tokenOffset);
      LevelGrows(h, base, w.log, e);
      assert w'.log == w.log + [e];
      var v, v' := Level(h, base, w.log), Level(h, base, w'.log);
      PublishGives(s, w.disk, txn);
      LevelPublish(s, h, w.disk, EncodeReceipt(txn, s.crc).value, v, v');
    }
  }

  lemma LevelGrows(h: Header, base: Bytes, log: seq<Entry>, e: Entry)
    requires h.Valid() && h.size <= |base|
    ensures Level(h, base, log + [e]) == Value(h, Effect(Fold(base, log), e.mutation))
  {
    hide Value, Effect;
    assert (log + [e])[..|log|] == log;
  }

  lemma LevelTidies(s: Setting, h: Header, base: Bytes, first: Token, w: World, w': World)
    requires Inv(s, base, first, w) && LevelInv(s, h, base, w) && (TidiesAfterRecovery(s, w, w') || Finishes(s, w, w'))
    ensures LevelInv(s, h, base, w')
  {
    hide DecodeReceipt, EncodeReceipt, Value, Fold, Below, InOrder, SurvivorsInv, ApplyImages, ReceiptMatches, CurrentTxn;
    if w'.disk != w.disk {
      var txn, v := Compacted(w.phase.txn), Level(h, base, w.log);
      PublishGives(s, w.disk, txn);
      LevelPublish(s, h, w.disk, EncodeReceipt(txn, s.crc).value, v, v);
    }
  }

  lemma LevelLosesPower(s: Setting, h: Header, base: Bytes, w: World, w': World)
    requires LevelInv(s, h, base, w) && LosesPower(s, w, w') && InOrder(w.disk, w'.disk.stable)
    ensures LevelInv(s, h, base, w')
  {
    hide DecodeReceipt, Value, Fold, ReadAt, Below, InOrder, ApplyImages;
    InOrderSize(h, w.disk, w'.disk.stable);
    SyncedBelow(h, w.disk, w'.disk.stable, w'.disk, Level(h, base, w.log));
  }

  lemma InOrderSize(h: Header, d: Disk, f: Bytes)
    requires InOrder(d, f)
    ensures |f| == |d.stable|
  {}

  lemma LevelOthers(s: Setting, h: Header, base: Bytes, first: Token, w: World, w': World)
    requires s.Valid() && Inv(s, base, first, w) && LevelInv(s, h, base, w)
    requires Arrives(s, w, w') || Renames(s, w, w') || Reads(s, w, w') || Promotes(s, w, w') || Decides(s, w, w')
    ensures LevelInv(s, h, base, w')
  {
    hide DecodeReceipt, DecodeToken, Value, Fold, Below, InOrder, SurvivorsInv, ApplyImages, Footer, RepliesInv, TokensIncrease,
      ValidEncoding;
    var v := Level(h, base, w.log);
    assert CurrentTxn(s, w'.disk) == CurrentTxn(s, w.disk);
    SameBelow(h, w.disk, w'.disk, v, v);
  }

  lemma LevelStep(s: Setting, h: Header, base: Bytes, first: Token, w: World, w': World)
    requires s.Valid() && Inv(s, base, first, w) && LevelInv(s, h, base, w) && Step(s, w, w')
    requires LogRaises(s, h, w'.log) && (LosesPower(s, w, w') ==> InOrder(w.disk, w'.disk.stable))
    ensures LevelInv(s, h, base, w')
  {
    hide Inv, LevelInv, Arrives, Renames, Reads, Redoes, Promotes, TidiesAfterRecovery, Decides, Stages, Commits, Finishes,
      Abandons, LosesPower, InOrder, LogRaises;
    if LosesPower(s, w, w') { LevelLosesPower(s, h, base, w, w'); }
    else if Stages(s, w, w') { LevelStages(s, h, base, first, w, w'); }
    else if Abandons(s, w, w') { LevelAbandons(s, h, base, first, w, w'); }
    else if Redoes(s, w, w') || Commits(s, w, w') { LevelWrites(s, h, base, first, w, w'); }
    else if TidiesAfterRecovery(s, w, w') || Finishes(s, w, w') { LevelTidies(s, h, base, first, w, w'); }
    else { LevelOthers(s, h, base, first, w, w'); }
  }

  /** Every power loss of the run keeps a prefix of the write it tears. */
  ghost predicate LosesInOrder(s: Setting, run: seq<World>) {
    forall i :: 0 <= i < |run| - 1 && LosesPower(s, run[i], run[i + 1]) ==> InOrder(run[i].disk, run[i + 1].disk.stable)
  }

  lemma StartLevel(s: Setting, h: Header, base: Bytes, first: Token, w: World)
    requires s.Valid() && Starts(s, base, first, w) && h.Valid() && h.size <= |base|
    ensures LevelInv(s, h, base, w)
  {
    hide FromLe, DecodeReceipt;
    forall f | InOrder(w.disk, f) ensures f == w.disk.stable {
      SyncedInOrder(w.disk, f);
    }
    assert w.disk.stable[h.lo..h.hi] == base[h.lo..h.hi];
  }

  lemma PrefixRaises(s: Setting, h: Header, base: Bytes, first: Token, run: seq<World>, k: nat)
    requires s.Valid() && IsRun(s, base, first, run) && 0 < k <= |run| && LogRaises(s, h, run[|run| - 1].log)
    ensures LogRaises(s, h, run[k - 1].log)
  {
    hide Step, Starts, Raises;
    LogOnlyGrows(s, base, first, run, k);
    var log, after := run[k - 1].log, run[|run| - 1].log;
    forall i | 0 <= i < |log| ensures Raises(log[i].mutation, h, s.tokenOffset) {
      assert log[i] == after[i];
    }
  }

  lemma {:induction false} RunLevel(s: Setting, h: Header, base: Bytes, first: Token, run: seq<World>)
    requires s.Valid() && IsRun(s, base, first, run) && Dependable(s, run) && LosesInOrder(s, run)
    requires h.Valid() && h.size <= |base| && LogRaises(s, h, run[|run| - 1].log)
    ensures LevelInv(s, h, base, run[|run| - 1])
    decreases |run|
  {
    hide Inv, Step, Starts, LevelInv, LogRaises, InOrder, LosesPower, Dependable;
    var n := |run| - 1;
    if n == 0 {
      StartLevel(s, h, base, first, run[0]);
    } else {
      PrefixIsDependable(s, base, first, run, n);
      PrefixRaises(s, h, base, first, run, n);
      forall i | 0 <= i < n - 1 && LosesPower(s, run[..n][i], run[..n][i + 1]) ensures InOrder(run[..n][i].disk, run[..n][i + 1].disk.stable) {
        assert run[..n][i] == run[i] && run[..n][i + 1] == run[i + 1];
      }
      RunLevel(s, h, base, first, run[..n]);
      RunIsSafe(s, base, first, run[..n]);
      assert Step(s, run[n - 1], run[n - 1 + 1]);
      assert LosesPower(s, run[n - 1], run[n - 1 + 1]) ==> InOrder(run[n - 1].disk, run[n - 1 + 1].disk.stable);
      LevelStep(s, h, base, first, run[n - 1], run[n]);
    }
  }

  /** A prefix of a mutation's write keeps the header's other bytes. */
  lemma InOrderHeader(s: Setting, h: Header, base: Bytes, d: Disk, f: Bytes)
    requires Sized(s, h, base, d) && CleanDisk(h, base, d) && InOrder(d, f)
    ensures |f| == |d.stable| && SameHeader(h, f, base)
  {
    hide FromLe, ApplyImages;
    var k: nat, n: nat :| k <= |d.unsynced| && InOrderAt(d, f, k, n);
    AfterHeader(s, h, base, d, k);
    if f != After(d, k) {
      TornField(h, After(d, k), d.unsynced[k], f);
    }
  }

  /** In a run whose power losses keep prefixes, whatever a further such loss leaves is opened. */
  lemma PrefixTearsAreOpened(s: Setting, gate: Bytes -> bool, h: Header, base: Bytes, first: Token, run: seq<World>, f: Bytes)
    requires s.Valid() && IsRun(s, base, first, run) && Dependable(s, run) && LosesInOrder(s, run)
    requires Guards(gate, h, base) && LogRaises(s, h, run[|run| - 1].log)
    requires Level(h, base, run[|run| - 1].log) <= h.limit && InOrder(run[|run| - 1].disk, f)
    ensures |f| == s.FileSize() && gate(Body(f))
  {
    hide Step, Starts, Dependable, LosesInOrder, LogRaises, Value, InOrder, CleanDisk;
    var w := run[|run| - 1];
    RaisingIsClean(s, h, w.log);
    RunIsClean(s, h, base, first, run);
    RunLevel(s, h, base, first, run);
    InOrderHeader(s, h, base, w.disk, f);
    GateOfFile(s, gate, h, base, f);
  }
}
