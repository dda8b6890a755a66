/** Runs that lose power while the images of a sidecar's first mutation are written. */
module SidecarCrashes {
  import opened Bytes
  import opened AfterImages
  import opened Receipt
  import opened SidecarProtocol
  import opened SidecarSafety
  import opened SidecarTheorems

  /** The first mutation of a sidecar with body `base` and token `first`. */
  datatype Commit = Commit(base: Bytes, first: Token, token: Token, mutation: Mutation) {
    ghost function Asked(): Request { Request(token, mutation, false) }
  }

  ghost function TxnOf(s: Setting, c: Commit): Txn
    requires s.Valid() && c.mutation.stage(c.base).Plan?
  {
    var plan := c.mutation.stage(c.base);
    Commitment(c.token, s.tokenOffset, s.FileSize(), plan.images, plan.result)
  }

  /** The mutation is new, can be staged, and its receipt can be published. */
  ghost predicate Possible(s: Setting, c: Commit) {
    && s.Valid() && |c.base| == s.tokenOffset && c.token.index != 0 && c.first.Less(c.token)
    && c.mutation.stage(c.base).Plan? && ValidEncoding(TxnOf(s, c))
  }

  ghost function Unwritten(c: Commit, receipt: Option<Bytes>): Disk {
    Disk(c.base + c.first.Encode(), [], receipt, None, true)
  }

  ghost function Before(c: Commit, phase: Phase): World {
    World(Unwritten(c, None), phase, [], [])
  }

  ghost function LogOf(c: Commit): seq<Entry>
    requires c.mutation.stage(c.base).Plan?
  {
    [Entry(c.token, c.mutation, c.mutation.stage(c.base).result)]
  }

  ghost function Published(s: Setting, c: Commit): Disk
    requires Possible(s, c)
  {
    Unwritten(c, Some(EncodeReceipt(TxnOf(s, c), s.crc).value))
  }

  /** The first `n` images have been written, none is synced. */
  ghost function Written(s: Setting, c: Commit, n: nat): World
    requires Possible(s, c) && n <= |TxnOf(s, c).images|
  {
    var txn := TxnOf(s, c);
    World(Published(s, c).(unsynced := txn.images[..n]), Committing(c.Asked(), txn, n), LogOf(c), [])
  }

  ghost function Crashed(s: Setting, c: Commit, f: Bytes): World
    requires Possible(s, c)
  {
    World(Published(s, c).(stable := f), Idle, LogOf(c), [])
  }

  ghost function WorldAt(s: Setting, c: Commit, n: nat, f: Bytes, i: nat): World
    requires Possible(s, c) && n <= |TxnOf(s, c).images|
  {
    if i == 0 then Before(c, Idle)
    else if i == 1 then Before(c, Recovering(c.Asked()))
    else if i == 2 then Before(c, Recovered(c.Asked()))
    else if i == 3 then Before(c, Staging(c.Asked()))
    else if i <= n + 4 then Written(s, c, i - 4)
    else Crashed(s, c, f)
  }

  /** Power fails after `n` images and leaves `f`. */
  ghost function CrashRun(s: Setting, c: Commit, n: nat, f: Bytes): (run: seq<World>)
    requires Possible(s, c) && n <= |TxnOf(s, c).images|
    ensures |run| == n + 6 && run[n + 4] == Written(s, c, n) && run[n + 5] == Crashed(s, c, f)
  {
    hide Written, Crashed;
    seq(n + 6, i requires 0 <= i < n + 6 => WorldAt(s, c, n, f, i))
  }

  lemma Begins(s: Setting, c: Commit)
    requires Possible(s, c)
    ensures var req := c.Asked();
      && Step(s, Before(c, Idle), Before(c, Recovering(req)))
      && Step(s, Before(c, Recovering(req)), Before(c, Recovered(req)))
      && Step(s, Before(c, Recovered(req)), Before(c, Staging(req)))
  {
    hide Token.Encode, DecodeToken, DecodeReceipt, EncodeReceipt, ValidEncoding;
    FooterOf(c.base, c.first);
    var req := c.Asked();
    assert Arrives(s, Before(c, Idle), Before(c, Recovering(req)));
    assert Reads(s, Before(c, Recovering(req)), Before(c, Recovered(req)));
    assert Decides(s, Before(c, Recovered(req)), Before(c, Staging(req)));
  }

  lemma Publishing(s: Setting, c: Commit)
    requires Possible(s, c)
    ensures Step(s, Before(c, Staging(c.Asked())), Written(s, c, 0))
  {
    hide Token.Encode, DecodeToken, DecodeReceipt, EncodeReceipt, ValidEncoding;
    FooterOf(c.base, c.first);
    assert TxnOf(s, c).images[..0] == [];
    assert Stages(s, Before(c, Staging(c.Asked())), Written(s, c, 0));
  }

  lemma Writes(s: Setting, c: Commit, n: nat)
    requires Possible(s, c) && n < |TxnOf(s, c).images|
    ensures Step(s, Written(s, c, n), Written(s, c, n + 1))
  {
    hide Token.Encode, DecodeToken, DecodeReceipt, EncodeReceipt;
    var images := TxnOf(s, c).images;
    assert images[..n] + [images[n]] == images[..n + 1];
    assert Commits(s, Written(s, c, n), Written(s, c, n + 1));
  }

  lemma WrittenFits(s: Setting, c: Commit, n: nat)
    requires Possible(s, c) && n <= |TxnOf(s, c).images|
    ensures Written(s, c, n).disk.Fit()
  {}

  lemma StepAt(s: Setting, c: Commit, n: nat, f: Bytes, i: nat)
    requires Possible(s, c) && n <= |TxnOf(s, c).images| && Survives(Written(s, c, n).disk, f, s.tokenOffset) && i < n + 5
    ensures Step(s, WorldAt(s, c, n, f, i), WorldAt(s, c, n, f, i + 1))
  {
    hide Step, Written, Crashed, Before, Survives;
    if i < 3 {
      Begins(s, c);
    } else if i == 3 {
      Publishing(s, c);
    } else if i < n + 4 {
      Writes(s, c, i - 4);
    } else {
      CrashLosesPower(s, c, n, f);
    }
  }

  lemma HarmlessAt(s: Setting, c: Commit, n: nat, f: Bytes, i: nat)
    requires Possible(s, c) && n <= |TxnOf(s, c).images| && i < n + 5
    ensures HarmlessStep(s, WorldAt(s, c, n, f, i), WorldAt(s, c, n, f, i + 1))
  {
    hide Token.Encode, EncodeReceipt, ValidEncoding, Harmless, Commitment;
    if i == 3 {
      SettledIsHarmless(s, Unwritten(c, None), TxnOf(s, c).images);
    }
  }

  lemma CrashRunIsRun(s: Setting, c: Commit, n: nat, f: Bytes)
    requires Possible(s, c) && n <= |TxnOf(s, c).images| && Survives(Written(s, c, n).disk, f, s.tokenOffset)
    ensures var run := CrashRun(s, c, n, f);
      && IsRun(s, c.base, c.first, run) && HarmlessRun(s, run)
      && LosesPower(s, run[n + 4], run[n + 5]) && CurrentTxn(s, run[n + 5].disk) == Some(TxnOf(s, c))
  {
    hide Step, LosesPower, Survives, Token.Encode, HarmlessStep, Written, Crashed, Possible, CurrentTxn;
    var run := CrashRun(s, c, n, f);
    CrashLosesPower(s, c, n, f);
    forall i | 0 <= i < |run| - 1 ensures Step(s, run[i], run[i + 1]) && HarmlessStep(s, run[i], run[i + 1]) {
      StepAt(s, c, n, f, i);
      HarmlessAt(s, c, n, f, i);
    }
    assert run[0] == Before(c, Idle);
    StartsFresh(s, c);
  }

  lemma StartsFresh(s: Setting, c: Commit)
    requires Possible(s, c)
    ensures Starts(s, c.base, c.first, Before(c, Idle))
  {}

  lemma CrashLosesPower(s: Setting, c: Commit, n: nat, f: Bytes)
    requires Possible(s, c) && n <= |TxnOf(s, c).images| && Survives(Written(s, c, n).disk, f, s.tokenOffset)
    ensures LosesPower(s, Written(s, c, n), Crashed(s, c, f)) && Step(s, Written(s, c, n), Crashed(s, c, f))
    ensures CurrentTxn(s, Crashed(s, c, f).disk) == Some(TxnOf(s, c))
  {
    hide Token.Encode, DecodeToken, DecodeReceipt, EncodeReceipt, Survives;
    ReceiptRoundTrip(TxnOf(s, c), s.crc);
    WrittenFits(s, c, n);
  }
}
