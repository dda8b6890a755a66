/** What every run of the sidecar protocol guarantees. */
module SidecarTheorems {
  import opened Bytes
  import opened AfterImages
  import opened Receipt
  import opened SidecarProtocol
  import opened SidecarSafety

  /** No publish strands a file that the unsynced writes before it may leave. */
  ghost predicate HarmlessRun(s: Setting, run: seq<World>) {
    forall i :: 0 <= i < |run| - 1 ==> HarmlessStep(s, run[i], run[i + 1])
  }

  ghost predicate Dependable(s: Setting, run: seq<World>)
    requires run != []
  {
    Confined(s, run[|run| - 1].log, s.tokenOffset) && HarmlessRun(s, run)
  }

  lemma OnlyStagingLogs(s: Setting, w: World, w': World)
    requires s.Valid() && Step(s, w, w')
    ensures w'.log == w.log || (Stages(s, w, w') && w'.log == w.log + [w'.log[|w.log|]])
  {
    hide DecodeReceipt, DecodeToken, EncodeReceipt, ValidEncoding, Footer, Survives, ReadAt, ShortWrite;
  }

  lemma {:induction false} LogOnlyGrows(s: Setting, base: Bytes, first: Token, run: seq<World>, k: nat)
    requires s.Valid() && IsRun(s, base, first, run) && 0 < k <= |run|
    ensures IsRun(s, base, first, run[..k]) && run[k - 1].log <= run[|run| - 1].log
    decreases |run|
  {
    hide Step, Stages, Starts;
    var n := |run| - 1;
    if k <= n {
      assert Step(s, run[n - 1], run[n - 1 + 1]);
      OnlyStagingLogs(s, run[n - 1], run[n]);
      LogOnlyGrows(s, base, first, run[..n], k);
      assert run[..n][..k] == run[..k];
    } else {
      assert run[..k] == run;
    }
  }

  lemma PrefixIsConfined(s: Setting, base: Bytes, first: Token, run: seq<World>, k: nat, bound: nat)
    requires s.Valid() && IsRun(s, base, first, run) && 0 < k <= |run| && Confined(s, run[|run| - 1].log, bound)
    ensures IsRun(s, base, first, run[..k]) && Confined(s, run[k - 1].log, bound)
  {
    hide Step, Starts, EndsBy;
    LogOnlyGrows(s, base, first, run, k);
    var log, after := run[k - 1].log, run[|run| - 1].log;
    forall i | 0 <= i < |log| ensures EndsBy(log[i].mutation, s.tokenOffset, bound) {
      assert log[i] == after[i];
    }
  }

  lemma PrefixIsDependable(s: Setting, base: Bytes, first: Token, run: seq<World>, k: nat)
    requires s.Valid() && IsRun(s, base, first, run) && Dependable(s, run) && 0 < k <= |run|
    ensures IsRun(s, base, first, run[..k]) && Dependable(s, run[..k])
  {
    hide Step, Starts, HarmlessStep, Confined;
    PrefixIsConfined(s, base, first, run, k, s.tokenOffset);
    forall i | 0 <= i < k - 1 ensures HarmlessStep(s, run[..k][i], run[..k][i + 1]) {
      assert HarmlessStep(s, run[i], run[i + 1]);
    }
  }

  lemma {:induction false} RunIsSafe(s: Setting, base: Bytes, first: Token, run: seq<World>)
    requires s.Valid() && IsRun(s, base, first, run) && Dependable(s, run)
    ensures Inv(s, base, first, run[|run| - 1])
    decreases |run|
  {
    hide Inv, Step, Starts, HarmlessStep, EndsBy;
    if |run| == 1 {
      StartIsSafe(s, base, first, run[0]);
    } else {
      var n := |run| - 1;
      PrefixIsDependable(s, base, first, run, n);
      RunIsSafe(s, base, first, run[..n]);
      assert Step(s, run[n - 1], run[n - 1 + 1]) && HarmlessStep(s, run[n - 1], run[n - 1 + 1]);
      StepKeeps(s, base, first, run[n - 1], run[n]);
    }
  }

  /** Recovery from `f` gives the body in which every logged mutation ran exactly
      once, in token order, under the last token. */
  ghost predicate Recovers(s: Setting, base: Bytes, first: Token, w: World, f: Bytes) {
    var txn := CurrentTxn(s, w.disk);
    && |f| == s.FileSize()
    && (txn.Some? ==> Fits(txn.value.images, |f|))
    && RecoveredFile(f, txn) == Fold(base, w.log) + LastToken(first, w.log).Encode()
  }

  /** Recovery succeeds whatever a power loss leaves. */
  ghost predicate Lossless(s: Setting, base: Bytes, first: Token, w: World) {
    forall f :: Survives(w.disk, f, s.tokenOffset) ==> Recovers(s, base, first, w, f)
  }

  /** The logged tokens grow as numbers. */
  ghost predicate NumbersIncrease(first: Token, log: seq<Entry>) {
    && (forall i :: 0 <= i < |log| ==> first.Number() < log[i].token.Number())
    && (forall i, j :: 0 <= i < j < |log| ==> log[i].token.Number() < log[j].token.Number())
  }

  lemma OrderedByNumber(first: Token, log: seq<Entry>)
    ensures TokensIncrease(first, log) <==> NumbersIncrease(first, log)
  {
    hide Token.Less, Token.Number;
    forall a: Token, b: Token ensures a.Less(b) <==> a.Number() < b.Number() {
      TokenOrder(a, b);
    }
  }

  lemma ExactlyOnce(s: Setting, base: Bytes, first: Token, run: seq<World>)
    requires s.Valid() && IsRun(s, base, first, run) && Dependable(s, run)
    ensures NumbersIncrease(first, run[|run| - 1].log)
    ensures Lossless(s, base, first, run[|run| - 1])
  {
    hide Step, Dependable, NumbersIncrease;
    OrderedByNumber(first, run[|run| - 1].log);
    RunIsSafe(s, base, first, run);
    LosslessIsSafe(s, base, first, run[|run| - 1]);
  }

  /** Recovery succeeds from all survivors exactly when each of them is done or redoable. */
  lemma LosslessIsSafe(s: Setting, base: Bytes, first: Token, w: World)
    requires Shape(s, base, w.disk) && ReceiptInv(s, w.disk, w.log)
    ensures Lossless(s, base, first, w) <==> SurvivorsInv(s, Target(base, first, w.log), w.disk)
  {
    hide DecodeReceipt, DecodeToken, EncodeReceipt, Survives, Fold, ValidEncoding, Footer;
    TargetFooter(base, first, w);
    var target, txn := Target(base, first, w.log), CurrentTxn(s, w.disk);
    forall f | Survives(w.disk, f, s.tokenOffset)
      ensures Recovers(s, base, first, w, f) <==> SafeFile(s, target, txn, f)
    {
      SurvivorSize(w.disk, f, s.tokenOffset);
    }
  }

  lemma SurvivorSize(d: Disk, f: Bytes, tokenOffset: nat)
    requires Survives(d, f, tokenOffset)
    ensures |f| == |d.stable|
  {}

  /** `recover` accepts every receipt the protocol leaves behind. The receipt is
      never behind the footer, and an image-free one means the file is complete. */
  lemma ReceiptLeads(s: Setting, base: Bytes, first: Token, run: seq<World>, f: Bytes)
    requires s.Valid() && IsRun(s, base, first, run) && Dependable(s, run)
    requires Survives(run[|run| - 1].disk, f, s.tokenOffset)
    ensures var w := run[|run| - 1];
      && w.disk.Read(s.crc).Ok?
      && |f| == s.FileSize()
      && (w.disk.Read(s.crc).value.Some? ==>
          var txn := w.disk.Read(s.crc).value.value.0;
          && txn.tokenOffset == s.tokenOffset && txn.fileSize == s.FileSize()
          && !txn.token.Less(Footer(f))
          && (txn.images == [] ==> f == Target(base, first, w.log)))
  {
    hide DecodeReceipt, DecodeToken, EncodeReceipt, Step, Footer, ValidEncoding, Dependable;
    var w := run[|run| - 1];
    RunIsSafe(s, base, first, run);
    ReceiptIsLogged(s, w.disk, w.log);
    TargetFooter(base, first, w);
  }

  lemma TokensAreUnique(first: Token, log: seq<Entry>, a: nat, b: nat)
    requires TokensIncrease(first, log) && a < |log| && b < |log| && log[a].token == log[b].token
    ensures a == b
  {}

  /** Two successful replies for one token carry the same result. */
  lemma RepliesAgree(s: Setting, base: Bytes, first: Token, run: seq<World>, i: nat, j: nat)
    requires s.Valid() && IsRun(s, base, first, run) && Dependable(s, run)
    requires var replies := run[|run| - 1].replies;
      && i < |replies| && j < |replies| && replies[i].0 == replies[j].0
      && (replies[i].1.Applied? || replies[i].1.Replayed?)
      && (replies[j].1.Applied? || replies[j].1.Replayed?)
    ensures var replies := run[|run| - 1].replies; replies[i].1.result == replies[j].1.result
  {
    hide DecodeReceipt, DecodeToken, Step, SurvivorsInv, PhaseInv, ReceiptInv, Dependable;
    var w := run[|run| - 1];
    RunIsSafe(s, base, first, run);
    var a :| 0 <= a < |w.log| && w.log[a].token == w.replies[i].0 && w.log[a].result == w.replies[i].1.result;
    var b :| 0 <= b < |w.log| && w.log[b].token == w.replies[j].0 && w.log[b].result == w.replies[j].1.result;
    TokensAreUnique(first, w.log, a, b);
  }

  /** A logged token never applies again, a replay of the newest returns its logged
      result, a token above the newest applies, and a log-less token always applies. */
  ghost predicate RightDecision(first: Token, w: World, w': World)
    requires !w.phase.Idle?
  {
    var token, last := w.phase.req.token, LastToken(first, w.log);
    && (w'.phase == Staging(w.phase.req) <==> last.Number() < token.Number())
    && (w.phase.req.logless ==> w'.phase == Staging(w.phase.req))
    && (token.Number() <= last.Number() ==> w' == w.Return(
          if token == last && w.log != [] then Replayed(w.log[|w.log| - 1].result) else Stale))
  }

  lemma DecisionFromInv(s: Setting, base: Bytes, first: Token, w: World, w': World)
    requires Inv(s, base, first, w) && Decides(s, w, w') && w.phase.req.token.index != 0
    ensures RightDecision(first, w, w')
  {
    hide DecodeReceipt, DecodeToken, SurvivorsInv, Footer, RepliesInv, TokensIncrease, Fold, EndsBy,
      ApplyImages, Fits, ValidEncoding;
    TargetFooter(base, first, w);
    ReceiptIsLogged(s, w.disk, w.log);
    TokenOrder(LastToken(first, w.log), w.phase.req.token);
    TokenOrder(w.phase.req.token, LastToken(first, w.log));
  }

  /** The decision of `begin` at any point of any run. */
  lemma DecisionIsRight(s: Setting, base: Bytes, first: Token, run: seq<World>, w': World)
    requires s.Valid() && IsRun(s, base, first, run) && Dependable(s, run)
    requires Decides(s, run[|run| - 1], w') && run[|run| - 1].phase.req.token.index != 0
    ensures RightDecision(first, run[|run| - 1], w')
  {
    hide Step, Inv, RightDecision, Dependable;
    RunIsSafe(s, base, first, run);
    DecisionFromInv(s, base, first, run[|run| - 1], w');
  }
}
