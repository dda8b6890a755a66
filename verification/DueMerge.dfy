/** Claiming due candidates from many keys: one cursor per key, a heap of their heads, and
    the proof that it yields the first candidates of all due entries sorted by score,
    member, key and position. */
module DueMerge {
  import opened Bytes
  import opened Score
  import opened FlowOrder
  import opened FlowScan
  import opened FlowPaging
  import opened FlowDue

  /** A due entry and the position of its key in the request. */
  datatype Candidate = Candidate(position: nat, entry: OrderedEntry)

  /** The order of `DueCandidate`, smallest first. A cursor is one position, so positions
      settle every tie. */
  predicate CandidateLess(a: Candidate, b: Candidate) {
    a.entry.score < b.entry.score ||
    (a.entry.score == b.entry.score &&
     (LexLess(a.entry.member, b.entry.member) ||
      (a.entry.member == b.entry.member &&
       (LexLess(a.entry.key, b.entry.key) ||
        (a.entry.key == b.entry.key && a.position < b.position)))))
  }

  lemma CandidateTransitive(a: Candidate, b: Candidate, c: Candidate)
    requires CandidateLess(a, b) && CandidateLess(b, c)
    ensures CandidateLess(a, c)
  {
    hide LexLess;
    if LexLess(a.entry.member, b.entry.member) && LexLess(b.entry.member, c.entry.member) {
      LexTransitive(a.entry.member, b.entry.member, c.entry.member);
    }
    if LexLess(a.entry.key, b.entry.key) && LexLess(b.entry.key, c.entry.key) {
      LexTransitive(a.entry.key, b.entry.key, c.entry.key);
    }
  }

  /** The rank takes no part in the comparison; under one key it follows from the member. */
  lemma CandidateTotal(a: Candidate, b: Candidate)
    requires a.entry.rank == MemberRank(a.entry.key, a.entry.member)
    requires b.entry.rank == MemberRank(b.entry.key, b.entry.member)
    ensures CandidateLess(a, b) || a == b || CandidateLess(b, a)
    ensures !(CandidateLess(a, b) && CandidateLess(b, a))
  {
    hide LexLess, MemberRank;
    LexTotal(a.entry.member, b.entry.member);
    LexTotal(a.entry.key, b.entry.key);
    LexIrreflexive(a.entry.member);
    LexIrreflexive(a.entry.key);
  }

  lemma CandidateIrreflexive(a: Candidate)
    ensures !CandidateLess(a, a)
  {
    LexIrreflexive(a.entry.member);
    LexIrreflexive(a.entry.key);
  }

  // ---------------------------------------------------------------------
  // What the answer is
  // ---------------------------------------------------------------------

  /** A due entry of the key at its position. */
  predicate IsDue(ordered: seq<OrderedEntry>, keys: seq<Bytes>, max: Score, c: Candidate) {
    c.position < |keys| && c.entry in ordered && c.entry.key == keys[c.position] && c.entry.score <= max
  }

  ghost predicate Increasing(rows: seq<Candidate>) {
    forall i, j :: 0 <= i < j < |rows| ==> CandidateLess(rows[i], rows[j])
  }

  /** The first `n` due candidates: due, in order, and either everything due or `n` of them
      with everything else behind. */
  ghost predicate FirstOf(rows: seq<Candidate>, ordered: seq<OrderedEntry>, keys: seq<Bytes>, max: Score, n: nat) {
    && Increasing(rows) && |rows| <= n
    && (forall c :: c in rows ==> IsDue(ordered, keys, max, c))
    && (forall c :: IsDue(ordered, keys, max, c) && c !in rows ==>
          |rows| == n && forall r :: r in rows ==> CandidateLess(r, c))
  }

  /** Nothing about `c` comes before `r`: not its score, among equal scores not its member, among
      equal members not its key, and among equal keys not its position in the request. */
  ghost predicate Ahead(r: Candidate, c: Candidate) {
    && r.entry.score <= c.entry.score
    && (r.entry.score == c.entry.score ==> LexLeq(r.entry.member, c.entry.member))
    && (r.entry.score == c.entry.score && r.entry.member == c.entry.member ==> LexLeq(r.entry.key, c.entry.key))
    && (r.entry.score == c.entry.score && r.entry.member == c.entry.member && r.entry.key == c.entry.key ==>
          r.position < c.position)
  }

  /** No later row and no due candidate that was left out comes before a row. */
  ghost predicate BestFirst(rows: seq<Candidate>, ordered: seq<OrderedEntry>, keys: seq<Bytes>, max: Score) {
    && (forall i, j :: 0 <= i < j < |rows| ==> Ahead(rows[i], rows[j]))
    && (forall r, c :: r in rows && IsDue(ordered, keys, max, c) && c !in rows ==> Ahead(r, c))
  }

  lemma FirstIsBest(rows: seq<Candidate>, ordered: seq<OrderedEntry>, keys: seq<Bytes>, max: Score, n: nat)
    requires FirstOf(rows, ordered, keys, max, n)
    ensures BestFirst(rows, ordered, keys, max)
  {
    hide IsDue, LexLess;
    forall a, b | CandidateLess(a, b) ensures Ahead(a, b) {
      LexIrreflexive(a.entry.member);
      LexIrreflexive(a.entry.key);
    }
  }

  /** That determines the answer. */
  lemma {:induction false} FirstIsUnique(a: seq<Candidate>, b: seq<Candidate>,
                                         ordered: seq<OrderedEntry>, keys: seq<Bytes>, max: Score, n: nat)
    requires FirstOf(a, ordered, keys, max, n) && FirstOf(b, ordered, keys, max, n) && Ranked(ordered)
    ensures a == b
  {
    hide CandidateLess, IsDue;
    PrefixAgrees(a, b, ordered, keys, max, n, Least(|a|, |b|));
    LengthsAgree(a, b, ordered, keys, max, n);
    LengthsAgree(b, a, ordered, keys, max, n);
  }

  lemma {:induction false} PrefixAgrees(a: seq<Candidate>, b: seq<Candidate>,
                                        ordered: seq<OrderedEntry>, keys: seq<Bytes>, max: Score, n: nat, k: nat)
    requires FirstOf(a, ordered, keys, max, n) && FirstOf(b, ordered, keys, max, n) && Ranked(ordered)
    requires k <= |a| && k <= |b|
    ensures a[..k] == b[..k]
    decreases k
  {
    hide CandidateLess, IsDue;
    if k > 0 {
      PrefixAgrees(a, b, ordered, keys, max, n, k - 1);
      NotSmaller(a, b, ordered, keys, max, n, k - 1);
      NotSmaller(b, a, ordered, keys, max, n, k - 1);
      assert a[k - 1] in a && b[k - 1] in b;
      DueIsRanked(ordered, keys, max, a[k - 1]);
      DueIsRanked(ordered, keys, max, b[k - 1]);
      CandidateTotal(a[k - 1], b[k - 1]);
      assert a[..k] == a[..k - 1] + [a[k - 1]] && b[..k] == b[..k - 1] + [b[k - 1]];
    }
  }

  lemma DueIsRanked(ordered: seq<OrderedEntry>, keys: seq<Bytes>, max: Score, c: Candidate)
    requires Ranked(ordered) && IsDue(ordered, keys, max, c)
    ensures c.entry.rank == MemberRank(c.entry.key, c.entry.member)
  {}

  lemma NotRepeated(rows: seq<Candidate>, k: nat)
    requires Increasing(rows) && k < |rows|
    ensures rows[k] !in rows[..k]
  {
    hide CandidateLess;
    CandidateIrreflexive(rows[k]);
  }

  lemma InTail(rows: seq<Candidate>, k: nat, c: Candidate) returns (j: nat)
    requires k <= |rows| && c in rows && c !in rows[..k]
    ensures k <= j < |rows| && rows[j] == c
  {
    assert rows == rows[..k] + rows[k..];
    j :| k <= j < |rows| && rows[j] == c;
  }

  /** After an equal prefix neither answer has a smaller next row. */
  lemma NotSmaller(a: seq<Candidate>, b: seq<Candidate>,
                   ordered: seq<OrderedEntry>, keys: seq<Bytes>, max: Score, n: nat, k: nat)
    requires FirstOf(a, ordered, keys, max, n) && FirstOf(b, ordered, keys, max, n) && Ranked(ordered)
    requires k < |a| && k < |b| && a[..k] == b[..k]
    ensures !CandidateLess(a[k], b[k])
  {
    hide CandidateLess, IsDue;
    assert a[k] in a && b[k] in b;
    DueIsRanked(ordered, keys, max, a[k]);
    DueIsRanked(ordered, keys, max, b[k]);
    CandidateTotal(a[k], b[k]);
    CandidateIrreflexive(a[k]);
    NotRepeated(a, k);
    if a[k] in b {
      var j := InTail(b, k, a[k]);
    }
  }

  lemma LengthsAgree(a: seq<Candidate>, b: seq<Candidate>,
                     ordered: seq<OrderedEntry>, keys: seq<Bytes>, max: Score, n: nat)
    requires FirstOf(a, ordered, keys, max, n) && FirstOf(b, ordered, keys, max, n)
    requires var k := Least(|a|, |b|); a[..k] == b[..k]
    ensures |b| <= |a|
  {
    hide CandidateLess, IsDue;
    if |a| < |b| {
      assert a[..|a|] == a && b[|a|] in b;
      NotRepeated(b, |a|);
    }
  }

  // ---------------------------------------------------------------------
  // Streams
  // ---------------------------------------------------------------------

  /** For keys that are not history keys the index order of one key is the candidate order. */
  lemma StreamOrder(a: OrderedEntry, b: OrderedEntry, position: nat)
    requires Less(a, b) && a.key == b.key && !HistoryKey(a.key)
    requires a.rank == MemberRank(a.key, a.member) && b.rank == MemberRank(b.key, b.member)
    ensures CandidateLess(Candidate(position, a), Candidate(position, b))
  {
    LexIrreflexive(a.key);
  }

  ghost predicate PlainKeys(keys: seq<Bytes>) {
    forall i :: 0 <= i < |keys| ==> !HistoryKey(keys[i])
  }

  /** The due entries of every key, in order. */
  ghost function Streams(ordered: seq<OrderedEntry>, keys: seq<Bytes>, max: Score): (d: seq<seq<OrderedEntry>>)
    ensures |d| == |keys|
  {
    seq(|keys|, i requires 0 <= i < |keys| => Due(ordered, keys[i], max))
  }

  lemma DueIsInStream(ordered: seq<OrderedEntry>, keys: seq<Bytes>, max: Score, c: Candidate)
    requires Sorted(ordered)
    ensures IsDue(ordered, keys, max, c) <==>
      c.position < |keys| && c.entry in Due(ordered, keys[c.position], max)
  {
    hide Matching, Sorted;
    if c.position < |keys| {
      MatchingHolds(ordered, DueWindow(keys[c.position], max));
    }
  }

  /** Within a stream, later entries are larger candidates. */
  lemma StreamSorted(ordered: seq<OrderedEntry>, keys: seq<Bytes>, max: Score, p: nat, i: nat, j: nat)
    requires Sorted(ordered) && Ranked(ordered) && PlainKeys(keys)
    requires p < |keys| && i < j < |Due(ordered, keys[p], max)|
    ensures var d := Due(ordered, keys[p], max); CandidateLess(Candidate(p, d[i]), Candidate(p, d[j]))
  {
    hide Matching, Less, HistoryKey, CandidateLess, MemberRank;
    var d := Due(ordered, keys[p], max);
    MatchingHolds(ordered, DueWindow(keys[p], max));
    assert d[i] in d && d[j] in d;
    var x :| 0 <= x < |ordered| && ordered[x] == d[i];
    var y :| 0 <= y < |ordered| && ordered[y] == d[j];
    StreamOrder(d[i], d[j], p);
  }

  // ---------------------------------------------------------------------
  // Cursors
  // ---------------------------------------------------------------------

  /** `DueCursor::next`: skip smaller keys, stop beyond the key or the score. */
  method NextDue(rest: seq<OrderedEntry>, key: Bytes, max: Score) returns (entry: Option<OrderedEntry>, left: seq<OrderedEntry>)
    requires Sorted(rest)
    ensures entry.None? <==> Due(rest, key, max) == []
    ensures entry.Some? ==> Sorted(left) && Due(rest, key, max) == [entry.value] + Due(left, key, max)
  {
    hide Sorted, NotBefore, LexLess;
    left := rest;
    while left != []
      invariant Sorted(left) && Due(left, key, max) == Due(rest, key, max)
      decreases |left|
    {
      var e := left[0];
      assert Sorted(left[1..]) by { SortedTail(left); }
      if LexLess(e.key, key) {
        LexIrreflexive(key);
        left := left[1..];
        continue;
      }
      LexTotal(e.key, key);
      HeadNotBefore(left, key);
      if e.key != key || e.score > max {
        ScanEnds(left, key, max);
        return None, left;
      }
      return Some(e), left[1..];
    }
    return None, left;
  }

  lemma HeadNotBefore(s: seq<OrderedEntry>, key: Bytes)
    requires s != [] && Sorted(s) && (s[0].key == key || LexLess(key, s[0].key))
    ensures NotBefore(s, key)
  {
    hide LexLess;
    forall e | e in s ensures e.key == key || LexLess(key, e.key) {
      var i :| 0 <= i < |s| && s[i] == e;
      assert i > 0 ==> Less(s[0], s[i]);
      if LexLess(key, s[0].key) && LexLess(s[0].key, e.key) {
        LexTransitive(key, s[0].key, e.key);
      }
    }
  }

  // ---------------------------------------------------------------------
  // The merge, over abstract streams
  // ---------------------------------------------------------------------

  type Stream = seq<OrderedEntry>

  /** Each stream is in candidate order and its ranks are the members' own. */
  ghost predicate Orderly(d: seq<Stream>) {
    && (forall p, i, j :: 0 <= p < |d| && 0 <= i < j < |d[p]| ==>
          CandidateLess(Candidate(p, d[p][i]), Candidate(p, d[p][j])))
    && (forall p :: 0 <= p < |d| ==> Ranked(d[p]))
  }

  ghost predicate Counted(d: seq<Stream>, done: seq<nat>) {
    |done| == |d| && forall p :: 0 <= p < |d| ==> done[p] <= |d[p]|
  }

  /** The heap holds the next entry of every stream that has one, by position. */
  ghost predicate Heads(d: seq<Stream>, done: seq<nat>, heads: seq<Option<OrderedEntry>>)
    requires Counted(d, done)
  {
    && |heads| == |d|
    && forall p :: 0 <= p < |d| ==> heads[p] == if done[p] < |d[p]| then Some(d[p][done[p]]) else None
  }

  /** Every candidate still to come is behind `c`. */
  ghost predicate Precedes(d: seq<Stream>, done: seq<nat>, c: Candidate)
    requires Counted(d, done)
  {
    forall p, j :: 0 <= p < |d| && done[p] <= j < |d[p]| ==> CandidateLess(c, Candidate(p, d[p][j]))
  }

  ghost predicate Came(d: seq<Stream>, done: seq<nat>, c: Candidate)
    requires Counted(d, done)
  {
    c.position < |d| && c.entry in d[c.position][..done[c.position]]
  }

  /** The rows are exactly what has come, in order, and precede all that is to come. */
  ghost predicate Emitted(d: seq<Stream>, done: seq<nat>, rows: seq<Candidate>)
    requires Counted(d, done)
  {
    && Increasing(rows)
    && (forall c :: c in rows <==> Came(d, done, c))
    && (forall c :: c in rows ==> Precedes(d, done, c))
  }

  /** The least head precedes everything that is to come after it. */
  lemma LeastHead(d: seq<Stream>, done: seq<nat>, heads: seq<Option<OrderedEntry>>, p: nat)
    requires Orderly(d) && Counted(d, done) && Heads(d, done, heads)
    requires p < |d| && done[p] < |d[p]|
    requires forall q :: 0 <= q < |d| && q != p && heads[q].Some? ==>
      CandidateLess(Candidate(p, d[p][done[p]]), Candidate(q, heads[q].value))
    ensures Counted(d, done[p := done[p] + 1])
    ensures Precedes(d, done[p := done[p] + 1], Candidate(p, d[p][done[p]]))
  {
    hide CandidateLess;
    var c, done' := Candidate(p, d[p][done[p]]), done[p := done[p] + 1];
    forall q, j | 0 <= q < |d| && done'[q] <= j < |d[q]| ensures CandidateLess(c, Candidate(q, d[q][j])) {
      if q != p && j > done[q] {
        CandidateTransitive(c, Candidate(q, d[q][done[q]]), Candidate(q, d[q][j]));
      }
    }
  }

  lemma EmitOne(d: seq<Stream>, done: seq<nat>, rows: seq<Candidate>, p: nat)
    requires Counted(d, done) && Emitted(d, done, rows) && p < |d| && done[p] < |d[p]|
    requires Counted(d, done[p := done[p] + 1])
    requires Precedes(d, done[p := done[p] + 1], Candidate(p, d[p][done[p]]))
    ensures Emitted(d, done[p := done[p] + 1], rows + [Candidate(p, d[p][done[p]])])
  {
    hide CandidateLess;
    var c, done' := Candidate(p, d[p][done[p]]), done[p := done[p] + 1];
    assert d[p][..done'[p]] == d[p][..done[p]] + [d[p][done[p]]];
    forall x ensures Came(d, done', x) <==> Came(d, done, x) || x == c {}
    forall i | 0 <= i < |rows| ensures CandidateLess(rows[i], c) {
      assert rows[i] in rows && Precedes(d, done, rows[i]);
    }
    forall x | x in rows ensures Precedes(d, done', x) {
      assert Precedes(d, done, x);
    }
  }

  /** When the heap is empty everything has come. */
  lemma AllCame(d: seq<Stream>, done: seq<nat>, heads: seq<Option<OrderedEntry>>, c: Candidate)
    requires Counted(d, done) && Heads(d, done, heads) && forall p :: 0 <= p < |d| ==> heads[p].None?
    requires c.position < |d| && c.entry in d[c.position]
    ensures Came(d, done, c)
  {
    var p := c.position;
    assert heads[p].None?;
    assert d[p][..done[p]] == d[p];
  }

  lemma CameOrComes(d: seq<Stream>, done: seq<nat>, rows: seq<Candidate>, c: Candidate)
    requires Counted(d, done) && Emitted(d, done, rows)
    requires c.position < |d| && c.entry in d[c.position] && c !in rows
    ensures forall r :: r in rows ==> CandidateLess(r, c)
  {
    hide CandidateLess;
    var p := c.position;
    assert d[p] == d[p][..done[p]] + d[p][done[p]..];
    var j :| done[p] <= j < |d[p]| && d[p][j] == c.entry;
    forall r | r in rows ensures CandidateLess(r, c) {
      assert Precedes(d, done, r);
    }
  }

  // ---------------------------------------------------------------------
  // The code
  // ---------------------------------------------------------------------

  /** The position of the least head, if the heap is not empty. */
  method LeastPosition(heads: seq<Option<OrderedEntry>>) returns (least: Option<nat>)
    requires forall p :: 0 <= p < |heads| && heads[p].Some? ==>
      heads[p].value.rank == MemberRank(heads[p].value.key, heads[p].value.member)
    ensures least.None? <==> forall p :: 0 <= p < |heads| ==> heads[p].None?
    ensures least.Some? ==>
      && least.value < |heads| && heads[least.value].Some?
      && forall q :: 0 <= q < |heads| && q != least.value && heads[q].Some? ==>
           CandidateLess(Candidate(least.value, heads[least.value].value), Candidate(q, heads[q].value))
  {
    hide CandidateLess, MemberRank;
    least := None;
    for q := 0 to |heads|
      invariant least.None? <==> forall p :: 0 <= p < q ==> heads[p].None?
      invariant least.Some? ==> least.value < q && heads[least.value].Some?
      invariant least.Some? ==> forall p :: 0 <= p < q && p != least.value && heads[p].Some? ==>
        CandidateLess(Candidate(least.value, heads[least.value].value), Candidate(p, heads[p].value))
    {
      if heads[q].None? { continue; }
      var c := Candidate(q, heads[q].value);
      if least.None? { least := Some(q); continue; }
      var best := Candidate(least.value, heads[least.value].value);
      CandidateTotal(best, c);
      if CandidateLess(c, best) {
        forall p | 0 <= p < q && heads[p].Some? ensures CandidateLess(c, Candidate(p, heads[p].value)) {
          if p != least.value {
            CandidateTransitive(c, best, Candidate(p, heads[p].value));
          }
        }
        least := Some(q);
      }
    }
  }

  ghost predicate CursorsFollow(d: seq<Stream>, done: seq<nat>, cursors: seq<seq<OrderedEntry>>, keys: seq<Bytes>, max: Score)
    requires Counted(d, done) && |d| == |keys|
  {
    && |cursors| == |d|
    && forall p :: 0 <= p < |d| && done[p] < |d[p]| ==>
         Sorted(cursors[p]) && Due(cursors[p], keys[p], max) == d[p][done[p] + 1..]
  }

  /** Open one cursor per key and put its first entry into the heap. */
  method OpenCursors(ordered: seq<OrderedEntry>, keys: seq<Bytes>, max: Score)
    returns (heads: seq<Option<OrderedEntry>>, cursors: seq<seq<OrderedEntry>>)
    requires Sorted(ordered)
    ensures var d := Streams(ordered, keys, max); var none := seq(|keys|, _ => 0);
      Counted(d, none) && Heads(d, none, heads) && CursorsFollow(d, none, cursors, keys, max)
  {
    hide Sorted, Matching, Start, From;
    heads, cursors := [], [];
    for p := 0 to |keys|
      invariant |heads| == |cursors| == p
      invariant forall q :: 0 <= q < p ==> var all := Due(ordered, keys[q], max);
        && (heads[q] == if |all| > 0 then Some(all[0]) else None)
        && (|all| > 0 ==> Sorted(cursors[q]) && Due(cursors[q], keys[q], max) == all[1..])
    {
      StartHolds(ordered, keys[p], max);
      var entry, left := NextDue(Start(ordered, keys[p]), keys[p], max);
      heads, cursors := heads + [entry], cursors + [left];
    }
  }

  lemma StreamsAreOrderly(ordered: seq<OrderedEntry>, keys: seq<Bytes>, max: Score)
    requires Sorted(ordered) && Ranked(ordered) && PlainKeys(keys)
    ensures Orderly(Streams(ordered, keys, max))
  {
    hide CandidateLess, Matching, Sorted, MemberRank;
    var d := Streams(ordered, keys, max);
    forall p, i, j | 0 <= p < |d| && 0 <= i < j < |d[p]|
      ensures CandidateLess(Candidate(p, d[p][i]), Candidate(p, d[p][j]))
    {
      StreamSorted(ordered, keys, max, p, i, j);
    }
    forall p, i | 0 <= p < |d| && 0 <= i < |d[p]| ensures d[p][i].rank == MemberRank(d[p][i].key, d[p][i].member) {
      MatchingHolds(ordered, DueWindow(keys[p], max));
      assert d[p][i] in d[p];
    }
  }

  lemma AnswerIsFirst(ordered: seq<OrderedEntry>, keys: seq<Bytes>, max: Score, n: nat,
                      done: seq<nat>, rows: seq<Candidate>, finished: bool)
    requires Sorted(ordered) && |rows| <= n && (finished || |rows| == n)
    requires var d := Streams(ordered, keys, max);
      && Counted(d, done) && Emitted(d, done, rows)
      && (finished ==> forall c: Candidate :: c.position < |d| && c.entry in d[c.position] ==> Came(d, done, c))
    ensures FirstOf(rows, ordered, keys, max, n)
  {
    hide CandidateLess, Matching, Sorted, IsDue;
    var d := Streams(ordered, keys, max);
    forall c ensures IsDue(ordered, keys, max, c) <==> c.position < |d| && c.entry in d[c.position] {
      DueIsInStream(ordered, keys, max, c);
    }
    forall c | c in rows ensures IsDue(ordered, keys, max, c) {
      assert Came(d, done, c);
    }
    forall c | IsDue(ordered, keys, max, c) && c !in rows
      ensures |rows| == n && forall r :: r in rows ==> CandidateLess(r, c)
    {
      assert !Came(d, done, c);
      CameOrComes(d, done, rows, c);
    }
  }

  /** `claim_due_candidates` for several keys. */
  method MergeDue(ordered: seq<OrderedEntry>, keys: seq<Bytes>, max: Score, limit: nat, maxScan: nat)
    returns (rows: seq<Candidate>)
    requires Sorted(ordered) && Ranked(ordered) && PlainKeys(keys)
    ensures FirstOf(rows, ordered, keys, max, Least(limit, maxScan))
    ensures BestFirst(rows, ordered, keys, max)
  {
    hide Sorted, CandidateLess, MemberRank, Matching, Emitted, Precedes, HistoryKey, BestFirst, FirstOf;
    ghost var d := Streams(ordered, keys, max);
    StreamsAreOrderly(ordered, keys, max);
    var heads, cursors := OpenCursors(ordered, keys, max);
    ghost var done := seq(|keys|, _ => 0);
    rows := [];
    var scanned := 0;
    assert Emitted(d, done, rows) by { NothingYet(d, done); }
    while |rows| < limit && scanned < maxScan
      invariant scanned == |rows| <= Least(limit, maxScan)
      invariant Counted(d, done) && Emitted(d, done, rows)
      invariant |rows| < Least(limit, maxScan) ==> Heads(d, done, heads) && CursorsFollow(d, done, cursors, keys, max)
      decreases limit - |rows|
    {
      var least := LeastPosition(heads);
      if least.None? {
        forall c: Candidate | c.position < |d| && c.entry in d[c.position] ensures Came(d, done, c) {
          AllCame(d, done, heads, c);
        }
        AnswerIsFirst(ordered, keys, max, Least(limit, maxScan), done, rows, true);
        FirstIsBest(rows, ordered, keys, max, Least(limit, maxScan));
        return;
      }
      var p := least.value;
      LeastHead(d, done, heads, p);
      EmitOne(d, done, rows, p);
      rows := rows + [Candidate(p, heads[p].value)];
      scanned := scanned + 1;
      ghost var before := done;
      done := done[p := done[p] + 1];
      if |rows| < limit && scanned < maxScan {
        var next, left := NextDue(cursors[p], keys[p], max);
        Advanced(d, before, heads, cursors, keys, max, p, next, left);
        heads, cursors := heads[p := next], cursors[p := left];
      }
    }
    AnswerIsFirst(ordered, keys, max, Least(limit, maxScan), done, rows, false);
    FirstIsBest(rows, ordered, keys, max, Least(limit, maxScan));
  }

  lemma NothingYet(d: seq<Stream>, done: seq<nat>)
    requires Counted(d, done) && forall p :: 0 <= p < |d| ==> done[p] == 0
    ensures Emitted(d, done, [])
  {
    forall c ensures !Came(d, done, c) {
      if c.position < |d| {
        assert d[c.position][..0] == [];
      }
    }
  }

  lemma Advanced(d: seq<Stream>, done: seq<nat>, heads: seq<Option<OrderedEntry>>, cursors: seq<seq<OrderedEntry>>,
                 keys: seq<Bytes>, max: Score, p: nat, next: Option<OrderedEntry>, left: seq<OrderedEntry>)
    requires Counted(d, done) && Heads(d, done, heads) && |d| == |keys| && CursorsFollow(d, done, cursors, keys, max)
    requires p < |d| && done[p] < |d[p]|
    requires next.None? <==> Due(cursors[p], keys[p], max) == []
    requires next.Some? ==>
      Sorted(left) && Due(cursors[p], keys[p], max) == [next.value] + Due(left, keys[p], max)
    ensures var done' := done[p := done[p] + 1];
      && Counted(d, done') && Heads(d, done', heads[p := next])
      && CursorsFollow(d, done', cursors[p := left], keys, max)
  {
    hide Matching, Sorted;
    var done' := done[p := done[p] + 1];
    var rest := d[p][done[p] + 1..];
    if next.Some? {
      assert rest[0] == d[p][done'[p]];
      assert rest[1..] == d[p][done'[p] + 1..];
      assert Due(left, keys[p], max) == rest[1..];
    }
  }

  /** The single-key path gives the answer of the general one. */
  method ClaimSingleKey(ordered: seq<OrderedEntry>, key: Bytes, max: Score, limit: nat, maxScan: nat)
    returns (rows: seq<Candidate>)
    requires Sorted(ordered) && Ranked(ordered) && !HistoryKey(key) && limit > 0 && maxScan > 0
    ensures FirstOf(rows, ordered, [key], max, Least(limit, maxScan))
    ensures BestFirst(rows, ordered, [key], max)
  {
    hide Sorted, Matching, HistoryKey, MemberRank, BestFirst, FirstOf;
    var entries := ScanDue(ordered, key, max, Least(limit, maxScan));
    rows := seq(|entries|, i requires 0 <= i < |entries| => Candidate(0, entries[i]));
    SingleIsFirst(ordered, key, max, Least(limit, maxScan), rows);
    FirstIsBest(rows, ordered, [key], max, Least(limit, maxScan));
  }

  lemma SingleIsFirst(ordered: seq<OrderedEntry>, key: Bytes, max: Score, n: nat, rows: seq<Candidate>)
    requires Sorted(ordered) && Ranked(ordered) && !HistoryKey(key)
    requires var all := Due(ordered, key, max);
      |rows| == Least(n, |all|) && forall i :: 0 <= i < |rows| ==> rows[i] == Candidate(0, all[i])
    ensures FirstOf(rows, ordered, [key], max, n)
  {
    hide Sorted, Matching, HistoryKey, CandidateLess, MemberRank;
    var all, keys := Due(ordered, key, max), [key];
    forall i, j | 0 <= i < j < |all| ensures CandidateLess(Candidate(0, all[i]), Candidate(0, all[j])) {
      StreamSorted(ordered, keys, max, 0, i, j);
    }
    forall c ensures IsDue(ordered, keys, max, c) <==> c.position == 0 && c.entry in all {
      DueIsInStream(ordered, keys, max, c);
    }
    forall c | IsDue(ordered, keys, max, c) && c !in rows
      ensures |rows| == n && forall r :: r in rows ==> CandidateLess(r, c)
    {
      var j :| 0 <= j < |all| && all[j] == c.entry;
    }
  }

  /** `claim_due_candidates`. */
  method ClaimDueCandidates(ordered: seq<OrderedEntry>, keys: seq<Bytes>, max: Score, limit: nat, maxScan: nat)
    returns (rows: seq<Candidate>)
    requires Sorted(ordered) && Ranked(ordered) && PlainKeys(keys)
    ensures FirstOf(rows, ordered, keys, max, Least(limit, maxScan))
    ensures BestFirst(rows, ordered, keys, max)
  {
    hide Sorted, CandidateLess, HistoryKey, Ranked, Ahead;
    if keys == [] || limit == 0 || maxScan == 0 || ordered == [] { return []; }
    if |keys| == 1 {
      assert keys == [keys[0]];
      rows := ClaimSingleKey(ordered, keys[0], max, limit, maxScan);
      return;
    }
    rows := MergeDue(ordered, keys, max, limit, maxScan);
  }
}
