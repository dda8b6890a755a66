/** Due entries: the scans that stop at the first entry beyond the key or the score, taking
    due members out, and the earliest due score over the catalog of due keys. */
module FlowDue {
  import opened Bytes
  import opened Score
  import opened FlowOrder
  import opened FlowLookup
  import opened FlowIndex
  import opened FlowScan
  import opened FlowPaging

  /** The due entries of a key. */
  function DueWindow(key: Bytes, max: Score): Window { Window(key, NegInf, Inclusive(max)) }

  function Due(s: seq<OrderedEntry>, key: Bytes, max: Score): seq<OrderedEntry> { Matching(s, DueWindow(key, max)) }

  /** Where every scan of a key begins. */
  function Start(s: seq<OrderedEntry>, key: Bytes): seq<OrderedEntry> { From(s, NoMember(key, -INFINITY)) }

  /** Nothing before the key. */
  ghost predicate NotBefore(s: seq<OrderedEntry>, key: Bytes) {
    forall e :: e in s ==> e.key == key || LexLess(key, e.key)
  }

  lemma StartHolds(s: seq<OrderedEntry>, key: Bytes, max: Score)
    requires Sorted(s)
    ensures Sorted(Start(s, key)) && NotBefore(Start(s, key), key)
    ensures Due(Start(s, key), key, max) == Due(s, key, max)
    ensures forall e :: e in Start(s, key) <==> e in s && (e.key == key || LexLess(key, e.key))
  {
    hide Matching, From, Sorted, NoMember, Less;
    var w := DueWindow(key, max);
    var t := Start(s, key);
    FromHolds(s, NoMember(key, -INFINITY));
    forall e ensures AtMost(NoMember(key, -INFINITY), e) <==> e.key == key || LexLess(key, e.key) {
      NoMemberIsFirst(key, -INFINITY, e);
    }
    MatchingHolds(s, w);
    MatchingHolds(t, w);
    SortedUnique(Matching(t, w), Matching(s, w));
  }

  /** The first entry beyond the window ends the scan. */
  lemma ScanEnds(t: seq<OrderedEntry>, key: Bytes, max: Score)
    requires Sorted(t) && NotBefore(t, key) && t != []
    requires t[0].key != key || t[0].score > max
    ensures Due(t, key, max) == []
  {
    hide Matching, LexLess;
    MatchingHolds(t, DueWindow(key, max));
    forall e ensures e !in Due(t, key, max) {
      if e in t {
        assert t[0] in t;
        var i :| 0 <= i < |t| && t[i] == e;
        LaterIsBeyond(t[0], e, key, i == 0);
      }
    }
    Inhabited(Due(t, key, max));
  }

  lemma LaterIsBeyond(a: OrderedEntry, e: OrderedEntry, key: Bytes, same: bool)
    requires if same then a == e else Less(a, e)
    requires a.key == key || LexLess(key, a.key)
    ensures a.key != key ==> e.key != key
    ensures a.key == key && e.key == key ==> a.score <= e.score
  {
    hide LexLess;
    LexIrreflexive(key);
    if !same && a.key != key {
      if LexLess(a.key, e.key) {
        LexTransitive(key, a.key, e.key);
      }
    }
  }

  lemma DueStep(t: seq<OrderedEntry>, key: Bytes, max: Score)
    requires Sorted(t) && NotBefore(t, key) && t != []
    ensures Sorted(t[1..]) && NotBefore(t[1..], key)
    ensures t[0].key == key && t[0].score <= max ==> Due(t, key, max) == [t[0]] + Due(t[1..], key, max)
  {}

  /** The scan of `take_due` and of the single-key claim: the first `limit` due entries. */
  method ScanDue(ordered: seq<OrderedEntry>, key: Bytes, max: Score, limit: nat) returns (rows: seq<OrderedEntry>)
    requires Sorted(ordered) && limit > 0
    ensures rows == Due(ordered, key, max)[..Least(limit, |Due(ordered, key, max)|)]
  {
    hide Sorted, NotBefore, Start, Matching;
    var t := Start(ordered, key);
    StartHolds(ordered, key, max);
    rows := [];
    ghost var all := Due(ordered, key, max);
    for i := 0 to |t|
      invariant |rows| < limit
      invariant Sorted(t[i..]) && NotBefore(t[i..], key)
      invariant rows + Due(t[i..], key, max) == all
    {
      var e := t[i];
      assert t[i..][0] == e && t[i..][1..] == t[i + 1..];
      if e.key != key || e.score > max {
        ScanEnds(t[i..], key, max);
        assert rows == all;
        return;
      }
      DueStep(t[i..], key, max);
      rows := rows + [e];
      if |rows| >= limit {
        assert all[..limit] == rows;
        return;
      }
    }
    assert t[|t|..] == [];
    assert Due([], key, max) == [] by { NothingDue(key, max); }
    assert rows == all;
  }

  lemma NothingDue(key: Bytes, max: Score)
    ensures Due([], key, max) == []
  {}

  // ---------------------------------------------------------------------
  // Taking due members
  // ---------------------------------------------------------------------

  function RemovedAll(l: Lookup, key: Bytes, rows: seq<OrderedEntry>): Lookup {
    if rows == [] then l else Removed(RemovedAll(l, key, rows[..|rows| - 1]), key, rows[|rows| - 1].member)
  }

  function MembersOf(rows: seq<OrderedEntry>): set<Bytes> { set e | e in rows :: e.member }

  lemma {:induction false} RemovedAllHolds(l: Lookup, key: Bytes, rows: seq<OrderedEntry>)
    requires Tidy(l)
    ensures Tidy(RemovedAll(l, key, rows))
    ensures forall k ::
      Members(RemovedAll(l, key, rows), k) == if k == key then Members(l, key) - MembersOf(rows) else Members(l, k)
    decreases |rows|
  {
    hide Removed, Members, Tidy;
    if rows == [] {
      assert Members(l, key) - MembersOf(rows) == Members(l, key);
    } else {
      var n := |rows| - 1;
      RemovedAllHolds(l, key, rows[..n]);
      RemovedHolds(RemovedAll(l, key, rows[..n]), key, rows[n].member);
      assert rows == rows[..n] + [rows[n]];
      assert MembersOf(rows) == MembersOf(rows[..n]) + {rows[n].member};
      assert Members(l, key) - MembersOf(rows[..n]) - {rows[n].member} == Members(l, key) - MembersOf(rows);
    }
  }

  /** What is left due after the first `n` due members are gone. */
  lemma RestIsDue(ordered: seq<OrderedEntry>, l: Lookup, ordered': seq<OrderedEntry>, key: Bytes, max: Score, n: nat)
    requires Tidy(l) && Image(ordered, l) && n <= |Due(ordered, key, max)|
    requires Image(ordered', RemovedAll(l, key, Due(ordered, key, max)[..n]))
    ensures Due(ordered', key, max) == Due(ordered, key, max)[n..]
  {
    hide Matching, RemovedAll, Members, Sorted, MemberRank;
    var all, w := Due(ordered, key, max), DueWindow(key, max);
    var gone := all[..n];
    MatchingHolds(ordered, w);
    MatchingHolds(ordered', w);
    RemovedAllHolds(l, key, gone);
    assert all == gone + all[n..];
    SplitSorted(all, n);
    forall e ensures e in Due(ordered', key, max) <==> e in all[n..] {
      assert e in ordered' <==> Listed(RemovedAll(l, key, gone), e);
      assert e in ordered <==> Listed(l, e);
      if e in all {
        SameMember(ordered, l, all, n, e, key);
      }
    }
    SortedUnique(Due(ordered', key, max), all[n..]);
  }

  lemma SplitSorted(all: seq<OrderedEntry>, n: nat)
    requires Sorted(all) && n <= |all|
    ensures Sorted(all[n..]) && forall e :: e in all ==> (e in all[n..] <==> e !in all[..n])
  {
    hide Less;
    forall i, j | 0 <= i < n <= j < |all| ensures all[i] != all[j] {
      LessIrreflexive(all[i]);
    }
  }

  /** A listed entry is gone exactly when its member is among the removed. */
  lemma SameMember(ordered: seq<OrderedEntry>, l: Lookup, all: seq<OrderedEntry>, n: nat, e: OrderedEntry, key: Bytes)
    requires Image(ordered, l) && n <= |all| && e in all
    requires forall x :: x in all ==> x in ordered && x.key == key
    ensures e.member in MembersOf(all[..n]) <==> e in all[..n]
  {}

  /** `take_due`: the first due members leave the index, and what was due after them is
      what is due now. */
  method TakeDue(index: FlowOrderedIndex, key: Bytes, max: Score, count: nat) returns (rows: seq<OrderedEntry>)
    requires index.Valid() && Room(index.lookup, 1)
    modifies index
    ensures index.Valid()
    ensures var all := Due(old(index.ordered), key, max); var n := Least(count, |all|);
      && rows == all[..n]
      && index.lookup == RemovedAll(old(index.lookup), key, rows)
      && Due(index.ordered, key, max) == all[n..]
  {
    hide Image, Catalogued, Balanced, Room, Matching, Removed;
    ghost var before, l := index.ordered, index.lookup;
    SortedImage(before, l);
    if count == 0 {
      assert Due(before, key, max)[..0] == [];
      return [];
    }
    rows := ScanDue(index.ordered, key, max, count);
    for i := 0 to |rows|
      invariant index.Valid() && Room(index.lookup, 1)
      invariant index.lookup == RemovedAll(l, key, rows[..i])
    {
      RemovedRoom(index.lookup, key, rows[i].member, 1);
      assert rows[..i + 1][..i] == rows[..i];
      var removed := index.Delete(key, rows[i].member);
    }
    assert rows[..|rows|] == rows;
    RestIsDue(before, l, index.ordered, key, max, |rows|);
  }

  // ---------------------------------------------------------------------
  // The earliest due score
  // ---------------------------------------------------------------------

  predicate MatchesPrefix(key: Bytes, patterns: seq<Bytes>) {
    patterns == [] || exists i :: 0 <= i < |patterns| && StartsWith(key, patterns[i])
  }

  predicate MatchesNeedle(key: Bytes, patterns: seq<Bytes>) {
    patterns == [] || exists i :: 0 <= i < |patterns| && Contains(key, patterns[i])
  }

  predicate MatchesSuffix(key: Bytes, patterns: seq<Bytes>) {
    patterns == [] || exists i :: 0 <= i < |patterns| && EndsWith(key, patterns[i])
  }

  datatype Query = Query(prefixes: seq<Bytes>, needles: seq<Bytes>, suffixes: seq<Bytes>) {
    predicate Wants(key: Bytes) {
      MatchesPrefix(key, prefixes) && MatchesNeedle(key, needles) && MatchesSuffix(key, suffixes)
    }
  }

  /** `first_score_for_key`: the least score of the key's members, if it has any. */
  method FirstScoreForKey(ordered: seq<OrderedEntry>, key: Bytes) returns (r: Option<Score>)
    requires Sorted(ordered)
    ensures r.None? <==> forall e :: e in ordered ==> e.key != key
    ensures r.Some? ==> exists e :: e in ordered && e.key == key && e.score == r.value
    ensures r.Some? ==> forall e :: e in ordered && e.key == key ==> r.value <= e.score
  {
    hide Start, Matching, Less;
    StartHolds(ordered, key, INFINITY);
    var t := Start(ordered, key);
    if t == [] || t[0].key != key {
      HeadOfKey(t, key);
      return None;
    }
    assert t[0] in t;
    HeadOfKey(t, key);
    return Some(t[0].score);
  }

  lemma HeadOfKey(t: seq<OrderedEntry>, key: Bytes)
    requires Sorted(t) && NotBefore(t, key)
    ensures t != [] && t[0].key != key ==> forall e :: e in t ==> e.key != key
    ensures t != [] && t[0].key == key ==> forall e :: e in t && e.key == key ==> t[0].score <= e.score
  {
    hide Less, LexLess;
    if t != [] {
      assert t[0] in t;
      forall e | e in t
        ensures t[0].key != key ==> e.key != key
        ensures t[0].key == key && e.key == key ==> t[0].score <= e.score
      {
        var i :| 0 <= i < |t| && t[i] == e;
        LaterIsBeyond(t[0], e, key, i == 0);
      }
    }
  }

  /** An entry of the plain scan: a due key the query wants. */
  ghost predicate Candidate(e: OrderedEntry, q: Query) { DueKey(e.key) && q.Wants(e.key) }

  /** `earliest_due_score_matching`: walking only the catalog of due keys finds the minimum of
      a scan of every entry. */
  method EarliestDueScoreMatching(index: FlowOrderedIndex, q: Query) returns (earliest: Option<Score>)
    requires index.Valid()
    ensures earliest.None? <==> forall e :: e in index.ordered ==> !Candidate(e, q)
    ensures earliest.Some? ==> exists e :: e in index.ordered && Candidate(e, q) && e.score == earliest.value
    ensures earliest.Some? ==> forall e :: e in index.ordered && Candidate(e, q) ==> earliest.value <= e.score
  {
    hide DueKey, Query.Wants, Sorted;
    assert Sorted(index.ordered) by { SortedImage(index.ordered, index.lookup); }
    forall e | e in index.ordered && DueKey(e.key) ensures e.key in index.positiveDue {
      assert Listed(index.lookup, e);
      HasMembers(index.counts, index.lookup, e.key, e.member);
    }
    earliest := None;
    var left := index.positiveDue;
    while left != {}
      invariant left <= index.positiveDue
      invariant earliest.None? ==> forall e :: e in index.ordered && Candidate(e, q) ==> e.key in left
      invariant earliest.Some? ==> exists e :: e in index.ordered && Candidate(e, q) && e.score == earliest.value
      invariant earliest.Some? ==>
        forall e :: e in index.ordered && Candidate(e, q) ==> e.key in left || earliest.value <= e.score
      decreases |left|
    {
      var key :| key in left;
      left := left - {key};
      if !q.Wants(key) { continue; }
      var first := FirstScoreForKey(index.ordered, key);
      if first.None? { continue; }
      if earliest.None? || first.value < earliest.value { earliest := first; }
    }
  }

  lemma HasMembers(counts: map<Bytes, int>, l: Lookup, key: Bytes, member: Bytes)
    requires Balanced(counts, map[], l) && Has(l, key, member)
    ensures CountOf(counts, key) > 0
  {}
}
