/** The order of the Flow index: key, score, rank, member; and sorted sequences of entries,
    the model of the ordered set the index keeps. */
module FlowOrder {
  import opened Bytes
  import opened Decimals
  import opened Score

  // ---------------------------------------------------------------------
  // Keys and ranks
  // ---------------------------------------------------------------------

  predicate EndsWith(s: Bytes, suffix: Bytes) { |suffix| <= |s| && s[|s| - |suffix|..] == suffix }

  predicate Contains(s: Bytes, needle: Bytes) {
    StartsWith(s, needle) || (s != [] && Contains(s[1..], needle))
  }

  /** The first position of `b`, or the length. */
  function Find(s: Bytes, b: byte): (i: nat)
    ensures i <= |s| && b !in s[..i] && (i < |s| ==> s[i] == b)
  {
    if s == [] || s[0] == b then 0
    else
      var rest := Find(s[1..], b);
      assert s[..rest + 1] == [s[0]] + s[1..][..rest];
      rest + 1
  }

  const OPEN: Bytes := [0x66, 0x3A, 0x7B]                   // f:{
  const HISTORY: Bytes := [0x3A, 0x68, 0x3A]                // :h:
  const DUE_PREFIX: Bytes := [0x66, 0x3A, 0x7B, 0x66]       // f:{f
  const DUE: Bytes := [0x7D, 0x3A, 0x64, 0x3A]              // }:d:
  const DUE_ANY: Bytes := [0x7D, 0x3A, 0x64, 0x61, 0x3A]    // }:da:

  /** `history_index_key`: "f:{<tag>}:h:<id>" with a non-empty tag and id. */
  predicate HistoryKey(key: Bytes) {
    StartsWith(key, OPEN) &&
    var rest := key[3..];
    var end := Find(rest, 0x7D);
    0 < end < |rest| && |rest| - (end + 1) > 3 && StartsWith(rest[end + 1..], HISTORY)
  }

  /** `due_key`. */
  predicate DueKey(key: Bytes) {
    StartsWith(key, DUE_PREFIX) && (Contains(key, DUE) || Contains(key, DUE_ANY))
  }

  /** `history_event_version`: the version of "<ms>-<version>", or 0. */
  function EventVersion(member: Bytes): u64 {
    var dash := Find(member, 0x2D);
    if dash == |member| then 0
    else
      var ms, version := member[..dash], member[dash + 1..];
      if ms == [] || version == [] || !Digits(ms) || !Digits(version) || Decimal(version) > U64_MAX then 0
      else Decimal(version)
  }

  function MemberRank(key: Bytes, member: Bytes): u64 {
    if HistoryKey(key) then EventVersion(member) else 0
  }

  // ---------------------------------------------------------------------
  // Entries
  // ---------------------------------------------------------------------

  datatype OrderedEntry = OrderedEntry(key: Bytes, score: Score, rank: u64, member: Bytes)

  function Entry(key: Bytes, score: Score, member: Bytes): OrderedEntry {
    OrderedEntry(key, score, MemberRank(key, member), member)
  }

  predicate WithinLess(a: OrderedEntry, b: OrderedEntry) {
    a.score < b.score ||
    (a.score == b.score && (a.rank < b.rank || (a.rank == b.rank && LexLess(a.member, b.member))))
  }

  predicate Less(a: OrderedEntry, b: OrderedEntry) {
    LexLess(a.key, b.key) || (a.key == b.key && WithinLess(a, b))
  }

  predicate AtMost(a: OrderedEntry, b: OrderedEntry) { a == b || Less(a, b) }

  lemma LessIrreflexive(a: OrderedEntry)
    ensures !Less(a, a)
  {
    LexIrreflexive(a.key);
    LexIrreflexive(a.member);
  }

  lemma WithinTransitive(a: OrderedEntry, b: OrderedEntry, c: OrderedEntry)
    requires WithinLess(a, b) && WithinLess(b, c)
    ensures WithinLess(a, c)
  {
    hide LexLess;
    if LexLess(a.member, b.member) && LexLess(b.member, c.member) {
      LexTransitive(a.member, b.member, c.member);
    }
  }

  lemma LessTransitive(a: OrderedEntry, b: OrderedEntry, c: OrderedEntry)
    requires Less(a, b) && Less(b, c)
    ensures Less(a, c)
  {
    hide LexLess, WithinLess;
    if LexLess(a.key, b.key) {
      if LexLess(b.key, c.key) {
        LexTransitive(a.key, b.key, c.key);
      }
    } else if !LexLess(b.key, c.key) {
      WithinTransitive(a, b, c);
    }
  }

  lemma LessTotal(a: OrderedEntry, b: OrderedEntry)
    ensures Less(a, b) || a == b || Less(b, a)
    ensures !(Less(a, b) && Less(b, a))
  {
    hide LexLess;
    LexTotal(a.key, b.key);
    LexTotal(a.member, b.member);
    LexIrreflexive(a.key);
  }

  // ---------------------------------------------------------------------
  // Sorted sequences
  // ---------------------------------------------------------------------

  ghost predicate Sorted(s: seq<OrderedEntry>) {
    forall i, j :: 0 <= i < j < |s| ==> Less(s[i], s[j])
  }

  lemma SortedTail(s: seq<OrderedEntry>)
    requires Sorted(s) && s != []
    ensures Sorted(s[1..]) && forall e :: e in s[1..] ==> Less(s[0], e)
  {}

  lemma SortedCons(x: OrderedEntry, s: seq<OrderedEntry>)
    requires Sorted(s) && (s == [] || Less(x, s[0]))
    ensures Sorted([x] + s)
  {
    hide Less;
    var t := [x] + s;
    forall i, j | 0 <= i < j < |t| ensures Less(t[i], t[j]) {
      if i == 0 && j > 1 {
        LessTransitive(x, s[0], s[j - 1]);
      }
    }
  }

  /** Insertion into the ordered set; an entry that is there stays. */
  function Insert(s: seq<OrderedEntry>, e: OrderedEntry): seq<OrderedEntry> {
    if s == [] then [e]
    else if s[0] == e then s
    else if Less(e, s[0]) then [e] + s
    else [s[0]] + Insert(s[1..], e)
  }

  function Remove(s: seq<OrderedEntry>, e: OrderedEntry): seq<OrderedEntry> {
    if s == [] then []
    else if s[0] == e then s[1..]
    else [s[0]] + Remove(s[1..], e)
  }

  lemma {:induction false} InsertHolds(s: seq<OrderedEntry>, e: OrderedEntry)
    requires Sorted(s)
    ensures Sorted(Insert(s, e))
    ensures forall x :: x in Insert(s, e) <==> x in s || x == e
    ensures Insert(s, e)[0] == e || (s != [] && Insert(s, e)[0] == s[0])
    decreases |s|
  {
    hide Less;
    if s != [] && s[0] != e {
      if Less(e, s[0]) {
        SortedCons(e, s);
      } else {
        LessTotal(e, s[0]);
        SortedTail(s);
        InsertHolds(s[1..], e);
        SortedCons(s[0], Insert(s[1..], e));
        assert s == [s[0]] + s[1..];
      }
    }
  }

  lemma {:induction false} RemoveHolds(s: seq<OrderedEntry>, e: OrderedEntry)
    requires Sorted(s)
    ensures Sorted(Remove(s, e))
    ensures forall x :: x in Remove(s, e) <==> x in s && x != e
    decreases |s|
  {
    hide Less;
    if s != [] {
      SortedTail(s);
      assert s == [s[0]] + s[1..];
      if s[0] == e {
        LessIrreflexive(e);
      } else {
        RemoveHolds(s[1..], e);
        if Remove(s[1..], e) != [] {
          assert Remove(s[1..], e)[0] in s[1..];
        }
        SortedCons(s[0], Remove(s[1..], e));
      }
    }
  }

  lemma Inhabited(s: seq<OrderedEntry>)
    ensures s == [] || exists x :: x in s
  {
    if s != [] {
      assert s[0] in s;
    }
  }

  /** The elements determine the sequence. */
  lemma {:induction false} SortedUnique(a: seq<OrderedEntry>, b: seq<OrderedEntry>)
    requires Sorted(a) && Sorted(b) && forall x :: x in a <==> x in b
    ensures a == b
    decreases |a|
  {
    hide Less;
    Inhabited(b);
    if a != [] {
      assert a[0] in b;
      assert b[0] in a;
      HeadsAgree(a, b);
      SortedTail(a);
      SortedTail(b);
      TailsAgree(a, b);
      SortedUnique(a[1..], b[1..]);
      assert a == [a[0]] + a[1..] && b == [b[0]] + b[1..];
    }
  }

  lemma HeadsAgree(a: seq<OrderedEntry>, b: seq<OrderedEntry>)
    requires Sorted(a) && Sorted(b) && a != [] && b != [] && a[0] in b && b[0] in a
    ensures a[0] == b[0]
  {
    hide Less;
    var i :| 0 <= i < |b| && b[i] == a[0];
    var j :| 0 <= j < |a| && a[j] == b[0];
    LessTotal(a[0], b[0]);
  }

  lemma TailsAgree(a: seq<OrderedEntry>, b: seq<OrderedEntry>)
    requires a != [] && b != [] && a[0] == b[0] && forall x :: x in a <==> x in b
    requires forall e :: e in a[1..] ==> Less(a[0], e)
    requires forall e :: e in b[1..] ==> Less(b[0], e)
    ensures forall x :: x in a[1..] <==> x in b[1..]
  {
    hide Less;
    LessIrreflexive(a[0]);
    assert a == [a[0]] + a[1..] && b == [b[0]] + b[1..];
    forall x ensures x in a[1..] <==> x in b[1..] {
      assert x in a <==> x == a[0] || x in a[1..];
      assert x in b <==> x == b[0] || x in b[1..];
    }
  }
}
