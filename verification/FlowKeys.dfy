/** What the shapes of keys and members mean: which keys hold a flow's history and which a due
    queue, and the order a reader sees in a window. */
module FlowKeys {
  import opened Bytes
  import opened Decimals
  import opened Score
  import opened FlowOrder
  import opened FlowLookup
  import opened FlowScan

  // ---------------------------------------------------------------------
  // History keys
  // ---------------------------------------------------------------------

  /** A tag is not empty and holds no closing brace. */
  predicate IsTag(tag: Bytes) { tag != [] && Ascii("}")[0] !in tag }

  function HistoryKeyOf(tag: Bytes, id: Bytes): Bytes { Ascii("f:{") + tag + Ascii("}:h:") + id }

  lemma FirstBrace(tag: Bytes, rest: Bytes)
    requires 0x7D !in tag
    ensures Find(tag + [0x7D] + rest, 0x7D) == |tag|
  {
    var s := tag + [0x7D] + rest;
    assert s[|tag|] == 0x7D && forall i :: 0 <= i < |tag| ==> s[i] == tag[i];
  }

  /** The history keys are those of a tag and a flow id, ... */
  lemma HistoryKeysAreRanked(tag: Bytes, id: Bytes)
    requires IsTag(tag) && id != []
    ensures HistoryKey(HistoryKeyOf(tag, id))
  {
    var key := HistoryKeyOf(tag, id);
    assert key == OPEN + (tag + [0x7D] + (HISTORY + id));
    assert key[3..] == tag + [0x7D] + (HISTORY + id);
    FirstBrace(tag, HISTORY + id);
    assert key[3..][|tag| + 1..] == HISTORY + id;
  }

  /** ... and no others. */
  lemma RankedKeysAreHistory(key: Bytes) returns (tag: Bytes, id: Bytes)
    requires HistoryKey(key)
    ensures IsTag(tag) && id != [] && key == HistoryKeyOf(tag, id)
  {
    var rest := key[3..];
    var end := Find(rest, 0x7D);
    tag, id := rest[..end], rest[end + 4..];
    assert rest[end + 1..][..3] == HISTORY;
    assert rest == tag + [rest[end]] + rest[end + 1..][..3] + id;
    assert key == key[..3] + rest;
  }

  // ---------------------------------------------------------------------
  // Event ids
  // ---------------------------------------------------------------------

  function EventId(ms: nat, version: nat): Bytes { ToDecimal(ms) + Ascii("-") + ToDecimal(version) }

  predicate Numeral(s: Bytes) { s != [] && Digits(s) }

  lemma DashSplits(ms: Bytes, version: Bytes)
    requires Numeral(ms)
    ensures var m := ms + [0x2D] + version;
      Find(m, 0x2D) == |ms| && m[..|ms|] == ms && m[|ms| + 1..] == version
  {
    var m := ms + [0x2D] + version;
    assert m[|ms|] == 0x2D && forall i :: 0 <= i < |ms| ==> m[i] == ms[i];
  }

  /** The version of two numerals joined by a dash is the value of the second, if it is a u64. */
  lemma VersionOf(ms: Bytes, version: Bytes)
    requires Numeral(ms) && Numeral(version)
    ensures EventVersion(ms + Ascii("-") + version) == if Decimal(version) <= U64_MAX then Decimal(version) else 0
  {
    DashSplits(ms, version);
    assert Ascii("-") == [0x2D];
  }

  /** Any other member has version zero. */
  lemma OthersHaveNoVersion(member: Bytes)
    requires forall ms, version :: Numeral(ms) && Numeral(version) ==> member != ms + Ascii("-") + version
    ensures EventVersion(member) == 0
  {
    var dash := Find(member, 0x2D);
    if dash < |member| {
      var ms, version := member[..dash], member[dash + 1..];
      assert Ascii("-") == [0x2D] && member == ms + [0x2D] + version;
      assert !(Numeral(ms) && Numeral(version));
    }
  }

  lemma EventIdVersion(ms: nat, version: u64)
    ensures EventVersion(EventId(ms, version)) == version
  {
    hide ToDecimal, EventVersion;
    DecimalRoundTrip(ms);
    DecimalRoundTrip(version);
    VersionOf(ToDecimal(ms), ToDecimal(version));
  }

  // ---------------------------------------------------------------------
  // What a reader of a window sees
  // ---------------------------------------------------------------------

  /** `b` comes after `a`: no smaller score, and among equal scores, under a history key, no smaller
      version, and then a larger member. */
  ghost predicate Follows(a: OrderedEntry, b: OrderedEntry) {
    && a.score <= b.score
    && (a.score == b.score && HistoryKey(a.key) ==> EventVersion(a.member) <= EventVersion(b.member))
    && (a.score == b.score && (HistoryKey(a.key) ==> EventVersion(a.member) == EventVersion(b.member)) ==>
          LexLess(a.member, b.member))
  }

  ghost predicate InReadingOrder(rows: seq<OrderedEntry>) {
    forall i, j :: 0 <= i < j < |rows| ==> Follows(rows[i], rows[j])
  }

  /** Of every window of a coherent index. */
  lemma WindowIsInReadingOrder(ordered: seq<OrderedEntry>, l: Lookup, w: Window)
    requires Image(ordered, l)
    ensures InReadingOrder(Matching(ordered, w))
    ensures forall e :: e in Matching(ordered, w) <==> e in ordered && w.Admits(e)
  {
    hide HistoryKey, EventVersion, LexLess, Matching;
    MatchingHolds(ordered, w);
    var rows := Matching(ordered, w);
    forall i, j | 0 <= i < j < |rows| ensures Follows(rows[i], rows[j]) {
      assert rows[i] in rows && rows[j] in rows;
      LexIrreflexive(w.key);
    }
  }

  /** The events a flow wrote with one score are read in the order of their versions, not of their
      bytes: 1000-9 comes before 1000-10. */
  lemma HistoryIsInVersionOrder(ordered: seq<OrderedEntry>, l: Lookup, w: Window, tag: Bytes, id: Bytes,
                                i: nat, j: nat, ms: nat, versions: (u64, u64))
    requires Image(ordered, l) && IsTag(tag) && id != [] && w.key == HistoryKeyOf(tag, id)
    requires var rows := Matching(ordered, w);
      && i < |rows| && j < |rows| && rows[i].score == rows[j].score
      && rows[i].member == EventId(ms, versions.0) && rows[j].member == EventId(ms, versions.1)
    ensures i < j <==> versions.0 < versions.1
  {
    hide HistoryKey, EventVersion, LexLess, Matching, ToDecimal, HistoryKeyOf;
    HistoryKeysAreRanked(tag, id);
    EventIdVersion(ms, versions.0);
    EventIdVersion(ms, versions.1);
    WindowIsInReadingOrder(ordered, l, w);
    var rows := Matching(ordered, w);
    assert rows[i] in rows && rows[j] in rows;
    LexIrreflexive(rows[i].member);
  }

  // ---------------------------------------------------------------------
  // Due keys
  // ---------------------------------------------------------------------

  ghost predicate Occurs(needle: Bytes, s: Bytes) { exists a, b :: s == a + needle + b }

  lemma OccursLater(s: Bytes, needle: Bytes)
    requires Occurs(needle, s) && !StartsWith(s, needle)
    ensures s != [] && Occurs(needle, s[1..])
  {
    var a, b :| s == a + needle + b;
    assert a != [] by {
      assert [] + needle + b == needle + b;
    }
    assert s[1..] == a[1..] + needle + b;
  }

  lemma OccursInTail(s: Bytes, needle: Bytes)
    requires s != [] && Occurs(needle, s[1..])
    ensures Occurs(needle, s)
  {
    var a, b :| s[1..] == a + needle + b;
    assert s == ([s[0]] + a) + needle + b;
  }

  lemma {:induction false} ContainsIsOccurs(s: Bytes, needle: Bytes)
    ensures Contains(s, needle) <==> Occurs(needle, s)
    decreases |s|
  {
    hide Occurs;
    if StartsWith(s, needle) {
      OccursFirst(s, needle);
    } else {
      if s != [] {
        ContainsIsOccurs(s[1..], needle);
        if Occurs(needle, s[1..]) {
          OccursInTail(s, needle);
        }
      }
      if Occurs(needle, s) {
        OccursLater(s, needle);
      }
    }
  }

  lemma OccursFirst(s: Bytes, needle: Bytes)
    requires StartsWith(s, needle)
    ensures Occurs(needle, s)
  {
    assert s == [] + needle + s[|needle|..];
  }

  /** The due catalog covers exactly the keys that start with f:{f and hold }:d: or }:da: anywhere. */
  lemma DueKeysExactly(key: Bytes)
    ensures DueKey(key) <==>
      StartsWith(key, Ascii("f:{f")) && (Occurs(Ascii("}:d:"), key) || Occurs(Ascii("}:da:"), key))
  {
    hide Contains;
    ContainsIsOccurs(key, DUE);
    ContainsIsOccurs(key, DUE_ANY);
    assert Ascii("f:{f") == DUE_PREFIX && Ascii("}:d:") == DUE && Ascii("}:da:") == DUE_ANY;
  }

  function DueKeyOf(tag: Bytes, anyState: bool, queue: Bytes): Bytes {
    Ascii("f:{") + tag + (if anyState then Ascii("}:da:") else Ascii("}:d:")) + queue
  }

  /** A queue of a flow tag is covered, and its members keep their byte order. */
  lemma DueQueuesAreCovered(tag: Bytes, anyState: bool, queue: Bytes)
    requires IsTag(tag) && tag[0] == Ascii("f")[0]
    ensures DueKey(DueKeyOf(tag, anyState, queue)) && !HistoryKey(DueKeyOf(tag, anyState, queue))
  {
    hide DueKey, HistoryKey;
    var family := if anyState then Ascii("}:da:") else Ascii("}:d:");
    FamilyIsCovered(tag, family, queue);
    assert family[2] == 0x64;
    assert OPEN + (tag + [0x7D] + (family[1..] + queue)) == Ascii("f:{") + tag + family + queue;
    NotHistory(tag, family[1..] + queue);
  }

  lemma FamilyIsCovered(tag: Bytes, family: Bytes, queue: Bytes)
    requires tag != [] && tag[0] == Ascii("f")[0] && family in {Ascii("}:d:"), Ascii("}:da:")}
    ensures DueKey(Ascii("f:{") + tag + family + queue)
  {
    hide DueKey;
    var key := Ascii("f:{") + tag + family + queue;
    assert Occurs(family, key);
    assert key[..4] == Ascii("f:{f");
    DueKeysExactly(key);
  }

  lemma NotHistory(tag: Bytes, family: Bytes)
    requires IsTag(tag) && |family| > 1 && family[1] != Ascii("h")[0]
    ensures !HistoryKey(OPEN + (tag + [0x7D] + family))
  {
    var key := OPEN + (tag + [0x7D] + family);
    assert key[3..] == tag + [0x7D] + family;
    FirstBrace(tag, family);
    assert key[3..][|tag| + 1..] == family;
  }
}
