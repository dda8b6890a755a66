/** Bounded prefix merge: a heap of the smallest rows seen so far, fed by sorted sources with
    an early cutoff. The heap is kept as its rows in ascending order. */
module PrefixMerge {
  import opened Bytes

  datatype Row = Row(key: Bytes, source: nat, value: Bytes)

  predicate Less(a: Row, b: Row) {
    LexLess(a.key, b.key) ||
    (a.key == b.key && (a.source < b.source || (a.source == b.source && LexLess(a.value, b.value))))
  }

  predicate Leq(a: Row, b: Row) { a == b || Less(a, b) }

  lemma LeqTransitive(a: Row, b: Row, c: Row)
    requires Leq(a, b) && Leq(b, c)
    ensures Leq(a, c)
  {
    hide LexLess;
    if LexLess(a.key, b.key) && LexLess(b.key, c.key) {
      LexTransitive(a.key, b.key, c.key);
    }
    if LexLess(a.value, b.value) && LexLess(b.value, c.value) {
      LexTransitive(a.value, b.value, c.value);
    }
  }

  lemma LeqReflexive(a: Row)
    ensures Leq(a, a)
  {}

  lemma LessTotal(a: Row, b: Row)
    ensures Less(a, b) || a == b || Less(b, a)
    ensures !(Less(a, b) && Leq(b, a))
  {
    hide LexLess;
    LexTotal(a.key, b.key);
    LexTotal(a.value, b.value);
    LexIrreflexive(a.key);
    LexIrreflexive(a.value);
  }

  // ---------------------------------------------------------------------
  // Sorted rows
  // ---------------------------------------------------------------------

  ghost predicate Sorted(s: seq<Row>) {
    forall i, j :: 0 <= i < j < |s| ==> Leq(s[i], s[j])
  }

  function Insert(s: seq<Row>, x: Row): (t: seq<Row>)
    ensures |t| == |s| + 1
  {
    if s == [] || Less(x, s[0]) then [x] + s else [s[0]] + Insert(s[1..], x)
  }

  /** All rows in order. */
  function Sort(rows: seq<Row>): (s: seq<Row>)
    ensures |s| == |rows|
  {
    if rows == [] then [] else Insert(Sort(rows[..|rows| - 1]), rows[|rows| - 1])
  }

  function Cap(s: seq<Row>, n: nat): seq<Row> { if |s| <= n then s else s[..n] }

  lemma SortedParts(s: seq<Row>)
    requires Sorted(s) && s != []
    ensures Sorted(s[1..]) && forall i :: 0 <= i < |s| ==> Leq(s[0], s[i])
  {}

  lemma SortedCons(x: Row, s: seq<Row>)
    requires Sorted(s) && (s == [] || Leq(x, s[0]))
    ensures Sorted([x] + s)
  {
    hide Less;
    var t := [x] + s;
    forall i, j | 0 <= i < j < |t| ensures Leq(t[i], t[j]) {
      if i == 0 && j > 1 {
        LeqTransitive(x, s[0], s[j - 1]);
      }
    }
  }

  lemma {:induction false} InsertSorted(s: seq<Row>, x: Row)
    requires Sorted(s)
    ensures Sorted(Insert(s, x))
    ensures Insert(s, x)[0] == x || (s != [] && Insert(s, x)[0] == s[0])
    decreases |s|
  {
    hide Less;
    if s == [] || Less(x, s[0]) {
      SortedCons(x, s);
    } else {
      LessTotal(x, s[0]);
      SortedParts(s);
      InsertSorted(s[1..], x);
      SortedCons(s[0], Insert(s[1..], x));
    }
  }

  lemma {:induction false} InsertAdds(s: seq<Row>, x: Row)
    ensures multiset(Insert(s, x)) == multiset(s) + multiset{x}
    decreases |s|
  {
    hide Less;
    if s != [] && !Less(x, s[0]) {
      InsertAdds(s[1..], x);
      var rest := Insert(s[1..], x);
      assert s == [s[0]] + s[1..];
      assert multiset([s[0]] + rest) == multiset{s[0]} + multiset(rest);
    }
  }

  lemma {:induction false} SortHolds(rows: seq<Row>)
    ensures Sorted(Sort(rows)) && multiset(Sort(rows)) == multiset(rows)
    decreases |rows|
  {
    hide Less;
    if rows != [] {
      var n := |rows| - 1;
      SortHolds(rows[..n]);
      InsertSorted(Sort(rows[..n]), rows[n]);
      InsertAdds(Sort(rows[..n]), rows[n]);
      assert rows == rows[..n] + [rows[n]];
    }
  }

  /** The rows determine their sorted order. */
  lemma {:induction false} SortedUnique(a: seq<Row>, b: seq<Row>)
    requires Sorted(a) && Sorted(b) && multiset(a) == multiset(b)
    ensures a == b
    decreases |a|
  {
    hide Less;
    assert |a| == |multiset(a)| == |multiset(b)| == |b|;
    if a != [] {
      assert a[0] in multiset(b) && b[0] in multiset(a);
      HeadsAgree(a, b);
      SortedParts(a);
      SortedParts(b);
      assert a == [a[0]] + a[1..] && b == [b[0]] + b[1..];
      TailMultiset(a);
      TailMultiset(b);
      SortedUnique(a[1..], b[1..]);
    }
  }

  lemma TailMultiset(s: seq<Row>)
    requires s != []
    ensures multiset(s[1..]) == multiset(s) - multiset{s[0]}
  {
    assert s == [s[0]] + s[1..];
  }

  lemma HeadsAgree(a: seq<Row>, b: seq<Row>)
    requires Sorted(a) && Sorted(b) && a != [] && b != [] && a[0] in b && b[0] in a
    ensures a[0] == b[0]
  {
    hide Less;
    SortedParts(a);
    SortedParts(b);
    LessTotal(a[0], b[0]);
    LessTotal(b[0], a[0]);
  }

  // ---------------------------------------------------------------------
  // Keeping the smallest
  // ---------------------------------------------------------------------

  /** One row offered to a heap of at most `n` rows. */
  function Keep(s: seq<Row>, x: Row, n: nat): seq<Row> { Cap(Insert(s, x), n) }

  /** Dropping before or after an insertion keeps the same smallest rows. */
  lemma {:induction false} CapInsert(s: seq<Row>, x: Row, n: nat)
    ensures Keep(Cap(s, n), x, n) == Keep(s, x, n)
    decreases n
  {
    hide Less;
    if |s| > n > 0 {
      assert Cap(s, n) == [s[0]] + Cap(s[1..], n - 1);
      assert Cap(s, n)[1..] == Cap(s[1..], n - 1);
      if !Less(x, s[0]) {
        CapInsert(s[1..], x, n - 1);
        CapCons(s[0], Insert(s[1..], x), n);
        CapCons(s[0], Insert(Cap(s[1..], n - 1), x), n);
      } else {
        CapCons(x, s, n);
        CapCons(x, Cap(s, n), n);
        assert Cap(s, n - 1) == Cap(Cap(s, n), n - 1);
      }
    }
  }

  lemma CapCons(x: Row, s: seq<Row>, n: nat)
    requires n > 0
    ensures Cap([x] + s, n) == [x] + Cap(s, n - 1)
  {}

  /** Rows offered one after the other. */
  function KeepAll(s: seq<Row>, rows: seq<Row>, n: nat): seq<Row> {
    if rows == [] then s else Keep(KeepAll(s, rows[..|rows| - 1], n), rows[|rows| - 1], n)
  }

  /** A heap filled row by row holds exactly the smallest rows of everything offered. */
  lemma {:induction false} KeepAllIsSmallest(before: seq<Row>, rows: seq<Row>, n: nat)
    ensures KeepAll(Cap(Sort(before), n), rows, n) == Cap(Sort(before + rows), n)
    decreases |rows|
  {
    hide Less, Insert;
    if rows == [] {
      assert before + rows == before;
    } else {
      var k := |rows| - 1;
      KeepAllIsSmallest(before, rows[..k], n);
      var all := before + rows;
      assert all[..|all| - 1] == before + rows[..k];
      CapInsert(Sort(before + rows[..k]), rows[k], n);
    }
  }

  lemma {:induction false} KeepAllAppend(s: seq<Row>, a: seq<Row>, b: seq<Row>, n: nat)
    ensures KeepAll(s, a + b, n) == KeepAll(KeepAll(s, a, n), b, n)
    decreases |b|
  {
    hide Keep;
    if b == [] {
      assert a + b == a;
    } else {
      var k := |b| - 1;
      assert (a + b)[..|a + b| - 1] == a + b[..k];
      KeepAllAppend(s, a, b[..k], n);
    }
  }

  /** A row at or beyond every row of a full heap changes nothing. */
  lemma {:induction false} LoserChangesNothing(s: seq<Row>, x: Row)
    requires forall i :: 0 <= i < |s| ==> Leq(s[i], x)
    ensures Keep(s, x, |s|) == s
    decreases |s|
  {
    hide Less;
    if s != [] {
      LessTotal(x, s[0]);
      CapCons(s[0], Insert(s[1..], x), |s|);
      LoserChangesNothing(s[1..], x);
      assert s == [s[0]] + s[1..];
    }
  }

  lemma {:induction false} LosersChangeNothing(s: seq<Row>, rows: seq<Row>)
    requires forall i, j :: 0 <= i < |s| && 0 <= j < |rows| ==> Leq(s[i], rows[j])
    ensures KeepAll(s, rows, |s|) == s
    decreases |rows|
  {
    hide Less, Keep;
    if rows != [] {
      LosersChangeNothing(s, rows[..|rows| - 1]);
      LoserChangesNothing(s, rows[|rows| - 1]);
    }
  }

  /** After `k` rows up to `x`, the k-th smallest row is at most `x`. */
  lemma {:induction false} InsertRank(s: seq<Row>, x: Row, k: nat)
    requires Sorted(s) && k <= |s| && (k == 0 || Leq(s[k - 1], x))
    ensures Leq(Insert(s, x)[k], x)
    decreases |s|
  {
    hide Less;
    if s != [] {
      SortedParts(s);
      LessTotal(x, s[0]);
      if Less(x, s[0]) {
        if k > 0 {
          LeqTransitive(s[0], s[k - 1], x);
        }
      } else if k > 0 {
        InsertRank(s[1..], x, k - 1);
      }
    }
  }

  // ---------------------------------------------------------------------
  // The code
  // ---------------------------------------------------------------------

  datatype Item = Read(key: Bytes, value: Bytes) | Unreadable

  /** The rows a source delivers before its first read error. */
  function Readable(source: nat, items: seq<Item>): (rows: seq<Row>)
    ensures |rows| <= |items|
    ensures forall i :: 0 <= i < |rows| ==> items[i].Read? && rows[i] == Row(items[i].key, source, items[i].value)
    ensures |rows| < |items| ==> items[|rows|].Unreadable?
  {
    if items == [] || items[0].Unreadable? then []
    else [Row(items[0].key, source, items[0].value)] + Readable(source, items[1..])
  }

  /** A source is sorted by key, then value. */
  ghost predicate SourceSorted(items: seq<Item>) {
    forall i, j :: 0 <= i < j < |items| && items[i].Read? && items[j].Read? ==>
      LexLess(items[i].key, items[j].key) || (items[i].key == items[j].key && LexLeq(items[i].value, items[j].value))
  }

  lemma ReadableSorted(source: nat, items: seq<Item>)
    requires SourceSorted(items)
    ensures Sorted(Readable(source, items))
  {}

  lemma StrictlyGreaterKey(a: Row, b: Row, c: Row)
    requires Leq(a, b) && LexLess(b.key, c.key)
    ensures Leq(a, c)
  {
    hide LexLess;
    assert Leq(b, c);
    LeqTransitive(a, b, c);
  }

  /** One row against a full heap: only a row below the largest gets in. */
  lemma KeepFull(s: seq<Row>, x: Row, n: nat)
    requires Sorted(s) && |s| == n > 0
    ensures Less(x, s[n - 1]) ==> Keep(s, x, n) == Insert(s[..n - 1], x)
    ensures !Less(x, s[n - 1]) ==> Keep(s, x, n) == s
  {
    hide Less, Insert;
    var largest := s[n - 1];
    LessTotal(x, largest);
    if Less(x, largest) {
      InsertBelowLast(s, x);
    } else {
      forall i | 0 <= i < n ensures Leq(s[i], x) {
        if i < n - 1 {
          LeqTransitive(s[i], largest, x);
        }
      }
      LoserChangesNothing(s, x);
    }
  }

  lemma {:induction false} InsertBelowLast(s: seq<Row>, x: Row)
    requires s != [] && Less(x, s[|s| - 1])
    ensures Insert(s, x)[..|s|] == Insert(s[..|s| - 1], x)
    decreases |s|
  {
    hide Less;
    if |s| > 1 && !Less(x, s[0]) {
      InsertBelowLast(s[1..], x);
      assert s[..|s| - 1][1..] == s[1..][..|s| - 2];
    }
  }

  /** `scan_source`: unless a read fails, the heap holds the smallest rows of what it held and
      all the source's rows, although the scan may stop early. */
  method ScanSource(selected: seq<Row>, source: nat, cap: nat, items: seq<Item>)
    returns (r: Result<nat>, next: seq<Row>)
    requires Sorted(selected) && |selected| <= cap && SourceSorted(items)
    ensures r.Ok? ==> next == KeepAll(selected, Readable(source, items), cap)
    ensures r.Ok? ==> Sorted(next) && |next| <= cap && r.value <= |Readable(source, items)|
    ensures r.Err? ==> |Readable(source, items)| < |items| && |Readable(source, items)| < cap
  {
    hide Sorted, Less, Leq, LexLess, Keep, KeepAll, Insert, SourceSorted, Readable;
    next := selected;
    ghost var rows := Readable(source, items);
    ReadableSorted(source, items);
    NothingKept(selected, rows, cap);
    if cap == 0 { return Ok(0), next; }
    var scanned := 0;
    for i := 0 to if |items| < cap then |items| else cap
      invariant scanned == i <= |rows|
      invariant Sorted(next) && |next| <= cap
      invariant next == KeepAll(selected, rows[..i], cap)
      invariant i <= |next| && (i > 0 ==> Leq(next[i - 1], rows[i - 1]))
    {
      if items[i].Unreadable? { return Err, next; }
      scanned := scanned + 1;
      var candidate := Row(items[i].key, source, items[i].value);
      assert i < |rows| && rows[i] == candidate;
      KeepNext(selected, rows, i, cap);
      RankGrows(next, rows, i, cap);
      if |next| < cap {
        KeepRoom(next, candidate, cap);
        next := Insert(next, candidate);
        continue;
      }
      KeepFull(next, candidate, cap);
      var largest := next[|next| - 1];
      if LexLess(largest.key, items[i].key) {
        RestLoses(next, rows, i);
        AllKept(selected, rows, i, cap);
        return Ok(scanned), next;
      }
      if Less(candidate, largest) {
        next := Insert(next[..|next| - 1], candidate);
      }
    }
    ghost var k := if |items| < cap then |items| else cap;
    if k == cap {
      TakenIsEnough(next, rows, cap);
      AllKept(selected, rows, cap, cap);
    } else {
      assert rows[..k] == rows;
    }
    return Ok(scanned), next;
  }

  lemma NothingKept(s: seq<Row>, rows: seq<Row>, n: nat)
    ensures KeepAll(s, rows[..0], n) == s
    ensures n == 0 && s == [] ==> KeepAll(s, rows, n) == s
  {}

  lemma KeepNext(s: seq<Row>, rows: seq<Row>, i: nat, n: nat)
    requires i < |rows|
    ensures KeepAll(s, rows[..i + 1], n) == Keep(KeepAll(s, rows[..i], n), rows[i], n)
  {
    hide Keep;
    assert rows[..i + 1][..i] == rows[..i];
  }

  lemma RankGrows(s: seq<Row>, rows: seq<Row>, i: nat, cap: nat)
    requires Sorted(s) && |s| <= cap && i < |rows| && i <= |s| && i < cap && Sorted(rows)
    requires i > 0 ==> Leq(s[i - 1], rows[i - 1])
    ensures var t := Keep(s, rows[i], cap);
      Sorted(t) && |t| <= cap && i + 1 <= |t| && Leq(t[i], rows[i])
  {
    hide Less;
    InsertSorted(s, rows[i]);
    if i > 0 {
      LeqTransitive(s[i - 1], rows[i - 1], rows[i]);
    }
    InsertRank(s, rows[i], i);
    hide Insert;
  }

  lemma KeepRoom(s: seq<Row>, x: Row, n: nat)
    requires |s| < n
    ensures Keep(s, x, n) == Insert(s, x)
  {}

  /** Beyond a key above the largest, every later row of the source loses. */
  lemma RestLoses(s: seq<Row>, rows: seq<Row>, i: nat)
    requires Sorted(s) && s != [] && Sorted(rows) && i < |rows| && LexLess(s[|s| - 1].key, rows[i].key)
    ensures KeepAll(s, rows[i..], |s|) == s
  {
    hide Less, Leq, LexLess, KeepAll;
    forall k, j | 0 <= k < |s| && 0 <= j < |rows[i..]| ensures Leq(s[k], rows[i..][j]) {
      LeqReflexive(s[k]);
      StrictlyGreaterKey(s[k], s[|s| - 1], rows[i]);
      if j > 0 {
        LeqTransitive(s[k], rows[i], rows[i + j]);
      }
    }
    LosersChangeNothing(s, rows[i..]);
  }

  /** After `cap` rows of a source, its later rows lose. */
  lemma TakenIsEnough(s: seq<Row>, rows: seq<Row>, cap: nat)
    requires Sorted(s) && |s| == cap > 0 && Sorted(rows) && cap <= |rows| && Leq(s[cap - 1], rows[cap - 1])
    ensures KeepAll(s, rows[cap..], cap) == s
  {
    hide Less, KeepAll;
    forall k, j | 0 <= k < |s| && 0 <= j < |rows[cap..]| ensures Leq(s[k], rows[cap..][j]) {
      if k < cap - 1 {
        LeqTransitive(s[k], s[cap - 1], rows[cap - 1]);
      }
      LeqTransitive(s[k], rows[cap - 1], rows[cap + j]);
    }
    LosersChangeNothing(s, rows[cap..]);
  }

  lemma AllKept(s: seq<Row>, rows: seq<Row>, i: nat, n: nat)
    requires i <= |rows|
    requires KeepAll(KeepAll(s, rows[..i], n), rows[i..], n) == KeepAll(s, rows[..i], n)
    ensures KeepAll(s, rows, n) == KeepAll(s, rows[..i], n)
  {
    hide KeepAll;
    KeepAllAppend(s, rows[..i], rows[i..], n);
    assert rows[..i] + rows[i..] == rows;
  }

  // ---------------------------------------------------------------------
  // Many sources
  // ---------------------------------------------------------------------

  /** Sources scanned one after the other into an empty heap. */
  function ScanAll(sources: seq<seq<Row>>, cap: nat): seq<Row> {
    if sources == [] then []
    else KeepAll(ScanAll(sources[..|sources| - 1], cap), sources[|sources| - 1], cap)
  }

  function Union(sources: seq<seq<Row>>): seq<Row> {
    if sources == [] then [] else Union(sources[..|sources| - 1]) + sources[|sources| - 1]
  }

  /** The heap ends with exactly the `cap` smallest rows of the union. */
  lemma {:induction false} SmallestOfUnion(sources: seq<seq<Row>>, cap: nat)
    ensures ScanAll(sources, cap) == Cap(Sort(Union(sources)), cap)
    decreases |sources|
  {
    hide KeepAll, Sort;
    if sources == [] {
      assert Sort([]) == [];
    } else {
      var n := |sources| - 1;
      SmallestOfUnion(sources[..n], cap);
      KeepAllIsSmallest(Union(sources[..n]), sources[n], cap);
    }
  }

  /** `a` is not behind `b`: not by key, among equal keys not by source, and then not by value. */
  ghost predicate Ahead(a: Row, b: Row) {
    && LexLeq(a.key, b.key)
    && (a.key == b.key ==> a.source <= b.source)
    && (a.key == b.key && a.source == b.source ==> LexLeq(a.value, b.value))
  }

  lemma LeqIsAhead(a: Row, b: Row)
    requires Leq(a, b)
    ensures Ahead(a, b)
  {
    hide LexLess;
    LexIrreflexive(a.key);
    LexIrreflexive(a.value);
  }

  /** The union splits into what is kept, `cap` rows if there are that many, in order, and what is
      left out, none of it ahead of a row that is kept. */
  lemma KeepsTheFirst(sources: seq<seq<Row>>, cap: nat) returns (left: seq<Row>)
    ensures var kept := ScanAll(sources, cap);
      && multiset(kept) + multiset(left) == multiset(Union(sources))
      && |kept| == Least(cap, |Union(sources)|)
      && (forall i, j :: 0 <= i < j < |kept| ==> Ahead(kept[i], kept[j]))
      && (forall i, j :: 0 <= i < |kept| && 0 <= j < |left| ==> Ahead(kept[i], left[j]))
  {
    hide ScanAll, Sort, Union, Ahead, Leq;
    SmallestOfUnion(sources, cap);
    var all := Sort(Union(sources));
    SortHolds(Union(sources));
    var n := Least(cap, |all|);
    left := all[n..];
    assert all == all[..n] + all[n..];
    forall i, j | 0 <= i < j < |all| ensures Ahead(all[i], all[j]) {
      LeqIsAhead(all[i], all[j]);
    }
  }

  /** Hence the order in which sources are scanned does not matter. */
  lemma ScanOrderIsIrrelevant(a: seq<seq<Row>>, b: seq<seq<Row>>, cap: nat)
    requires multiset(Union(a)) == multiset(Union(b))
    ensures ScanAll(a, cap) == ScanAll(b, cap)
  {
    hide ScanAll, Sort, Union, Sorted;
    SmallestOfUnion(a, cap);
    SmallestOfUnion(b, cap);
    SortHolds(Union(a));
    SortHolds(Union(b));
    SortedUnique(Sort(Union(a)), Sort(Union(b)));
  }

  // ---------------------------------------------------------------------
  // The byte cap
  // ---------------------------------------------------------------------

  function TotalBytes(rows: seq<Row>): nat {
    if rows == [] then 0
    else TotalBytes(rows[..|rows| - 1]) + |rows[|rows| - 1].key| + |rows[|rows| - 1].value|
  }

  lemma {:induction false} TotalGrows(rows: seq<Row>, i: nat)
    requires i <= |rows|
    ensures TotalBytes(rows[..i]) <= TotalBytes(rows)
    decreases |rows|
  {
    if i < |rows| {
      TotalGrows(rows[..|rows| - 1], i);
      assert rows[..|rows| - 1][..i] == rows[..i];
    } else {
      assert rows[..i] == rows;
    }
  }

  /** `within_byte_cap`: the checked sum decides the real total. */
  method WithinByteCap(rows: seq<Row>, byteCap: u64) returns (within: bool)
    ensures within <==> TotalBytes(rows) <= byteCap
  {
    var bytes: nat := 0;
    for i := 0 to |rows|
      invariant bytes == TotalBytes(rows[..i]) <= U64_MAX
    {
      assert rows[..i + 1][..i] == rows[..i];
      TotalGrows(rows, i + 1);
      if bytes + |rows[i].key| > U64_MAX { return false; }
      bytes := bytes + |rows[i].key|;
      if bytes + |rows[i].value| > U64_MAX { return false; }
      bytes := bytes + |rows[i].value|;
    }
    assert rows[..|rows|] == rows;
    return bytes <= byteCap;
  }
}
