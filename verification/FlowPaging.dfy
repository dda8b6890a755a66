/** Slices of a score window and cursor paging, forward and in reverse. */
module FlowPaging {
  import opened Bytes
  import opened Score
  import opened FlowOrder
  import opened FlowScan

  datatype Row = Row(member: Bytes, score: Score)

  function Rows(s: seq<OrderedEntry>): (r: seq<Row>)
    ensures |r| == |s|
  {
    seq(|s|, i requires 0 <= i < |s| => Row(s[i].member, s[i].score))
  }

  function Reversed(s: seq<OrderedEntry>): (r: seq<OrderedEntry>)
    ensures |r| == |s|
  {
    seq(|s|, i requires 0 <= i < |s| => s[|s| - 1 - i])
  }

  /** What skipping `offset` and taking `count` leaves. */
  function Slice(s: seq<OrderedEntry>, offset: nat, count: nat): seq<OrderedEntry> {
    s[Least(offset, |s|)..Least(offset + count, |s|)]
  }

  // ---------------------------------------------------------------------
  // The code
  // ---------------------------------------------------------------------

  /** The loop all three range functions share. */
  method Collect(entries: seq<OrderedEntry>, offset: nat, count: nat) returns (rows: seq<Row>)
    ensures rows == Rows(Slice(entries, offset, count))
  {
    rows := [];
    var skipped := 0;
    for i := 0 to |entries|
      invariant skipped == Least(offset, i)
      invariant rows == Rows(Slice(entries[..i], offset, count))
    {
      if skipped < offset {
        assert Slice(entries[..i + 1], offset, count) == [];
        skipped := skipped + 1;
        continue;
      }
      if |rows| >= count {
        assert entries[offset..offset + count] == entries[..i][offset..offset + count];
        return rows;
      }
      assert entries[..i + 1][offset..i + 1] == entries[..i][offset..i] + [entries[i]];
      rows := rows + [Row(entries[i].member, entries[i].score)];
    }
    assert entries[..|entries|] == entries;
  }

  predicate CanMatch(w: Window) { !w.min.PosInf? && !w.min.Impossible? && !w.max.NegInf? && !w.max.Impossible? }

  lemma NoMatches(s: seq<OrderedEntry>, w: Window)
    requires Sorted(s) && !CanMatch(w)
    ensures Matching(s, w) == []
  {}

  /** `range_slice`. */
  method RangeSlice(ordered: seq<OrderedEntry>, w: Window, reverse: bool, offset: nat, count: nat)
    returns (rows: seq<Row>)
    requires Sorted(ordered)
    ensures var all := Matching(ordered, w);
      rows == Rows(Slice(if reverse then Reversed(all) else all, offset, count))
  {
    hide Matching, From, Before, Sorted;
    if !CanMatch(w) {
      NoMatches(ordered, w);
      return [];
    }
    if count == 0 { return []; }
    var bounds := RangeBounds(w);
    RangeIsScan(ordered, w);
    if bounds.None? { return []; }
    var range := Before(From(ordered, bounds.value.0), bounds.value.1);
    rows := Collect(if reverse then Reversed(range) else range, offset, count);
  }

  lemma AfterInWindow(ordered: seq<OrderedEntry>, w: Window, cursor: OrderedEntry)
    requires Sorted(ordered) && RangeBounds(w).Some?
    ensures var (lower, upper) := RangeBounds(w).value;
      if !Less(cursor, upper) then After(Matching(ordered, w), cursor) == []
      else After(Matching(ordered, w), cursor)
           == Before(if Less(cursor, lower) then From(ordered, lower) else After(ordered, cursor), upper)
  {
    hide Less, Before, From, After, Matching, RangeBounds;
    var (lower, upper) := RangeBounds(w).value;
    var all := Matching(ordered, w);
    RangeIsScan(ordered, w);
    MatchingHolds(ordered, w);
    FromHolds(ordered, lower);
    BeforeHolds(From(ordered, lower), upper);
    AfterHolds(all, cursor);
    if !Less(cursor, upper) {
      forall e ensures e !in After(all, cursor) {
        if e in all && Less(cursor, e) {
          LessTransitive(cursor, e, upper);
        }
      }
      Inhabited(After(all, cursor));
    } else if Less(cursor, lower) {
      forall e | e in all ensures Less(cursor, e) {
        assert AtMost(lower, e);
        if lower != e {
          LessTransitive(cursor, lower, e);
        }
      }
      SortedUnique(After(all, cursor), Before(From(ordered, lower), upper));
    } else {
      AfterHolds(ordered, cursor);
      BeforeHolds(After(ordered, cursor), upper);
      LessTotal(cursor, lower);
      forall e | Less(cursor, e) ensures AtMost(lower, e) {
        if cursor != lower {
          LessTransitive(lower, cursor, e);
        }
      }
      SortedUnique(After(all, cursor), Before(After(ordered, cursor), upper));
    }
  }

  /** `range_forward_after`. */
  method RangeForwardAfter(ordered: seq<OrderedEntry>, w: Window, cursor: Row, offset: nat, count: nat)
    returns (rows: seq<Row>)
    requires Sorted(ordered)
    ensures rows == Rows(Slice(After(Matching(ordered, w), Entry(w.key, cursor.score, cursor.member)), offset, count))
  {
    hide Matching, From, Before, After, Sorted, Less, RangeBounds;
    var from := Entry(w.key, cursor.score, cursor.member);
    if !CanMatch(w) {
      NoMatches(ordered, w);
      NoneAfter(from);
      return [];
    }
    if count == 0 { return []; }
    var bounds := RangeBounds(w);
    if bounds.None? {
      RangeIsScan(ordered, w);
      NoneAfter(from);
      return [];
    }
    var (lower, upper) := bounds.value;
    AfterInWindow(ordered, w, from);
    if !Less(from, upper) { return []; }
    var range := Before(if Less(from, lower) then From(ordered, lower) else After(ordered, from), upper);
    rows := Collect(range, offset, count);
  }

  lemma NoneAfter(cursor: OrderedEntry)
    ensures After([], cursor) == [] && Before([], cursor) == []
  {}

  lemma BeforeInWindow(ordered: seq<OrderedEntry>, w: Window, cursor: OrderedEntry)
    requires Sorted(ordered) && RangeBounds(w).Some?
    ensures var (lower, upper) := RangeBounds(w).value;
      var end := if Less(upper, cursor) then upper else cursor;
      if !Less(lower, end) then Before(Matching(ordered, w), cursor) == []
      else Before(Matching(ordered, w), cursor) == Before(From(ordered, lower), end)
  {
    hide Less, Before, From, Matching, RangeBounds;
    var (lower, upper) := RangeBounds(w).value;
    var end := if Less(upper, cursor) then upper else cursor;
    var all := Matching(ordered, w);
    RangeIsScan(ordered, w);
    MatchingHolds(ordered, w);
    FromHolds(ordered, lower);
    BeforeHolds(From(ordered, lower), upper);
    BeforeHolds(From(ordered, lower), end);
    BeforeHolds(all, cursor);
    forall e ensures Less(e, end) <==> Less(e, upper) && Less(e, cursor) {
      EndIsLeast(e, upper, cursor);
    }
    SortedUnique(Before(all, cursor), Before(From(ordered, lower), end));
    if !Less(lower, end) {
      forall e ensures e !in Before(From(ordered, lower), end) {
        NothingBetween(lower, end, e);
      }
      Inhabited(Before(From(ordered, lower), end));
    }
  }

  lemma EndIsLeast(e: OrderedEntry, upper: OrderedEntry, cursor: OrderedEntry)
    ensures Less(e, if Less(upper, cursor) then upper else cursor) <==> Less(e, upper) && Less(e, cursor)
  {
    hide Less;
    LessTotal(upper, cursor);
    if Less(upper, cursor) {
      if Less(e, upper) {
        LessTransitive(e, upper, cursor);
      }
    } else if Less(e, cursor) && upper != cursor {
      LessTransitive(e, cursor, upper);
    }
  }

  /** `range_reverse_before`. */
  method RangeReverseBefore(ordered: seq<OrderedEntry>, w: Window, cursor: Row, offset: nat, count: nat)
    returns (rows: seq<Row>)
    requires Sorted(ordered)
    ensures rows
         == Rows(Slice(Reversed(Before(Matching(ordered, w), Entry(w.key, cursor.score, cursor.member))), offset, count))
  {
    hide Matching, From, Before, Sorted, Less, RangeBounds;
    var to := Entry(w.key, cursor.score, cursor.member);
    if !CanMatch(w) {
      NoMatches(ordered, w);
      NoneAfter(to);
      return [];
    }
    if count == 0 { return []; }
    var bounds := RangeBounds(w);
    if bounds.None? {
      RangeIsScan(ordered, w);
      NoneAfter(to);
      return [];
    }
    var (lower, upper) := bounds.value;
    BeforeInWindow(ordered, w, to);
    var end := if Less(upper, to) then upper else to;
    if !Less(lower, end) { return []; }
    rows := Collect(Reversed(Before(From(ordered, lower), end)), offset, count);
  }

  // ---------------------------------------------------------------------
  // Paging
  // ---------------------------------------------------------------------

  /** One page: the first rows of the window, or the rows next to the cursor. */
  function Page(ordered: seq<OrderedEntry>, w: Window, reverse: bool, cursor: Option<Row>, size: nat): seq<Row> {
    var all := Matching(ordered, w);
    match cursor
    case None => Rows(Slice(if reverse then Reversed(all) else all, 0, size))
    case Some(row) =>
      var at := Entry(w.key, row.score, row.member);
      Rows(Slice(if reverse then Reversed(Before(all, at)) else After(all, at), 0, size))
  }

  /** Chained pages: each continues at the last row of the one before. */
  function Pages(ordered: seq<OrderedEntry>, w: Window, reverse: bool, cursor: Option<Row>, sizes: seq<nat>): seq<Row>
    decreases |sizes|
  {
    if sizes == [] then []
    else
      var page := Page(ordered, w, reverse, cursor, sizes[0]);
      var next := if page == [] then cursor else Some(page[|page| - 1]);
      page + Pages(ordered, w, reverse, next, sizes[1..])
  }

  function Sum(sizes: seq<nat>): nat { if sizes == [] then 0 else sizes[0] + Sum(sizes[1..]) }

  ghost predicate Ranked(s: seq<OrderedEntry>) {
    forall i :: 0 <= i < |s| ==> s[i].rank == MemberRank(s[i].key, s[i].member)
  }

  lemma {:induction false} AfterAt(s: seq<OrderedEntry>, i: nat)
    requires Sorted(s) && i < |s|
    ensures After(s, s[i]) == s[i + 1..]
    decreases |s|
  {
    hide Less;
    SortedTail(s);
    if i > 0 {
      AfterAt(s[1..], i - 1);
      assert Less(s[0], s[i]);
    } else if |s| > 1 {
      LessTotal(s[0], s[1]);
      LessIrreflexive(s[0]);
      assert Less(s[0], s[1]);
      assert After(s[1..], s[0]) == s[1..];
    }
  }

  lemma {:induction false} BeforeAt(s: seq<OrderedEntry>, i: nat)
    requires Sorted(s) && i < |s|
    ensures Before(s, s[i]) == s[..i]
    decreases |s|
  {
    hide Less;
    SortedTail(s);
    if i > 0 {
      BeforeAt(s[1..], i - 1);
      assert Less(s[0], s[i]);
      assert s[..i] == [s[0]] + s[1..][..i - 1];
    } else {
      LessIrreflexive(s[0]);
    }
  }

  /** The window in the direction of travel. */
  function Toward(all: seq<OrderedEntry>, reverse: bool): (t: seq<OrderedEntry>)
    ensures |t| == |all|
  {
    if reverse then Reversed(all) else all
  }

  /** The cursor stands right before position `i` of the travel. */
  ghost predicate StandsAt(all: seq<OrderedEntry>, reverse: bool, cursor: Option<Row>, i: nat) {
    && i <= |all|
    && match cursor
       case None => i == 0
       case Some(row) => i > 0 && row == Rows(Toward(all, reverse))[i - 1]
  }

  lemma PageContinues(ordered: seq<OrderedEntry>, w: Window, reverse: bool, cursor: Option<Row>, i: nat, size: nat)
    requires Sorted(ordered) && Ranked(ordered) && StandsAt(Matching(ordered, w), reverse, cursor, i)
    ensures var t := Toward(Matching(ordered, w), reverse);
      Page(ordered, w, reverse, cursor, size) == Rows(t)[i..Least(i + size, |t|)]
  {
    hide Less, Matching, After, Before, Sorted, MemberRank;
    MatchingHolds(ordered, w);
    var all := Matching(ordered, w);
    var t := Toward(all, reverse);
    if cursor.Some? {
      var k := if reverse then |all| - i else i - 1;
      assert t[i - 1] == all[k];
      InWindow(ordered, w, k);
      assert Entry(w.key, cursor.value.score, cursor.value.member) == all[k];
      if reverse {
        BeforeAt(all, k);
        assert Reversed(all[..k]) == t[i..];
      } else {
        AfterAt(all, k);
      }
      assert Rows(Slice(t[i..], 0, size)) == Rows(t)[i..Least(i + size, |t|)];
    } else {
      assert Rows(Slice(t, 0, size)) == Rows(t)[0..Least(size, |t|)];
    }
  }

  lemma InWindow(ordered: seq<OrderedEntry>, w: Window, k: nat)
    requires Sorted(ordered) && Ranked(ordered) && k < |Matching(ordered, w)|
    ensures var e := Matching(ordered, w)[k]; e == Entry(w.key, e.score, e.member)
  {
    hide Less, Matching, Sorted, MemberRank;
    MatchingHolds(ordered, w);
    var e := Matching(ordered, w)[k];
    assert e in Matching(ordered, w);
    var i :| 0 <= i < |ordered| && ordered[i] == e;
  }

  lemma StandsWithin(all: seq<OrderedEntry>, reverse: bool, cursor: Option<Row>, i: nat)
    requires StandsAt(all, reverse, cursor, i)
    ensures i <= |all|
  {}

  /** The last row of a page is where the next one stands. */
  lemma NextStands(all: seq<OrderedEntry>, reverse: bool, cursor: Option<Row>, i: nat, size: nat, page: seq<Row>)
    requires StandsAt(all, reverse, cursor, i)
    requires page == Rows(Toward(all, reverse))[i..Least(i + size, |all|)]
    ensures var next := if page == [] then cursor else Some(page[|page| - 1]);
      StandsAt(all, reverse, next, Least(i + size, |all|))
  {}

  lemma {:induction false} PagesContinue(ordered: seq<OrderedEntry>, w: Window, reverse: bool,
                                         cursor: Option<Row>, i: nat, sizes: seq<nat>)
    requires Sorted(ordered) && Ranked(ordered) && StandsAt(Matching(ordered, w), reverse, cursor, i)
    ensures var t := Toward(Matching(ordered, w), reverse);
      Pages(ordered, w, reverse, cursor, sizes) == Rows(t)[i..Least(i + Sum(sizes), |t|)]
    decreases |sizes|
  {
    hide Matching, Sorted, Ranked, Page, Pages, Sum, Toward, Rows, StandsAt, Least;
    PagesUnfold(ordered, w, reverse, cursor, sizes);
    StandsWithin(Matching(ordered, w), reverse, cursor, i);
    var t := Toward(Matching(ordered, w), reverse);
    if sizes == [] {
      Reach(i, 0, 0, |t|);
    } else {
      Reach(i, sizes[0], Sum(sizes[1..]), |t|);
      PageContinues(ordered, w, reverse, cursor, i, sizes[0]);
      var page := Page(ordered, w, reverse, cursor, sizes[0]);
      var next := if page == [] then cursor else Some(page[|page| - 1]);
      var j := Least(i + sizes[0], |t|);
      NextStands(Matching(ordered, w), reverse, cursor, i, sizes[0], page);
      PagesContinue(ordered, w, reverse, next, j, sizes[1..]);
      SliceJoin(Rows(t), i, j, Least(i + Sum(sizes), |t|));
    }
  }

  lemma PagesUnfold(ordered: seq<OrderedEntry>, w: Window, reverse: bool, cursor: Option<Row>, sizes: seq<nat>)
    ensures sizes == [] ==> Pages(ordered, w, reverse, cursor, sizes) == [] && Sum(sizes) == 0
    ensures sizes != [] ==>
      var page := Page(ordered, w, reverse, cursor, sizes[0]);
      var next := if page == [] then cursor else Some(page[|page| - 1]);
      && Pages(ordered, w, reverse, cursor, sizes) == page + Pages(ordered, w, reverse, next, sizes[1..])
      && Sum(sizes) == sizes[0] + Sum(sizes[1..])
  {}

  lemma Reach(i: nat, a: nat, b: nat, n: nat)
    requires i <= n
    ensures i <= Least(i + a, n) <= Least(i + (a + b), n) <= n
    ensures Least(Least(i + a, n) + b, n) == Least(i + (a + b), n)
    ensures Least(i, n) == i
  {}

  /** Chaining pages of any sizes yields the window's entries once each and in
      order, as far as the sizes reach. */
  lemma PagingIsExact(ordered: seq<OrderedEntry>, w: Window, reverse: bool, sizes: seq<nat>)
    requires Sorted(ordered) && Ranked(ordered)
    ensures var all := Rows(Toward(Matching(ordered, w), reverse));
      Pages(ordered, w, reverse, None, sizes) == all[..Least(Sum(sizes), |all|)]
  {
    hide Matching, Sorted, Ranked, Pages;
    PagesContinue(ordered, w, reverse, None, 0, sizes);
  }
}
