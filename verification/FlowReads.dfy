/** Reads of a live index: what its coherence gives the range functions and the claim scan,
    and a caller that pages through a window with them. */
module FlowReads {
  import opened Bytes
  import opened Score
  import opened FlowOrder
  import opened FlowLookup
  import opened FlowIndex
  import opened FlowScan
  import opened FlowPaging
  import opened DueMerge

  lemma ImageIsRanked(ordered: seq<OrderedEntry>, l: Lookup)
    requires Image(ordered, l)
    ensures Sorted(ordered) && Ranked(ordered)
  {
    hide MemberRank, Sorted;
    forall i | 0 <= i < |ordered| ensures ordered[i].rank == MemberRank(ordered[i].key, ordered[i].member) {
      assert ordered[i] in ordered;
    }
  }

  /** One page: the start of the window, or what is next to the cursor. */
  method ReadPage(index: FlowOrderedIndex, w: Window, reverse: bool, cursor: Option<Row>, size: nat) returns (rows: seq<Row>)
    requires index.Valid()
    ensures rows == Page(index.ordered, w, reverse, cursor, size)
  {
    hide Matching, Sorted, Rows, Slice, Reversed, After, Before;
    ImageIsRanked(index.ordered, index.lookup);
    match cursor
    case None => rows := RangeSlice(index.ordered, w, reverse, 0, size);
    case Some(row) =>
      if reverse {
        rows := RangeReverseBefore(index.ordered, w, row, 0, size);
      } else {
        rows := RangeForwardAfter(index.ordered, w, row, 0, size);
      }
  }

  /** A caller that asks for page after page, each from the last row it got, reads the window's
      entries once each and in order, as far as the sizes reach. */
  method ReadPages(index: FlowOrderedIndex, w: Window, reverse: bool, sizes: seq<nat>) returns (rows: seq<Row>)
    requires index.Valid()
    ensures var all := Rows(Toward(Matching(index.ordered, w), reverse));
      rows == all[..Least(Sum(sizes), |all|)]
  {
    hide Matching, Sorted, Page, Pages, Rows, Toward, Ranked;
    rows := [];
    var cursor: Option<Row> := None;
    ghost var all := Pages(index.ordered, w, reverse, None, sizes);
    for i := 0 to |sizes|
      invariant rows + Pages(index.ordered, w, reverse, cursor, sizes[i..]) == all
    {
      var page := ReadPage(index, w, reverse, cursor, sizes[i]);
      PagesUnfold(index.ordered, w, reverse, cursor, sizes[i..]);
      assert sizes[i..][1..] == sizes[i + 1..];
      rows := rows + page;
      cursor := if page == [] then cursor else Some(page[|page| - 1]);
    }
    PagesUnfold(index.ordered, w, reverse, cursor, sizes[|sizes|..]);
    ImageIsRanked(index.ordered, index.lookup);
    PagingIsExact(index.ordered, w, reverse, sizes);
  }

  /** `claim_due_candidates` on a live index. */
  method ClaimDue(index: FlowOrderedIndex, keys: seq<Bytes>, max: Score, limit: nat, maxScan: nat) returns (rows: seq<Candidate>)
    requires index.Valid() && PlainKeys(keys)
    ensures FirstOf(rows, index.ordered, keys, max, Least(limit, maxScan))
    ensures BestFirst(rows, index.ordered, keys, max)
  {
    hide Sorted, Ranked, FirstOf, BestFirst, PlainKeys;
    ImageIsRanked(index.ordered, index.lookup);
    rows := ClaimDueCandidates(index.ordered, keys, max, limit, maxScan);
  }
}
