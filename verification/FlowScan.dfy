/** Reading the Flow index: score windows turned into entry bounds, slices of them, and
    paging with a cursor in both directions. */
module FlowScan {
  import opened Bytes
  import opened Score
  import opened FlowOrder
  import opened FlowLookup

  datatype Bound = NegInf | PosInf | Inclusive(score: Score) | Exclusive(score: Score) | Impossible

  predicate AboveMin(s: Score, min: Bound) {
    match min
    case NegInf => true
    case Inclusive(x) => s >= x
    case Exclusive(x) => s > x
    case PosInf => false
    case Impossible => false
  }

  predicate BelowMax(s: Score, max: Bound) {
    match max
    case PosInf => true
    case Inclusive(x) => s <= x
    case Exclusive(x) => s < x
    case NegInf => false
    case Impossible => false
  }

  /** One key and a range of scores. */
  datatype Window = Window(key: Bytes, min: Bound, max: Bound) {
    predicate Admits(e: OrderedEntry) { e.key == key && AboveMin(e.score, min) && BelowMax(e.score, max) }
  }

  /** The plain scan: every entry of the window, in index order. */
  function Matching(s: seq<OrderedEntry>, w: Window): seq<OrderedEntry> {
    if s == [] then []
    else if w.Admits(s[0]) then [s[0]] + Matching(s[1..], w) else Matching(s[1..], w)
  }

  lemma {:induction false} MatchingHolds(s: seq<OrderedEntry>, w: Window)
    requires Sorted(s)
    ensures Sorted(Matching(s, w))
    ensures forall e :: e in Matching(s, w) <==> e in s && w.Admits(e)
    decreases |s|
  {
    hide Less, Window.Admits;
    if s != [] {
      SortedTail(s);
      MatchingHolds(s[1..], w);
      assert s == [s[0]] + s[1..];
      var rest := Matching(s[1..], w);
      if rest != [] {
        assert rest[0] in rest;
      }
      SortedCons(s[0], rest);
    }
  }

  // ---------------------------------------------------------------------
  // Ranges of the ordered set
  // ---------------------------------------------------------------------

  /** The entries from `lower` on. */
  function From(s: seq<OrderedEntry>, lower: OrderedEntry): seq<OrderedEntry> {
    if s != [] && Less(s[0], lower) then From(s[1..], lower) else s
  }

  /** The entries after `cursor`. */
  function After(s: seq<OrderedEntry>, cursor: OrderedEntry): seq<OrderedEntry> {
    if s != [] && AtMost(s[0], cursor) then After(s[1..], cursor) else s
  }

  /** The entries before `upper`. */
  function Before(s: seq<OrderedEntry>, upper: OrderedEntry): seq<OrderedEntry> {
    if s == [] || !Less(s[0], upper) then [] else [s[0]] + Before(s[1..], upper)
  }

  lemma {:induction false} FromHolds(s: seq<OrderedEntry>, lower: OrderedEntry)
    requires Sorted(s)
    ensures Sorted(From(s, lower))
    ensures forall e :: e in From(s, lower) <==> e in s && AtMost(lower, e)
    decreases |s|
  {
    hide Less;
    if s != [] {
      SortedTail(s);
      assert s == [s[0]] + s[1..];
      LessTotal(s[0], lower);
      if Less(s[0], lower) {
        FromHolds(s[1..], lower);
      } else {
        forall e | e in s[1..] ensures AtMost(lower, e) {
          if s[0] != lower {
            LessTransitive(lower, s[0], e);
          }
        }
      }
    }
  }

  lemma {:induction false} AfterHolds(s: seq<OrderedEntry>, cursor: OrderedEntry)
    requires Sorted(s)
    ensures Sorted(After(s, cursor))
    ensures forall e :: e in After(s, cursor) <==> e in s && Less(cursor, e)
    decreases |s|
  {
    hide Less;
    if s != [] {
      SortedTail(s);
      assert s == [s[0]] + s[1..];
      LessTotal(s[0], cursor);
      LessIrreflexive(cursor);
      if AtMost(s[0], cursor) {
        AfterHolds(s[1..], cursor);
      } else {
        forall e | e in s[1..] ensures Less(cursor, e) {
          LessTransitive(cursor, s[0], e);
        }
      }
    }
  }

  lemma {:induction false} BeforeHolds(s: seq<OrderedEntry>, upper: OrderedEntry)
    requires Sorted(s)
    ensures Sorted(Before(s, upper))
    ensures forall e :: e in Before(s, upper) <==> e in s && Less(e, upper)
    decreases |s|
  {
    hide Less;
    if s != [] {
      SortedTail(s);
      assert s == [s[0]] + s[1..];
      if Less(s[0], upper) {
        BeforeHolds(s[1..], upper);
        if Before(s[1..], upper) != [] {
          assert Before(s[1..], upper)[0] in Before(s[1..], upper);
        }
        SortedCons(s[0], Before(s[1..], upper));
      } else {
        forall e | e in s[1..] ensures !Less(e, upper) {
          if Less(e, upper) {
            LessTransitive(s[0], e, upper);
          }
        }
      }
    }
  }

  // ---------------------------------------------------------------------
  // Windows as entry bounds
  // ---------------------------------------------------------------------

  function NoMember(key: Bytes, score: Score): OrderedEntry { Entry(key, score, []) }

  function LowerEntry(key: Bytes, min: Bound): Option<OrderedEntry> {
    match min
    case NegInf => Some(NoMember(key, -INFINITY))
    case Inclusive(score) => Some(NoMember(key, score))
    case Exclusive(score) =>
      (match NextScore(score)
       case Some(next) => Some(NoMember(key, next))
       case None => None)
    case _ => None
  }

  function UpperEntry(key: Bytes, max: Bound): Option<OrderedEntry> {
    match max
    case PosInf => Some(NoMember(key + [0], -INFINITY))
    case Exclusive(score) => Some(NoMember(key, score))
    case Inclusive(score) =>
      (match NextScore(score)
       case Some(next) => Some(NoMember(key, next))
       case None => Some(NoMember(key + [0], -INFINITY)))
    case _ => None
  }

  /** `exact_key_range_bounds`. */
  function RangeBounds(w: Window): Option<(OrderedEntry, OrderedEntry)> {
    var lower, upper := LowerEntry(w.key, w.min), UpperEntry(w.key, w.max);
    if lower.None? || upper.None? || !Less(lower.value, upper.value) then None
    else Some((lower.value, upper.value))
  }

  /** An entry without a member precedes every entry of its key and score. */
  lemma NoMemberIsFirst(key: Bytes, score: Score, e: OrderedEntry)
    ensures NoMember(key, score).rank == 0
    ensures AtMost(NoMember(key, score), e) <==> LexLess(key, e.key) || (e.key == key && e.score >= score)
    ensures Less(e, NoMember(key, score)) <==> LexLess(e.key, key) || (e.key == key && e.score < score)
  {}

  lemma LowerIsMin(w: Window, e: OrderedEntry)
    requires e.key == w.key
    ensures LowerEntry(w.key, w.min).None? ==> !AboveMin(e.score, w.min)
    ensures LowerEntry(w.key, w.min).Some? ==>
      (AtMost(LowerEntry(w.key, w.min).value, e) <==> AboveMin(e.score, w.min))
  {
    hide Less, AtMost, NoMember;
    LexIrreflexive(w.key);
    var lower := LowerEntry(w.key, w.min);
    if lower.Some? {
      NoMemberScore(w.key, lower.value.score);
      match w.min
      case NegInf => NoMemberIsFirst(w.key, -INFINITY, e);
      case Inclusive(score) => NoMemberIsFirst(w.key, score, e);
      case Exclusive(score) => NoMemberIsFirst(w.key, score + 1, e);
      case _ =>
    }
  }

  lemma NoMemberScore(key: Bytes, score: Score)
    ensures NoMember(key, score).score == score && NoMember(key, score).key == key
  {}

  lemma UpperIsMax(w: Window, e: OrderedEntry)
    requires e.key == w.key
    ensures UpperEntry(w.key, w.max).None? ==> !BelowMax(e.score, w.max)
    ensures UpperEntry(w.key, w.max).Some? ==>
      (Less(e, UpperEntry(w.key, w.max).value) <==> BelowMax(e.score, w.max))
  {
    hide Less, NoMember;
    LexIrreflexive(w.key);
    LexSuccessor(w.key, e.key);
    match w.max
    case PosInf => NoMemberIsFirst(w.key + [0], -INFINITY, e);
    case Exclusive(score) => NoMemberIsFirst(w.key, score, e);
    case Inclusive(score) =>
      if score == INFINITY {
        NoMemberIsFirst(w.key + [0], -INFINITY, e);
      } else {
        NoMemberIsFirst(w.key, score + 1, e);
      }
    case _ =>
  }

  /** Between its bounds lies exactly the window. */
  lemma BoundsAreExact(w: Window, e: OrderedEntry)
    ensures LowerEntry(w.key, w.min).Some? && UpperEntry(w.key, w.max).Some? ==>
      (w.Admits(e) <==>
       AtMost(LowerEntry(w.key, w.min).value, e) && Less(e, UpperEntry(w.key, w.max).value))
    ensures LowerEntry(w.key, w.min).None? || UpperEntry(w.key, w.max).None? ==> !w.Admits(e)
  {
    hide Less, AtMost, LexLess, NoMember;
    var lower, upper := LowerEntry(w.key, w.min), UpperEntry(w.key, w.max);
    if e.key == w.key {
      LowerIsMin(w, e);
      UpperIsMax(w, e);
    } else if lower.Some? && upper.Some? {
      OtherKeys(w, e);
    }
  }

  /** An entry of another key is not between the bounds. */
  lemma OtherKeys(w: Window, e: OrderedEntry)
    requires e.key != w.key && LowerEntry(w.key, w.min).Some? && UpperEntry(w.key, w.max).Some?
    ensures !(AtMost(LowerEntry(w.key, w.min).value, e) && Less(e, UpperEntry(w.key, w.max).value))
  {
    hide LexLess;
    var lower, upper := LowerEntry(w.key, w.min).value, UpperEntry(w.key, w.max).value;
    assert lower.key == w.key;
    NoMemberIsFirst(lower.key, lower.score, e);
    NoMemberIsFirst(upper.key, upper.score, e);
    LexTotal(w.key, e.key);
    LexSuccessor(w.key, e.key);
    assert upper.key == w.key || upper.key == w.key + [0];
  }

  /** The code's range is the plain scan. */
  lemma RangeIsScan(s: seq<OrderedEntry>, w: Window)
    requires Sorted(s)
    ensures RangeBounds(w).None? ==> Matching(s, w) == []
    ensures RangeBounds(w).Some? ==>
      Before(From(s, RangeBounds(w).value.0), RangeBounds(w).value.1) == Matching(s, w)
  {
    hide Less, AtMost, LowerEntry, UpperEntry, Window.Admits, From, Before, Matching;
    MatchingHolds(s, w);
    var lower, upper := LowerEntry(w.key, w.min), UpperEntry(w.key, w.max);
    forall e
      ensures lower.Some? && upper.Some? ==> (w.Admits(e) <==> AtMost(lower.value, e) && Less(e, upper.value))
      ensures lower.None? || upper.None? ==> !w.Admits(e)
    {
      BoundsAreExact(w, e);
    }
    if RangeBounds(w).Some? {
      FromHolds(s, lower.value);
      BeforeHolds(From(s, lower.value), upper.value);
      SortedUnique(Before(From(s, lower.value), upper.value), Matching(s, w));
    } else {
      Inhabited(Matching(s, w));
      if lower.Some? && upper.Some? {
        forall e ensures !w.Admits(e) {
          NothingBetween(lower.value, upper.value, e);
        }
      }
    }
  }

  lemma NothingBetween(lower: OrderedEntry, upper: OrderedEntry, e: OrderedEntry)
    requires !Less(lower, upper)
    ensures !(AtMost(lower, e) && Less(e, upper))
  {
    hide Less;
    if AtMost(lower, e) && Less(e, upper) && lower != e {
      LessTransitive(lower, e, upper);
    }
  }
}
