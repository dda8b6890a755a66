/** The member lookup of the Flow index: a map of maps in which no inner map is empty,
    and the relation of the other four structures to it. */
module FlowLookup {
  import opened Bytes
  import opened Score
  import opened FlowOrder

  type Lookup = map<Bytes, map<Bytes, Score>>

  function Members(l: Lookup, key: Bytes): map<Bytes, Score> { if key in l then l[key] else map[] }

  predicate Has(l: Lookup, key: Bytes, member: Bytes) { member in Members(l, key) }

  function Count(l: Lookup, key: Bytes): nat { |Members(l, key)| }

  ghost predicate Tidy(l: Lookup) { forall key :: key in l ==> l[key] != map[] }

  /** `insert_lookup`. */
  function Inserted(l: Lookup, key: Bytes, member: Bytes, score: Score): Lookup {
    l[key := Members(l, key)[member := score]]
  }

  /** `remove_lookup`: an inner map that becomes empty goes too. */
  function Removed(l: Lookup, key: Bytes, member: Bytes): Lookup {
    if !Has(l, key, member) then l
    else
      var rest := l[key] - {member};
      if rest == map[] then l - {key} else l[key := rest]
  }

  lemma InsertedHolds(l: Lookup, key: Bytes, member: Bytes, score: Score)
    requires Tidy(l)
    ensures Tidy(Inserted(l, key, member, score))
    ensures forall k ::
      Members(Inserted(l, key, member, score), k)
      == if k == key then Members(l, key)[member := score] else Members(l, k)
    ensures forall k ::
      Count(Inserted(l, key, member, score), k)
      == Count(l, k) + if k == key && !Has(l, key, member) then 1 else 0
  {
    var inner := Members(l, key);
    var grown := inner[member := score];
    assert member in grown && grown.Keys == inner.Keys + {member};
    assert |grown.Keys| == |inner.Keys| + if member in inner then 0 else 1;
  }

  lemma RemovedHolds(l: Lookup, key: Bytes, member: Bytes)
    requires Tidy(l)
    ensures Tidy(Removed(l, key, member))
    ensures forall k ::
      Members(Removed(l, key, member), k)
      == if k == key then Members(l, key) - {member} else Members(l, k)
    ensures forall k ::
      Count(Removed(l, key, member), k)
      == Count(l, k) - if k == key && Has(l, key, member) then 1 else 0
  {
    var inner := Members(l, key);
    if Has(l, key, member) {
      assert (inner - {member}).Keys == inner.Keys - {member};
    } else {
      assert inner - {member} == inner;
    }
  }

  // ---------------------------------------------------------------------
  // The ordered set
  // ---------------------------------------------------------------------

  /** The lookup's own entry for a member. */
  predicate Listed(l: Lookup, e: OrderedEntry) {
    Has(l, e.key, e.member) && Members(l, e.key)[e.member] == e.score && e.rank == MemberRank(e.key, e.member)
  }

  /** The ordered set is exactly the image of the lookup. */
  ghost predicate Image(ordered: seq<OrderedEntry>, l: Lookup) {
    Sorted(ordered) && forall e :: e in ordered <==> Listed(l, e)
  }

  lemma ImageIsUnique(a: seq<OrderedEntry>, b: seq<OrderedEntry>, l: Lookup)
    requires Image(a, l) && Image(b, l)
    ensures a == b
  {
    hide Listed;
    SortedUnique(a, b);
  }

  /** Insertion of a new member. */
  lemma ImageOfNew(ordered: seq<OrderedEntry>, l: Lookup, key: Bytes, member: Bytes, score: Score)
    requires Tidy(l) && Image(ordered, l) && !Has(l, key, member)
    ensures Image(Insert(ordered, Entry(key, score, member)), Inserted(l, key, member, score))
  {
    InsertedHolds(l, key, member, score);
    InsertHolds(ordered, Entry(key, score, member));
    hide Insert, Inserted, MemberRank;
  }

  /** Removal of a member. */
  lemma ImageOfRemoval(ordered: seq<OrderedEntry>, l: Lookup, key: Bytes, member: Bytes)
    requires Tidy(l) && Image(ordered, l) && Has(l, key, member)
    ensures Image(Remove(ordered, Entry(key, Members(l, key)[member], member)), Removed(l, key, member))
  {
    RemovedHolds(l, key, member);
    RemoveHolds(ordered, Entry(key, Members(l, key)[member], member));
    hide Remove, Removed, MemberRank;
  }

  /** A new score: the old entry goes, the new one comes. */
  lemma ImageOfUpdate(ordered: seq<OrderedEntry>, l: Lookup, key: Bytes, member: Bytes, score: Score)
    requires Tidy(l) && Image(ordered, l) && Has(l, key, member)
    ensures Image(
      Insert(Remove(ordered, Entry(key, Members(l, key)[member], member)), Entry(key, score, member)),
      Inserted(l, key, member, score))
  {
    hide Insert, Remove, Image, Listed;
    var stale := Entry(key, Members(l, key)[member], member);
    ImageOfRemoval(ordered, l, key, member);
    RemovedHolds(l, key, member);
    ImageOfNew(Remove(ordered, stale), Removed(l, key, member), key, member, score);
    ReplacedLookup(l, key, member, score);
  }

  lemma ReplacedLookup(l: Lookup, key: Bytes, member: Bytes, score: Score)
    requires Tidy(l) && Has(l, key, member)
    ensures Inserted(Removed(l, key, member), key, member, score) == Inserted(l, key, member, score)
  {
    RemovedHolds(l, key, member);
    assert (Members(l, key) - {member})[member := score] == Members(l, key)[member := score];
  }

  lemma RemovedTwice(s: seq<OrderedEntry>, e: OrderedEntry)
    requires Sorted(s)
    ensures Remove(Remove(s, e), e) == Remove(s, e)
  {
    hide Remove, Sorted;
    RemoveHolds(s, e);
    RemoveHolds(Remove(s, e), e);
    SortedUnique(Remove(Remove(s, e), e), Remove(s, e));
  }

  // ---------------------------------------------------------------------
  // Counts and catalogs
  // ---------------------------------------------------------------------

  function CountOf(counts: map<Bytes, int>, key: Bytes): int { if key in counts then counts[key] else 0 }

  function Saturated(n: int): int {
    if n > I64_MAX then I64_MAX else if n < -(I64_MAX + 1) then -(I64_MAX + 1) else n
  }

  /** Every count plus its deferred delta is the number of members. */
  ghost predicate Balanced(counts: map<Bytes, int>, deltas: map<Bytes, int>, l: Lookup) {
    forall key :: CountOf(counts, key) + CountOf(deltas, key) == Count(l, key)
  }

  /** The catalogs hold exactly the keys with a positive count. */
  ghost predicate Catalogued(counts: map<Bytes, int>, positive: set<Bytes>, positiveDue: set<Bytes>) {
    && (forall key :: key in positive <==> CountOf(counts, key) > 0)
    && (forall key :: key in positiveDue <==> CountOf(counts, key) > 0 && DueKey(key))
  }

  /** No key is near the largest count. */
  ghost predicate Room(l: Lookup, n: nat) {
    forall key :: Count(l, key) + n <= I64_MAX
  }

  function Bumped(deltas: map<Bytes, int>, key: Bytes, delta: int): map<Bytes, int> {
    deltas[key := CountOf(deltas, key) + delta]
  }

  lemma BalanceShifts(counts: map<Bytes, int>, deltas: map<Bytes, int>, l: Lookup, l': Lookup, key: Bytes, d: int)
    requires Balanced(counts, deltas, l)
    requires forall k :: Count(l', k) == Count(l, k) + if k == key then d else 0
    ensures Balanced(Bumped(counts, key, d), deltas, l') && Balanced(counts, Bumped(deltas, key, d), l')
  {
    hide Count;
  }

  lemma BalanceStays(counts: map<Bytes, int>, deltas: map<Bytes, int>, l: Lookup, l': Lookup)
    requires Balanced(counts, deltas, l) && forall k :: Count(l', k) == Count(l, k)
    ensures Balanced(counts, deltas, l')
  {
    hide Count;
  }

  /** An insertion costs one count, now or later, if the member is new and none if not. */
  lemma InsertedBalance(counts: map<Bytes, int>, deltas: map<Bytes, int>, l: Lookup, key: Bytes, member: Bytes, score: Score)
    requires Tidy(l) && Balanced(counts, deltas, l)
    ensures var l' := Inserted(l, key, member, score);
      if Has(l, key, member) then Balanced(counts, deltas, l')
      else Balanced(Bumped(counts, key, 1), deltas, l') && Balanced(counts, Bumped(deltas, key, 1), l')
  {
    hide Count, Inserted, Balanced, Bumped, Members;
    InsertedHolds(l, key, member, score);
    var l' := Inserted(l, key, member, score);
    if Has(l, key, member) {
      BalanceStays(counts, deltas, l, l');
    } else {
      BalanceShifts(counts, deltas, l, l', key, 1);
    }
  }

  lemma RemovedBalance(counts: map<Bytes, int>, deltas: map<Bytes, int>, l: Lookup, key: Bytes, member: Bytes)
    requires Tidy(l) && Balanced(counts, deltas, l)
    ensures var l' := Removed(l, key, member);
      if Has(l, key, member) then
        Balanced(Bumped(counts, key, -1), deltas, l') && Balanced(counts, Bumped(deltas, key, -1), l')
      else Balanced(counts, deltas, l')
  {
    hide Count, Removed, Balanced, Bumped, Members;
    RemovedHolds(l, key, member);
    var l' := Removed(l, key, member);
    if Has(l, key, member) {
      BalanceShifts(counts, deltas, l, l', key, -1);
    } else {
      BalanceStays(counts, deltas, l, l');
    }
  }

  /** A balanced count never saturates while its key has room. */
  lemma NoSaturation(counts: map<Bytes, int>, l: Lookup, key: Bytes, delta: int)
    requires Balanced(counts, map[], l) && Room(l, 1) && -1 <= delta <= 1
    ensures Saturated(CountOf(counts, key) + delta) == CountOf(counts, key) + delta
  {}

  lemma RemovedRoom(l: Lookup, key: Bytes, member: Bytes, n: nat)
    requires Tidy(l) && Room(l, n)
    ensures Room(Removed(l, key, member), n)
  {
    RemovedHolds(l, key, member);
    hide Removed, Count;
    forall k ensures Count(Removed(l, key, member), k) + n <= I64_MAX {
      assert Count(l, k) + n <= I64_MAX;
    }
  }
}
