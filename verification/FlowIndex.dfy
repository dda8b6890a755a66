/** The Flow ordered index: five structures that every mutator keeps in agreement. */
module FlowIndex {
  import opened Bytes
  import opened Score
  import opened FlowOrder
  import opened FlowLookup

  class FlowOrderedIndex {
    var ordered: seq<OrderedEntry>
    var lookup: Lookup
    var counts: map<Bytes, int>
    var positive: set<Bytes>
    var positiveDue: set<Bytes>

    constructor ()
      ensures Valid() && lookup == map[] && counts == map[]
    {
      ordered, lookup, counts, positive, positiveDue := [], map[], map[], {}, {};
    }

    /** Ordered set, lookup and catalogs agree; counts agree once `deltas` are applied. */
    ghost predicate Agrees(deltas: map<Bytes, int>)
      reads this
    {
      Tidy(lookup) && Image(ordered, lookup) && Balanced(counts, deltas, lookup) &&
      Catalogued(counts, positive, positiveDue)
    }

    ghost predicate Valid()
      reads this
    {
      Agrees(map[])
    }

    // -------------------------------------------------------------------
    // Counts
    // -------------------------------------------------------------------

    /** `set_shared_count`. */
    method SetCount(key: Bytes, count: int)
      requires Catalogued(counts, positive, positiveDue)
      modifies this`counts, this`positive, this`positiveDue
      ensures counts == old(counts)[key := count]
      ensures Catalogued(counts, positive, positiveDue)
    {
      hide DueKey;
      if count > 0 {
        positive := positive + {key};
        if DueKey(key) {
          positiveDue := positiveDue + {key};
        } else {
          positiveDue := positiveDue - {key};
        }
      } else {
        positive := positive - {key};
        positiveDue := positiveDue - {key};
      }
      counts := counts[key := count];
    }

    method IncrementCount(key: Bytes, delta: int)
      requires Catalogued(counts, positive, positiveDue)
      modifies this`counts, this`positive, this`positiveDue
      ensures counts == if delta == 0 then old(counts) else old(counts)[key := Saturated(CountOf(old(counts), key) + delta)]
      ensures Catalogued(counts, positive, positiveDue)
    {
      if delta == 0 { return; }
      SetCount(key, Saturated(CountOf(counts, key) + delta));
    }

    /** `apply_count_deltas`: settles the deferred counts. */
    method ApplyCountDeltas(deltas: map<Bytes, int>)
      requires Agrees(deltas) && Room(lookup, 0)
      modifies this`counts, this`positive, this`positiveDue
      ensures Valid()
    {
      hide Image, Catalogued, Tidy;
      var left := deltas;
      while left != map[]
        invariant Agrees(left)
        decreases |left|
      {
        var key :| key in left;
        var delta := left[key];
        ghost var before := counts;
        assert Count(lookup, key) <= I64_MAX;
        if delta != 0 {
          SetCount(key, Saturated(CountOf(counts, key) + delta));
        }
        Settled(before, left, lookup, key);
        left := left - {key};
      }
    }

    // -------------------------------------------------------------------
    // Mutators
    // -------------------------------------------------------------------

    method Put(key: Bytes, member: Bytes, score: Score, newOnly: bool)
      requires Valid() && Room(lookup, 1)
      modifies this
      ensures Valid()
      ensures lookup == if newOnly && Has(old(lookup), key, member) then old(lookup)
                        else Inserted(old(lookup), key, member, score)
    {
      hide Image, Catalogued, Balanced, Room, Insert, Remove, Inserted;
      InsertedHolds(lookup, key, member, score);
      InsertedBalance(counts, map[], lookup, key, member, score);
      if Has(lookup, key, member) {
        if newOnly { return; }
        ImageOfUpdate(ordered, lookup, key, member, score);
        ordered := Remove(ordered, Entry(key, lookup[key][member], member));
      } else {
        ImageOfNew(ordered, lookup, key, member, score);
        NoSaturation(counts, lookup, key, 1);
        IncrementCount(key, 1);
      }
      ordered := Insert(ordered, Entry(key, score, member));
      lookup := Inserted(lookup, key, member, score);
    }

    method Delete(key: Bytes, member: Bytes) returns (removed: Option<Score>)
      requires Valid() && Room(lookup, 1)
      modifies this
      ensures Valid() && lookup == Removed(old(lookup), key, member)
      ensures removed == if Has(old(lookup), key, member) then Some(old(lookup)[key][member]) else None
    {
      hide Image, Catalogued, Balanced, Room, Insert, Remove, Removed;
      RemovedHolds(lookup, key, member);
      RemovedBalance(counts, map[], lookup, key, member);
      if !Has(lookup, key, member) {
        NothingRemoved(lookup, key, member);
        return None;
      }
      ImageOfRemoval(ordered, lookup, key, member);
      NoSaturation(counts, lookup, key, -1);
      removed := Some(lookup[key][member]);
      ordered := Remove(ordered, Entry(key, lookup[key][member], member));
      lookup := Removed(lookup, key, member);
      IncrementCount(key, -1);
    }

    method MoveMember(fromKey: Bytes, toKey: Bytes, member: Bytes, score: Score)
      requires Valid() && Room(lookup, 1)
      modifies this
      ensures Valid()
      ensures lookup == Inserted(if fromKey == toKey then old(lookup) else Removed(old(lookup), fromKey, member),
                                 toKey, member, score)
    {
      hide Image, Catalogued, Balanced, Room, Insert, Remove, Inserted, Removed;
      if fromKey == toKey {
        MoveWithin(fromKey, member, score);
        return;
      }
      RemovedRoom(lookup, fromKey, member, 1);
      var source := Delete(fromKey, member);
      ghost var between := lookup;
      RemovedRoom(lookup, toKey, member, 1);
      RemovedHolds(lookup, toKey, member);
      var destination := Delete(toKey, member);
      ImageOfNew(ordered, lookup, toKey, member, score);
      InsertedHolds(lookup, toKey, member, score);
      InsertedBalance(counts, map[], lookup, toKey, member, score);
      NoSaturation(counts, lookup, toKey, 1);
      ordered := Insert(ordered, Entry(toKey, score, member));
      lookup := Inserted(lookup, toKey, member, score);
      IncrementCount(toKey, 1);
      ClearedLookup(between, toKey, member, score);
    }

    /** `move_member` onto the same key: the member's entry is removed before `put` runs,
        which removes it once more. */
    method MoveWithin(key: Bytes, member: Bytes, score: Score)
      requires Valid() && Room(lookup, 1)
      modifies this
      ensures Valid() && lookup == Inserted(old(lookup), key, member, score)
    {
      hide Image, Catalogued, Balanced, Room, Insert, Remove, Inserted;
      if !Has(lookup, key, member) {
        Put(key, member, score, false);
        return;
      }
      var stale := Entry(key, lookup[key][member], member);
      SortedImage(ordered, lookup);
      RemovedTwice(ordered, stale);
      ImageOfUpdate(ordered, lookup, key, member, score);
      InsertedHolds(lookup, key, member, score);
      InsertedBalance(counts, map[], lookup, key, member, score);
      ordered := Remove(ordered, stale);
      ordered := Remove(ordered, stale);
      ordered := Insert(ordered, Entry(key, score, member));
      lookup := Inserted(lookup, key, member, score);
    }

    // -------------------------------------------------------------------
    // Batched mutation: counts are deferred
    // -------------------------------------------------------------------

    method PutNewWithoutCount(key: Bytes, member: Bytes, score: Score, ghost deltas: map<Bytes, int>) returns (added: bool)
      requires Agrees(deltas)
      modifies this`ordered, this`lookup
      ensures added <==> !Has(old(lookup), key, member)
      ensures lookup == if added then Inserted(old(lookup), key, member, score) else old(lookup)
      ensures Agrees(if added then Bumped(deltas, key, 1) else deltas)
    {
      hide Image, Catalogued, Balanced, Insert, Inserted;
      if Has(lookup, key, member) { return false; }
      InsertedHolds(lookup, key, member, score);
      InsertedBalance(counts, deltas, lookup, key, member, score);
      ImageOfNew(ordered, lookup, key, member, score);
      ordered := Insert(ordered, Entry(key, score, member));
      lookup := Inserted(lookup, key, member, score);
      return true;
    }

    method DeleteWithoutCount(key: Bytes, member: Bytes, ghost deltas: map<Bytes, int>) returns (deleted: bool)
      requires Agrees(deltas)
      modifies this`ordered, this`lookup
      ensures deleted <==> Has(old(lookup), key, member)
      ensures lookup == Removed(old(lookup), key, member)
      ensures Agrees(if deleted then Bumped(deltas, key, -1) else deltas)
    {
      hide Image, Catalogued, Balanced, Remove, Removed;
      if !Has(lookup, key, member) {
        NothingRemoved(lookup, key, member);
        return false;
      }
      RemovedHolds(lookup, key, member);
      RemovedBalance(counts, deltas, lookup, key, member);
      ImageOfRemoval(ordered, lookup, key, member);
      ordered := Remove(ordered, Entry(key, lookup[key][member], member));
      lookup := Removed(lookup, key, member);
      return true;
    }
  }

  lemma ClearedLookup(l: Lookup, key: Bytes, member: Bytes, score: Score)
    requires Tidy(l)
    ensures Inserted(Removed(l, key, member), key, member, score) == Inserted(l, key, member, score)
  {
    if Has(l, key, member) {
      ReplacedLookup(l, key, member, score);
    } else {
      NothingRemoved(l, key, member);
    }
  }

  /** `add_count_delta`; the addition saturates, which never happens while every sum fits. */
  method AddCountDelta(deltas: map<Bytes, int>, key: Bytes, delta: int) returns (next: map<Bytes, int>)
    requires delta != 0 && -(I64_MAX + 1) <= CountOf(deltas, key) + delta <= I64_MAX
    ensures next == Bumped(deltas, key, delta)
  {
    if key in deltas {
      next := deltas[key := Saturated(deltas[key] + delta)];
    } else {
      next := deltas[key := delta];
    }
  }

  /** Settling one key's delta leaves the other keys' deltas to settle. */
  lemma Settled(counts: map<Bytes, int>, deltas: map<Bytes, int>, l: Lookup, key: Bytes)
    requires Balanced(counts, deltas, l) && key in deltas && Count(l, key) <= I64_MAX
    ensures Balanced(counts[key := Saturated(CountOf(counts, key) + deltas[key])], deltas - {key}, l)
    ensures deltas[key] == 0 ==> Balanced(counts, deltas - {key}, l)
  {}

  lemma NothingRemoved(l: Lookup, key: Bytes, member: Bytes)
    requires !Has(l, key, member)
    ensures Removed(l, key, member) == l
  {}

  lemma SortedImage(ordered: seq<OrderedEntry>, l: Lookup)
    requires Image(ordered, l)
    ensures Sorted(ordered)
  {}

  /** The lookup determines the rest of a coherent index, up to counts that are explicitly
      zero. */
  lemma LookupDetermines(l: Lookup,
    ordered: seq<OrderedEntry>, counts: map<Bytes, int>, positive: set<Bytes>, positiveDue: set<Bytes>,
    ordered': seq<OrderedEntry>, counts': map<Bytes, int>, positive': set<Bytes>, positiveDue': set<Bytes>)
    requires Image(ordered, l) && Balanced(counts, map[], l) && Catalogued(counts, positive, positiveDue)
    requires Image(ordered', l) && Balanced(counts', map[], l) && Catalogued(counts', positive', positiveDue')
    ensures ordered == ordered' && positive == positive' && positiveDue == positiveDue'
    ensures forall key :: CountOf(counts, key) == CountOf(counts', key)
  {
    hide Image, DueKey;
    ImageIsUnique(ordered, ordered', l);
    forall key ensures CountOf(counts, key) == CountOf(counts', key) {
      assert CountOf(counts, key) + CountOf(map[], key) == Count(l, key);
      assert CountOf(counts', key) + CountOf(map[], key) == Count(l, key);
    }
  }
}
