/** Claims: a batch moves flows from due to running in one pass with deferred counts, and a
    rollback of the same batch restores the index. */
module FlowClaims {
  import opened Bytes
  import opened Score
  import opened FlowOrder
  import opened FlowLookup
  import opened FlowIndex

  datatype ClaimEntry = ClaimEntry(
    id: Bytes,
    fromDueKey: Bytes, fromDueScore: Score, toDueKey: Bytes, toDueScore: Score,
    fromStateKey: Bytes, fromStateScore: Score, toStateKey: Bytes, toStateScore: Score,
    inflightKey: Bytes, workerKey: Bytes, leaseScore: Score)

  function PutNew(l: Lookup, key: Bytes, member: Bytes, score: Score): Lookup {
    if Has(l, key, member) then l else Inserted(l, key, member, score)
  }

  /** One claim on the lookup, in the order the code works. */
  function Applied(l: Lookup, e: ClaimEntry): Lookup {
    var l1 := PutNew(Removed(l, e.fromDueKey, e.id), e.toDueKey, e.id, e.toDueScore);
    var l2 := PutNew(Removed(l1, e.fromStateKey, e.id), e.toStateKey, e.id, e.toStateScore);
    PutNew(PutNew(l2, e.inflightKey, e.id, e.leaseScore), e.workerKey, e.id, e.leaseScore)
  }

  function RolledBack(l: Lookup, e: ClaimEntry): Lookup {
    var l1 := PutNew(Removed(l, e.toDueKey, e.id), e.fromDueKey, e.id, e.fromDueScore);
    var l2 := Removed(Removed(Removed(l1, e.toStateKey, e.id), e.inflightKey, e.id), e.workerKey, e.id);
    PutNew(l2, e.fromStateKey, e.id, e.fromStateScore)
  }

  function AllApplied(l: Lookup, entries: seq<ClaimEntry>): Lookup {
    if entries == [] then l else Applied(AllApplied(l, entries[..|entries| - 1]), entries[|entries| - 1])
  }

  function AllRolledBack(l: Lookup, entries: seq<ClaimEntry>): Lookup {
    if entries == [] then l else RolledBack(AllRolledBack(l, entries[..|entries| - 1]), entries[|entries| - 1])
  }

  // ---------------------------------------------------------------------
  // The code
  // ---------------------------------------------------------------------

  ghost predicate Countable(counts: map<Bytes, int>) {
    forall key :: 0 <= CountOf(counts, key) <= I64_MAX
  }

  lemma RoomShrinks(l: Lookup, key: Bytes, member: Bytes, score: Score, n: nat)
    requires Tidy(l) && Room(l, n + 1)
    ensures Room(PutNew(l, key, member, score), n)
  {
    InsertedHolds(l, key, member, score);
    hide Count, Inserted;
    forall k ensures Count(PutNew(l, key, member, score), k) + n <= I64_MAX {
      assert Count(l, k) + (n + 1) <= I64_MAX;
    }
  }

  lemma DeltaFits(counts: map<Bytes, int>, deltas: map<Bytes, int>, l: Lookup, key: Bytes, d: int)
    requires Countable(counts) && Balanced(counts, deltas, l) && Room(l, 1) && -1 <= d <= 1
    ensures -(I64_MAX + 1) <= CountOf(deltas, key) + d <= I64_MAX
  {}

  /** Delete one member and defer its count. */
  method DeletePart(index: FlowOrderedIndex, key: Bytes, id: Bytes, deltas: map<Bytes, int>, ghost n: nat)
    returns (next: map<Bytes, int>)
    requires index.Agrees(deltas) && Countable(index.counts) && Room(index.lookup, n + 1)
    modifies index`ordered, index`lookup
    ensures index.Agrees(next) && index.lookup == Removed(old(index.lookup), key, id)
    ensures Room(index.lookup, n + 1)
  {
    hide Image, Catalogued, Room, Removed;
    RoomIsEnough(index.lookup, n + 1, 1);
    DeltaFits(index.counts, deltas, index.lookup, key, -1);
    RemovedRoom(index.lookup, key, id, n + 1);
    var deleted := index.DeleteWithoutCount(key, id, deltas);
    next := deltas;
    if deleted { next := AddCountDelta(deltas, key, -1); }
  }

  lemma RoomIsEnough(l: Lookup, n: nat, m: nat)
    requires Room(l, n) && m <= n
    ensures Room(l, m)
  {}

  /** Put one member unless it is there, and defer its count. */
  method PutPart(index: FlowOrderedIndex, key: Bytes, id: Bytes, score: Score, deltas: map<Bytes, int>, ghost n: nat)
    returns (next: map<Bytes, int>)
    requires index.Agrees(deltas) && Countable(index.counts) && Room(index.lookup, n + 1)
    modifies index`ordered, index`lookup
    ensures index.Agrees(next) && index.lookup == PutNew(old(index.lookup), key, id, score)
    ensures Room(index.lookup, n)
  {
    hide Image, Catalogued, Room, Inserted;
    RoomIsEnough(index.lookup, n + 1, 1);
    DeltaFits(index.counts, deltas, index.lookup, key, 1);
    RoomShrinks(index.lookup, key, id, score, n);
    var added := index.PutNewWithoutCount(key, id, score, deltas);
    next := deltas;
    if added { next := AddCountDelta(deltas, key, 1); }
  }

  method ApplyOne(index: FlowOrderedIndex, e: ClaimEntry, deltas: map<Bytes, int>, ghost n: nat)
    returns (next: map<Bytes, int>)
    requires index.Agrees(deltas) && Countable(index.counts) && Room(index.lookup, n + 5)
    modifies index`ordered, index`lookup
    ensures index.Agrees(next) && index.lookup == Applied(old(index.lookup), e)
    ensures Room(index.lookup, n + 1)
  {
    hide FlowOrderedIndex.Agrees, Room, Removed, PutNew, Countable;
    next := DeletePart(index, e.fromDueKey, e.id, deltas, n + 4);
    next := PutPart(index, e.toDueKey, e.id, e.toDueScore, next, n + 4);
    next := DeletePart(index, e.fromStateKey, e.id, next, n + 3);
    next := PutPart(index, e.toStateKey, e.id, e.toStateScore, next, n + 3);
    next := PutPart(index, e.inflightKey, e.id, e.leaseScore, next, n + 2);
    next := PutPart(index, e.workerKey, e.id, e.leaseScore, next, n + 1);
  }

  method RollBackOne(index: FlowOrderedIndex, e: ClaimEntry, deltas: map<Bytes, int>, ghost n: nat)
    returns (next: map<Bytes, int>)
    requires index.Agrees(deltas) && Countable(index.counts) && Room(index.lookup, n + 3)
    modifies index`ordered, index`lookup
    ensures index.Agrees(next) && index.lookup == RolledBack(old(index.lookup), e)
    ensures Room(index.lookup, n + 1)
  {
    hide FlowOrderedIndex.Agrees, Room, Removed, PutNew, Countable;
    next := DeletePart(index, e.toDueKey, e.id, deltas, n + 2);
    next := PutPart(index, e.fromDueKey, e.id, e.fromDueScore, next, n + 2);
    next := DeletePart(index, e.toStateKey, e.id, next, n + 1);
    next := DeletePart(index, e.inflightKey, e.id, next, n + 1);
    next := DeletePart(index, e.workerKey, e.id, next, n + 1);
    next := PutPart(index, e.fromStateKey, e.id, e.fromStateScore, next, n + 1);
  }

  lemma ValidIsCountable(counts: map<Bytes, int>, l: Lookup)
    requires Balanced(counts, map[], l) && Room(l, 0)
    ensures Countable(counts)
  {}

  /** `apply_claim_entries_locked`. */
  method ApplyClaimEntries(index: FlowOrderedIndex, entries: seq<ClaimEntry>)
    requires index.Valid() && Room(index.lookup, 4 * |entries| + 1)
    modifies index
    ensures index.Valid() && index.lookup == AllApplied(old(index.lookup), entries)
    ensures DistinctIds(entries) ==> ClaimsTold(old(index.lookup), index.lookup, entries)
  {
    hide Room, Applied, Image, Catalogued, Balanced, ClaimsTold;
    ghost var start := index.lookup;
    RoomIsEnough(start, 4 * |entries| + 1, 0);
    ValidIsCountable(index.counts, start);
    var deltas: map<Bytes, int> := map[];
    for i := 0 to |entries|
      invariant index.Agrees(deltas) && Countable(index.counts)
      invariant Room(index.lookup, 4 * (|entries| - i) + 1)
      invariant index.lookup == AllApplied(start, entries[..i])
    {
      assert entries[..i + 1][..i] == entries[..i];
      deltas := ApplyOne(index, entries[i], deltas, 4 * (|entries| - i - 1));
    }
    assert entries[..|entries|] == entries;
    RoomIsEnough(index.lookup, 1, 0);
    index.ApplyCountDeltas(deltas);
    if DistinctIds(entries) {
      ClaimsLeave(start, entries);
    }
  }

  /** `flow_index_rollback_claim_entries`. */
  method RollBackClaimEntries(index: FlowOrderedIndex, entries: seq<ClaimEntry>)
    requires index.Valid() && Room(index.lookup, 2 * |entries| + 1)
    modifies index
    ensures index.Valid() && index.lookup == AllRolledBack(old(index.lookup), entries)
    ensures DistinctIds(entries) ==> RollbacksTold(old(index.lookup), index.lookup, entries)
  {
    hide Room, RolledBack, Image, Catalogued, Balanced, RollbacksTold;
    ghost var start := index.lookup;
    RoomIsEnough(start, 2 * |entries| + 1, 0);
    ValidIsCountable(index.counts, start);
    var deltas: map<Bytes, int> := map[];
    for i := 0 to |entries|
      invariant index.Agrees(deltas) && Countable(index.counts)
      invariant Room(index.lookup, 2 * (|entries| - i) + 1)
      invariant index.lookup == AllRolledBack(start, entries[..i])
    {
      assert entries[..i + 1][..i] == entries[..i];
      deltas := RollBackOne(index, entries[i], deltas, 2 * (|entries| - i - 1));
    }
    assert entries[..|entries|] == entries;
    RoomIsEnough(index.lookup, 1, 0);
    index.ApplyCountDeltas(deltas);
    if DistinctIds(entries) {
      RollbacksLeave(start, entries);
    }
  }

  // ---------------------------------------------------------------------
  // Columns: what the index holds about one member
  // ---------------------------------------------------------------------

  type Column = map<Bytes, Score>

  /** Every key that lists `member`, with its score there. */
  function ColumnOf(l: Lookup, member: Bytes): Column {
    map key | key in l && member in l[key] :: l[key][member]
  }

  lemma ColumnRemoved(l: Lookup, key: Bytes, member: Bytes, x: Bytes)
    ensures ColumnOf(Removed(l, key, member), x)
         == if x == member then ColumnOf(l, x) - {key} else ColumnOf(l, x)
  {
    if Has(l, key, member) {
      assert x in l[key] - {member} <==> x in l[key] && x != member;
    }
  }

  lemma ColumnsDetermine(a: Lookup, b: Lookup)
    requires Tidy(a) && Tidy(b) && forall x :: ColumnOf(a, x) == ColumnOf(b, x)
    ensures a == b
  {
    forall key ensures Members(a, key) == Members(b, key) {
      forall x ensures x in Members(a, key) <==> x in Members(b, key)
        ensures x in Members(a, key) ==> Members(a, key)[x] == Members(b, key)[x]
      {
        assert ColumnOf(a, x) == ColumnOf(b, x);
        assert x in Members(a, key) <==> key in ColumnOf(a, x);
        assert x in Members(b, key) <==> key in ColumnOf(b, x);
      }
    }
    forall key ensures key in a <==> key in b {
      assert Members(a, key) == Members(b, key);
    }
    assert a.Keys == b.Keys;
    forall key | key in a ensures a[key] == b[key] {
      assert Members(a, key) == Members(b, key);
    }
  }

  function PutIn(c: Column, key: Bytes, score: Score): Column { if key in c then c else c[key := score] }

  lemma ColumnPut(l: Lookup, key: Bytes, member: Bytes, score: Score, x: Bytes)
    ensures ColumnOf(PutNew(l, key, member, score), x)
         == if x == member then PutIn(ColumnOf(l, x), key, score) else ColumnOf(l, x)
  {}

  function AppliedIn(c: Column, e: ClaimEntry): Column {
    var c1 := PutIn(c - {e.fromDueKey}, e.toDueKey, e.toDueScore);
    var c2 := PutIn(c1 - {e.fromStateKey}, e.toStateKey, e.toStateScore);
    PutIn(PutIn(c2, e.inflightKey, e.leaseScore), e.workerKey, e.leaseScore)
  }

  function RolledBackIn(c: Column, e: ClaimEntry): Column {
    var c1 := PutIn(c - {e.toDueKey}, e.fromDueKey, e.fromDueScore);
    PutIn(c1 - {e.toStateKey} - {e.inflightKey} - {e.workerKey}, e.fromStateKey, e.fromStateScore)
  }

  /** A claim touches the column of its own id and no other. */
  lemma ColumnApplied(l: Lookup, e: ClaimEntry, x: Bytes)
    ensures ColumnOf(Applied(l, e), x) == if x == e.id then AppliedIn(ColumnOf(l, x), e) else ColumnOf(l, x)
  {
    hide ColumnOf, PutNew, Removed, PutIn;
    var r1 := Removed(l, e.fromDueKey, e.id);
    var l1 := PutNew(r1, e.toDueKey, e.id, e.toDueScore);
    var r2 := Removed(l1, e.fromStateKey, e.id);
    var l2 := PutNew(r2, e.toStateKey, e.id, e.toStateScore);
    var l3 := PutNew(l2, e.inflightKey, e.id, e.leaseScore);
    ColumnRemoved(l, e.fromDueKey, e.id, x);
    ColumnPut(r1, e.toDueKey, e.id, e.toDueScore, x);
    ColumnRemoved(l1, e.fromStateKey, e.id, x);
    ColumnPut(r2, e.toStateKey, e.id, e.toStateScore, x);
    ColumnPut(l2, e.inflightKey, e.id, e.leaseScore, x);
    ColumnPut(l3, e.workerKey, e.id, e.leaseScore, x);
  }

  lemma ColumnRolledBack(l: Lookup, e: ClaimEntry, x: Bytes)
    ensures ColumnOf(RolledBack(l, e), x) == if x == e.id then RolledBackIn(ColumnOf(l, x), e) else ColumnOf(l, x)
  {
    hide ColumnOf, PutNew, Removed, PutIn;
    var r1 := Removed(l, e.toDueKey, e.id);
    var l1 := PutNew(r1, e.fromDueKey, e.id, e.fromDueScore);
    var r2 := Removed(l1, e.toStateKey, e.id);
    var r3 := Removed(r2, e.inflightKey, e.id);
    var r4 := Removed(r3, e.workerKey, e.id);
    ColumnRemoved(l, e.toDueKey, e.id, x);
    ColumnPut(r1, e.fromDueKey, e.id, e.fromDueScore, x);
    ColumnRemoved(l1, e.toStateKey, e.id, x);
    ColumnRemoved(r2, e.inflightKey, e.id, x);
    ColumnRemoved(r3, e.workerKey, e.id, x);
    ColumnPut(r4, e.fromStateKey, e.id, e.fromStateScore, x);
  }

  // ---------------------------------------------------------------------
  // What the index says about a flow
  // ---------------------------------------------------------------------

  function ScoreIn(c: Column, key: Bytes): Option<Score> { if key in c then Some(c[key]) else None }

  function ScoreUnder(l: Lookup, key: Bytes, member: Bytes): Option<Score> { ScoreIn(ColumnOf(l, member), key) }

  /** The score of a claimed flow under each key. Its destinations list it, with the score of the
      first of them that is this key unless it was there before; other sources do not. */
  function ClaimedScore(c: Column, e: ClaimEntry, key: Bytes): Option<Score> {
    var source := key == e.fromDueKey || key == e.fromStateKey;
    if key !in {e.toDueKey, e.toStateKey, e.inflightKey, e.workerKey} then (if source then None else ScoreIn(c, key))
    else if !source && key in c then Some(c[key])
    else if key == e.toDueKey && key != e.fromStateKey then Some(e.toDueScore)
    else if key == e.toStateKey then Some(e.toStateScore)
    else if key == e.inflightKey || key == e.workerKey then Some(e.leaseScore)
    else None
  }

  /** The score of a rolled-back flow under each key. */
  function RolledBackScore(c: Column, e: ClaimEntry, key: Bytes): Option<Score> {
    var cleared := key in {e.toStateKey, e.inflightKey, e.workerKey};
    var kept := key in c && key != e.toDueKey;
    if key == e.fromStateKey then
      if cleared then Some(e.fromStateScore)
      else if kept then Some(c[key])
      else if key == e.fromDueKey then Some(e.fromDueScore)
      else Some(e.fromStateScore)
    else if cleared then None
    else if kept then Some(c[key])
    else if key == e.fromDueKey then Some(e.fromDueScore)
    else None
  }

  lemma OneClaimed(c: Column, e: ClaimEntry, key: Bytes)
    ensures ScoreIn(AppliedIn(c, e), key) == ClaimedScore(c, e, key)
  {}

  lemma OneRolledBack(c: Column, e: ClaimEntry, key: Bytes)
    ensures ScoreIn(RolledBackIn(c, e), key) == RolledBackScore(c, e, key)
  {}

  /** What a batch of claims leaves under every key, for its flows and for every other member. */
  ghost predicate ClaimsTold(l: Lookup, after: Lookup, entries: seq<ClaimEntry>) {
    && (forall i, key :: 0 <= i < |entries| ==>
          ScoreUnder(after, key, entries[i].id) == ClaimedScore(ColumnOf(l, entries[i].id), entries[i], key))
    && (forall x, key :: (forall i :: 0 <= i < |entries| ==> entries[i].id != x) ==>
          ScoreUnder(after, key, x) == ScoreUnder(l, key, x))
  }

  ghost predicate RollbacksTold(l: Lookup, after: Lookup, entries: seq<ClaimEntry>) {
    && (forall i, key :: 0 <= i < |entries| ==>
          ScoreUnder(after, key, entries[i].id) == RolledBackScore(ColumnOf(l, entries[i].id), entries[i], key))
    && (forall x, key :: (forall i :: 0 <= i < |entries| ==> entries[i].id != x) ==>
          ScoreUnder(after, key, x) == ScoreUnder(l, key, x))
  }

  lemma ClaimsLeave(l: Lookup, entries: seq<ClaimEntry>)
    requires DistinctIds(entries)
    ensures ClaimsTold(l, AllApplied(l, entries), entries)
  {
    hide ColumnOf, AllApplied, AppliedIn, ClaimedScore;
    forall i, key | 0 <= i < |entries|
      ensures ScoreUnder(AllApplied(l, entries), key, entries[i].id) == ClaimedScore(ColumnOf(l, entries[i].id), entries[i], key)
    {
      ColumnOfAllApplied(l, entries, entries[i].id);
      OneClaimed(ColumnOf(l, entries[i].id), entries[i], key);
    }
    forall x, key | forall i :: 0 <= i < |entries| ==> entries[i].id != x
      ensures ScoreUnder(AllApplied(l, entries), key, x) == ScoreUnder(l, key, x)
    {
      ColumnOfAllApplied(l, entries, x);
    }
  }

  lemma RollbacksLeave(l: Lookup, entries: seq<ClaimEntry>)
    requires DistinctIds(entries)
    ensures RollbacksTold(l, AllRolledBack(l, entries), entries)
  {
    hide ColumnOf, AllRolledBack, RolledBackIn, RolledBackScore;
    forall i, key | 0 <= i < |entries|
      ensures ScoreUnder(AllRolledBack(l, entries), key, entries[i].id)
           == RolledBackScore(ColumnOf(l, entries[i].id), entries[i], key)
    {
      ColumnOfAllRolledBack(l, entries, entries[i].id);
      OneRolledBack(ColumnOf(l, entries[i].id), entries[i], key);
    }
    forall x, key | forall i :: 0 <= i < |entries| ==> entries[i].id != x
      ensures ScoreUnder(AllRolledBack(l, entries), key, x) == ScoreUnder(l, key, x)
    {
      ColumnOfAllRolledBack(l, entries, x);
    }
  }

  /** Four different destinations that are no sources. */
  predicate Plain(e: ClaimEntry) {
    && e.toDueKey != e.toStateKey && e.toDueKey != e.inflightKey && e.toDueKey != e.workerKey
    && e.toStateKey != e.inflightKey && e.toStateKey != e.workerKey && e.inflightKey != e.workerKey
    && e.fromDueKey !in {e.toDueKey, e.toStateKey, e.inflightKey, e.workerKey}
    && e.fromStateKey !in {e.toDueKey, e.toStateKey, e.inflightKey, e.workerKey}
  }

  /** The plain case: the flow leaves its sources and is listed under each destination with the
      score meant for it. */
  lemma ClaimedIsListed(l: Lookup, entries: seq<ClaimEntry>, i: nat)
    requires DistinctIds(entries) && i < |entries| && Plain(entries[i])
    requires var e := entries[i];
      && ScoreUnder(l, e.toDueKey, e.id) == None && ScoreUnder(l, e.toStateKey, e.id) == None
      && ScoreUnder(l, e.inflightKey, e.id) == None && ScoreUnder(l, e.workerKey, e.id) == None
    ensures var e, after := entries[i], AllApplied(l, entries);
      && ScoreUnder(after, e.toDueKey, e.id) == Some(e.toDueScore)
      && ScoreUnder(after, e.toStateKey, e.id) == Some(e.toStateScore)
      && ScoreUnder(after, e.inflightKey, e.id) == Some(e.leaseScore)
      && ScoreUnder(after, e.workerKey, e.id) == Some(e.leaseScore)
      && ScoreUnder(after, e.fromDueKey, e.id) == None && ScoreUnder(after, e.fromStateKey, e.id) == None
  {
    hide AllApplied, ColumnOf, ClaimedScore;
    var e, after := entries[i], AllApplied(l, entries);
    ClaimsLeave(l, entries);
    forall key ensures ScoreUnder(after, key, e.id) == ClaimedScore(ColumnOf(l, e.id), e, key) {}
    PlainScores(ColumnOf(l, e.id), e);
  }

  lemma PlainScores(c: Column, e: ClaimEntry)
    requires Plain(e)
    requires ScoreIn(c, e.toDueKey) == None && ScoreIn(c, e.toStateKey) == None
    requires ScoreIn(c, e.inflightKey) == None && ScoreIn(c, e.workerKey) == None
    ensures ClaimedScore(c, e, e.toDueKey) == Some(e.toDueScore) && ClaimedScore(c, e, e.toStateKey) == Some(e.toStateScore)
    ensures ClaimedScore(c, e, e.inflightKey) == Some(e.leaseScore) && ClaimedScore(c, e, e.workerKey) == Some(e.leaseScore)
    ensures ClaimedScore(c, e, e.fromDueKey) == None && ClaimedScore(c, e, e.fromStateKey) == None
  {}

  // ---------------------------------------------------------------------
  // Rollback undoes claim
  // ---------------------------------------------------------------------

  ghost predicate DistinctIds(entries: seq<ClaimEntry>) {
    forall i, j :: 0 <= i < j < |entries| ==> entries[i].id != entries[j].id
  }

  /** The keys a rollback clears after it has restored the due key. */
  function Cleared(e: ClaimEntry): set<Bytes> { {e.toStateKey, e.inflightKey, e.workerKey} }

  /** The flow sits under its source keys with the recorded scores and under no other key
      of the entry. A source key may be a destination as well; if both sources are one key, the
      due score is the one restored, unless that key is cleared in between. */
  predicate UndoableIn(c: Column, e: ClaimEntry) {
    && e.fromStateKey in c
    && c[e.fromStateKey]
       == (if e.fromStateKey == e.fromDueKey && e.fromStateKey !in Cleared(e) then e.fromDueScore else e.fromStateScore)
    && (e.fromDueKey != e.fromStateKey && e.fromDueKey !in Cleared(e) ==>
          e.fromDueKey in c && c[e.fromDueKey] == e.fromDueScore)
    && (e.toDueKey != e.fromDueKey && e.toDueKey != e.fromStateKey ==> e.toDueKey !in c)
    && (forall key :: key in Cleared(e) && key != e.fromStateKey ==> key !in c)
  }

  predicate Undoable(l: Lookup, e: ClaimEntry) { UndoableIn(ColumnOf(l, e.id), e) }

  function Touched(e: ClaimEntry): set<Bytes> { Cleared(e) + {e.fromDueKey, e.toDueKey, e.fromStateKey} }

  lemma OthersStay(c: Column, e: ClaimEntry, key: Bytes)
    requires key !in Touched(e)
    ensures var r := RolledBackIn(AppliedIn(c, e), e);
      (key in r <==> key in c) && (key in c ==> r[key] == c[key])
  {}

  /** What claim and rollback leave under the keys of the entry. */
  lemma RestoredKeys(c: Column, e: ClaimEntry, key: Bytes)
    requires key in Touched(e)
    ensures var r := RolledBackIn(AppliedIn(c, e), e);
      if key == e.fromStateKey then
        key in r && r[key] == if key == e.fromDueKey && key !in Cleared(e) then e.fromDueScore else e.fromStateScore
      else if key == e.fromDueKey && key !in Cleared(e) then key in r && r[key] == e.fromDueScore
      else key !in r
  {}

  /** Claim and rollback restore one column exactly when it is undoable. */
  lemma OneUndone(c: Column, e: ClaimEntry)
    ensures RolledBackIn(AppliedIn(c, e), e) == c <==> UndoableIn(c, e)
  {
    hide AppliedIn, RolledBackIn;
    var r := RolledBackIn(AppliedIn(c, e), e);
    forall key | key in Touched(e)
      ensures if key == e.fromStateKey then
          key in r && r[key] == if key == e.fromDueKey && key !in Cleared(e) then e.fromDueScore else e.fromStateScore
        else if key == e.fromDueKey && key !in Cleared(e) then key in r && r[key] == e.fromDueScore
        else key !in r
    {
      RestoredKeys(c, e, key);
    }
    if UndoableIn(c, e) {
      forall key ensures (key in r <==> key in c) && (key in c ==> r[key] == c[key]) {
        if key !in Touched(e) {
          OthersStay(c, e, key);
        }
      }
    }
  }

  lemma {:induction false} ColumnOfAllApplied(l: Lookup, entries: seq<ClaimEntry>, x: Bytes)
    requires DistinctIds(entries)
    ensures (forall i :: 0 <= i < |entries| ==> entries[i].id != x) ==>
      ColumnOf(AllApplied(l, entries), x) == ColumnOf(l, x)
    ensures forall i :: 0 <= i < |entries| && entries[i].id == x ==>
      ColumnOf(AllApplied(l, entries), x) == AppliedIn(ColumnOf(l, x), entries[i])
    decreases |entries|
  {
    hide ColumnOf, Applied, AppliedIn;
    if entries != [] {
      var n := |entries| - 1;
      ColumnOfAllApplied(l, entries[..n], x);
      ColumnApplied(AllApplied(l, entries[..n]), entries[n], x);
    }
  }

  lemma {:induction false} ColumnOfAllRolledBack(l: Lookup, entries: seq<ClaimEntry>, x: Bytes)
    requires DistinctIds(entries)
    ensures (forall i :: 0 <= i < |entries| ==> entries[i].id != x) ==>
      ColumnOf(AllRolledBack(l, entries), x) == ColumnOf(l, x)
    ensures forall i :: 0 <= i < |entries| && entries[i].id == x ==>
      ColumnOf(AllRolledBack(l, entries), x) == RolledBackIn(ColumnOf(l, x), entries[i])
    decreases |entries|
  {
    hide ColumnOf, RolledBack, RolledBackIn;
    if entries != [] {
      var n := |entries| - 1;
      ColumnOfAllRolledBack(l, entries[..n], x);
      ColumnRolledBack(AllRolledBack(l, entries[..n]), entries[n], x);
    }
  }

  /** The column of one claim of a batch after claim and rollback. */
  lemma ColumnUndone(l: Lookup, entries: seq<ClaimEntry>, x: Bytes)
    requires DistinctIds(entries)
    ensures var after := ColumnOf(AllRolledBack(AllApplied(l, entries), entries), x);
      && ((forall i :: 0 <= i < |entries| ==> entries[i].id != x) ==> after == ColumnOf(l, x))
      && forall i :: 0 <= i < |entries| && entries[i].id == x ==> (after == ColumnOf(l, x) <==> Undoable(l, entries[i]))
  {
    hide ColumnOf, AllApplied, AllRolledBack, AppliedIn, RolledBackIn, UndoableIn;
    ColumnOfAllApplied(l, entries, x);
    ColumnOfAllRolledBack(AllApplied(l, entries), entries, x);
    forall i | 0 <= i < |entries| && entries[i].id == x
      ensures ColumnOf(AllRolledBack(AllApplied(l, entries), entries), x) == ColumnOf(l, x) <==> Undoable(l, entries[i])
    {
      OneUndone(ColumnOf(l, x), entries[i]);
    }
  }

  /** Rolling back a batch of claims restores the lookup exactly when each claim is undoable. */
  lemma RollbackUndoesClaim(l: Lookup, entries: seq<ClaimEntry>)
    requires Tidy(l) && DistinctIds(entries)
    ensures AllRolledBack(AllApplied(l, entries), entries) == l
       <==> forall i :: 0 <= i < |entries| ==> Undoable(l, entries[i])
  {
    hide ColumnOf, AllApplied, AllRolledBack, Undoable, Tidy, DistinctIds;
    var after := AllRolledBack(AllApplied(l, entries), entries);
    if after == l {
      forall i | 0 <= i < |entries| ensures Undoable(l, entries[i]) {
        ColumnUndone(l, entries, entries[i].id);
      }
    }
    if forall i :: 0 <= i < |entries| ==> Undoable(l, entries[i]) {
      forall x ensures ColumnOf(after, x) == ColumnOf(l, x) {
        ColumnUndone(l, entries, x);
      }
      StaysTidy(l, entries);
      ColumnsDetermine(after, l);
    }
  }

  /** A flow that was already listed under its inflight key is not any more after the rollback. */
  lemma InflightEntryIsLost(l: Lookup, e: ClaimEntry)
    requires Tidy(l) && Has(l, e.inflightKey, e.id) && e.inflightKey != e.fromStateKey
    ensures !Has(AllRolledBack(AllApplied(l, [e]), [e]), e.inflightKey, e.id)
  {
    hide Applied, RolledBack, AppliedIn, RolledBackIn, ColumnOf;
    assert [e][..0] == [];
    ColumnApplied(l, e, e.id);
    ColumnRolledBack(Applied(l, e), e, e.id);
    RestoredKeys(ColumnOf(l, e.id), e, e.inflightKey);
    ColumnHas(RolledBack(Applied(l, e), e), e.inflightKey, e.id);
  }

  lemma ColumnHas(l: Lookup, key: Bytes, member: Bytes)
    ensures Has(l, key, member) <==> key in ColumnOf(l, member)
  {}

  lemma PutTidy(l: Lookup, key: Bytes, member: Bytes, score: Score)
    requires Tidy(l)
    ensures Tidy(PutNew(l, key, member, score))
  {}

  lemma AppliedTidy(l: Lookup, e: ClaimEntry)
    requires Tidy(l)
    ensures Tidy(Applied(l, e)) && Tidy(RolledBack(l, e))
  {
    hide Tidy, PutNew, Removed;
    forall l, key, member, score | Tidy(l) ensures Tidy(PutNew(l, key, member, score)) {
      PutTidy(l, key, member, score);
    }
    forall l, key, member | Tidy(l) ensures Tidy(Removed(l, key, member)) {
      RemovedHolds(l, key, member);
    }
  }

  lemma {:induction false} AllAppliedTidy(l: Lookup, entries: seq<ClaimEntry>)
    requires Tidy(l)
    ensures Tidy(AllApplied(l, entries)) && Tidy(AllRolledBack(l, entries))
    decreases |entries|
  {
    hide Tidy, Applied, RolledBack;
    if entries != [] {
      var n := |entries| - 1;
      AllAppliedTidy(l, entries[..n]);
      AppliedTidy(AllApplied(l, entries[..n]), entries[n]);
      AppliedTidy(AllRolledBack(l, entries[..n]), entries[n]);
    }
  }

  lemma StaysTidy(l: Lookup, entries: seq<ClaimEntry>)
    requires Tidy(l)
    ensures Tidy(AllRolledBack(AllApplied(l, entries), entries))
  {
    AllAppliedTidy(l, entries);
    AllAppliedTidy(AllApplied(l, entries), entries);
  }

  /** The same on the index itself: every structure is back, counts up to explicit zeros. */
  method ClaimAndRollBack(index: FlowOrderedIndex, entries: seq<ClaimEntry>)
    requires index.Valid() && Room(index.lookup, 8 * |entries| + 1) && DistinctIds(entries)
    requires forall i :: 0 <= i < |entries| ==> Undoable(index.lookup, entries[i])
    modifies index
    ensures index.Valid()
    ensures index.lookup == old(index.lookup) && index.ordered == old(index.ordered)
    ensures index.positive == old(index.positive) && index.positiveDue == old(index.positiveDue)
    ensures forall key :: CountOf(index.counts, key) == CountOf(old(index.counts), key)
  {
    hide Room, Undoable, Image, Catalogued, Balanced, AllApplied, AllRolledBack;
    ghost var l := index.lookup;
    ghost var ordered, counts, positive, positiveDue := index.ordered, index.counts, index.positive, index.positiveDue;
    RoomIsEnough(l, 8 * |entries| + 1, 4 * |entries| + 1);
    AppliedRoom(l, entries, 4 * |entries| + 1);
    ApplyClaimEntries(index, entries);
    RoomIsEnough(index.lookup, 4 * |entries| + 1, 2 * |entries| + 1);
    RollBackClaimEntries(index, entries);
    RollbackUndoesClaim(l, entries);
    LookupDetermines(l, index.ordered, index.counts, index.positive, index.positiveDue,
                     ordered, counts, positive, positiveDue);
  }

  lemma OneRoom(l: Lookup, e: ClaimEntry, n: nat)
    requires Tidy(l) && Room(l, n + 4)
    ensures Tidy(Applied(l, e)) && Room(Applied(l, e), n)
  {
    hide Room, Tidy, Inserted, Removed;
    var r1 := Removed(l, e.fromDueKey, e.id);
    var l1 := PutNew(r1, e.toDueKey, e.id, e.toDueScore);
    var r2 := Removed(l1, e.fromStateKey, e.id);
    var l2 := PutNew(r2, e.toStateKey, e.id, e.toStateScore);
    var l3 := PutNew(l2, e.inflightKey, e.id, e.leaseScore);
    RemovedHolds(l, e.fromDueKey, e.id);
    RemovedRoom(l, e.fromDueKey, e.id, n + 4);
    InsertedHolds(r1, e.toDueKey, e.id, e.toDueScore);
    RoomShrinks(r1, e.toDueKey, e.id, e.toDueScore, n + 3);
    RemovedHolds(l1, e.fromStateKey, e.id);
    RemovedRoom(l1, e.fromStateKey, e.id, n + 3);
    InsertedHolds(r2, e.toStateKey, e.id, e.toStateScore);
    RoomShrinks(r2, e.toStateKey, e.id, e.toStateScore, n + 2);
    InsertedHolds(l2, e.inflightKey, e.id, e.leaseScore);
    RoomShrinks(l2, e.inflightKey, e.id, e.leaseScore, n + 1);
    InsertedHolds(l3, e.workerKey, e.id, e.leaseScore);
    RoomShrinks(l3, e.workerKey, e.id, e.leaseScore, n);
  }

  lemma {:induction false} AppliedRoom(l: Lookup, entries: seq<ClaimEntry>, n: nat)
    requires Tidy(l) && Room(l, 4 * |entries| + n)
    ensures Tidy(AllApplied(l, entries)) && Room(AllApplied(l, entries), n)
    decreases |entries|
  {
    hide Room, Tidy, Applied;
    if entries != [] {
      var m := |entries| - 1;
      AppliedRoom(l, entries[..m], n + 4);
      OneRoom(AllApplied(l, entries[..m]), entries[m], n);
    }
  }
}
