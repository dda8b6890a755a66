/** The indexed min-heap of TopK: a binary heap ordered by (count, element)
    together with the position of every element, and the map model that says
    what it holds and what it evicts. */
module IndexedHeap {
  import opened Bytes

  datatype Entry = Entry(element: Bytes, count: i64)

  predicate Precedes(left: Entry, right: Entry) {
    left.count < right.count || (left.count == right.count && LexLess(left.element, right.element))
  }

  predicate AtMost(left: Entry, right: Entry) {
    !Precedes(right, left)
  }

  lemma AtMostTransitive(a: Entry, b: Entry, c: Entry)
    requires AtMost(a, b) && AtMost(b, c)
    ensures AtMost(a, c)
  {
    LexTotal(a.element, b.element);
    LexTotal(b.element, c.element);
    LexTotal(a.element, c.element);
    if LexLess(a.element, b.element) && LexLess(b.element, c.element) {
      LexTransitive(a.element, b.element, c.element);
    }
  }

  lemma AtMostTotal(a: Entry, b: Entry)
    ensures AtMost(a, b) || AtMost(b, a)
    ensures AtMost(a, b) && AtMost(b, a) ==> a == b
    ensures AtMost(a, b) && a.element != b.element ==> Precedes(a, b)
  {
    LexTotal(a.element, b.element);
  }

  // ---------------------------------------------------------------------
  // The model: a bounded map that evicts its least (count, element)
  // ---------------------------------------------------------------------

  type Model = map<Bytes, i64>

  ghost predicate IsLeast(m: Model, e: Bytes) {
    e in m && forall x :: x in m ==> AtMost(Entry(e, m[e]), Entry(x, m[x]))
  }

  lemma LeastIsUnique(m: Model, a: Bytes, b: Bytes)
    requires IsLeast(m, a) && IsLeast(m, b)
    ensures a == b
  {
    AtMostTotal(Entry(a, m[a]), Entry(b, m[b]));
  }

  lemma {:induction false} LeastExists(m: Model)
    requires m != map[]
    ensures exists e :: IsLeast(m, e)
    decreases |m|
  {
    var x :| x in m;
    var rest := m - {x};
    if rest == map[] {
      assert forall y :: y in m ==> y == x || y in rest;
      LexIrreflexive(x);
      assert IsLeast(m, x);
    } else {
      assert |rest| < |m|;
      LeastExists(rest);
      var y :| IsLeast(rest, y);
      var a, b := Entry(x, m[x]), Entry(y, m[y]);
      AtMostTotal(a, b);
      LexIrreflexive(x);
      forall z | z in m ensures AtMost(if AtMost(a, b) then a else b, Entry(z, m[z])) {
        if z != x {
          assert z in rest && AtMost(b, Entry(z, m[z]));
          if AtMost(a, b) {
            AtMostTransitive(a, b, Entry(z, m[z]));
          }
        }
      }
      assert IsLeast(m, if AtMost(a, b) then x else y);
    }
  }

  ghost function LeastOf(m: Model): (e: Bytes)
    requires m != map[]
    ensures IsLeast(m, e)
  {
    LeastExists(m);
    var e :| IsLeast(m, e);
    e
  }

  /** What adding `element` with estimate `estimated` gives, and what it evicts. */
  ghost function AddTo(m: Model, capacity: nat, element: Bytes, estimated: i64): (Model, Option<Bytes>)
    requires capacity > 0
  {
    if element in m || |m| < capacity then (m[element := estimated], None)
    else if estimated <= m[LeastOf(m)] then (m, None)
    else ((m - {LeastOf(m)})[element := estimated], Some(LeastOf(m)))
  }

  /** What offering an element means for what is held before and after. A held or fitting
      element is stored and nothing leaves; a full heap keeps out an element that beats no
      count, and otherwise gives up the one entry below all others by count, then by bytes. */
  ghost predicate Offered(before: Model, after: Model, capacity: nat, element: Bytes, estimated: i64, evicted: Option<Bytes>) {
    && (forall y :: y in after && y != element ==> y in before && after[y] == before[y])
    && (element in after ==> after[element] == estimated)
    && match evicted
       case None =>
         && before.Keys <= after.Keys
         && (element in before || |before| < capacity ==> element in after)
         && (element !in after ==> forall y :: y in before ==> estimated <= before[y])
         && (element !in before && |before| >= capacity ==> element !in after)
       case Some(x) =>
         && x in before && x !in after && x != element && after.Keys == before.Keys - {x} + {element}
         && element !in before && |before| >= capacity && before[x] < estimated
         && forall y :: y in before && y != x ==>
              before[x] < before[y] || (before[x] == before[y] && LexLess(x, y))
  }

  lemma AddToOffers(m: Model, capacity: nat, element: Bytes, estimated: i64)
    requires capacity > 0
    ensures var (after, evicted) := AddTo(m, capacity, element, estimated);
      Offered(m, after, capacity, element, estimated, evicted)
  {
    if element !in m && |m| >= capacity {
      var x := LeastOf(m);
      forall y | y in m && y != x ensures m[x] < m[y] || (m[x] == m[y] && LexLess(x, y)) {
        AtMostTotal(Entry(x, m[x]), Entry(y, m[y]));
      }
    }
  }

  // ---------------------------------------------------------------------
  // The array and its index
  // ---------------------------------------------------------------------

  function Parent(i: nat): nat
    requires i > 0
  {
    (i - 1) / 2
  }

  ghost predicate Heap(s: seq<Entry>) {
    HeapFrom(s, 0)
  }

  /** Every child whose parent is at `lo` or later is in order. */
  ghost predicate HeapFrom(s: seq<Entry>, lo: nat) {
    forall i :: 0 < i < |s| && lo <= Parent(i) ==> AtMost(s[Parent(i)], s[i])
  }

  /** As `HeapFrom`, except for `hole` against its children; those are in order with its parent. */
  ghost predicate HoleDown(s: seq<Entry>, lo: nat, hole: nat) {
    && (forall i :: 0 < i < |s| && lo <= Parent(i) && Parent(i) != hole ==> AtMost(s[Parent(i)], s[i]))
    && (forall i :: 0 < i < |s| && Parent(i) == hole && hole > 0 && lo <= Parent(hole) ==>
          AtMost(s[Parent(hole)], s[i]))
  }

  /** A heap except for `hole` against its parent; its children are in order with that parent. */
  ghost predicate HoleUp(s: seq<Entry>, hole: nat) {
    && (forall i :: 0 < i < |s| && i != hole ==> AtMost(s[Parent(i)], s[i]))
    && (forall i :: 0 < i < |s| && Parent(i) == hole && hole > 0 ==> AtMost(s[Parent(hole)], s[i]))
  }

  lemma {:induction false} RootIsLeast(s: seq<Entry>, i: nat)
    requires Heap(s) && i < |s|
    ensures AtMost(s[0], s[i])
    decreases i
  {
    if i > 0 {
      RootIsLeast(s, Parent(i));
      AtMostTransitive(s[0], s[Parent(i)], s[i]);
    } else {
      LexIrreflexive(s[0].element);
    }
  }

  /** `positions` is exactly the inverse of the array. */
  ghost predicate Indexed(s: seq<Entry>, positions: map<Bytes, nat>) {
    && (forall e :: e in positions ==> positions[e] < |s| && s[positions[e]].element == e)
    && (forall i :: 0 <= i < |s| ==> s[i].element in positions && positions[s[i].element] == i)
  }

  ghost function Contents(s: seq<Entry>, positions: map<Bytes, nat>): Model
    requires Indexed(s, positions)
  {
    map e | e in positions :: s[positions[e]].count
  }

  predicate Distinct(s: seq<Entry>) {
    forall i, j :: 0 <= i < j < |s| ==> s[i].element != s[j].element
  }

  /** The model of a stored entry list. */
  ghost function ModelOf(s: seq<Entry>): (m: Model)
    requires Distinct(s)
  {
    map i | 0 <= i < |s| :: s[i].element := s[i].count
  }

  lemma {:induction false} IndexedSize(s: seq<Entry>, positions: map<Bytes, nat>)
    requires Indexed(s, positions)
    ensures |positions| == |s|
    decreases |s|
  {
    if s == [] {
      assert positions == map[];
    } else {
      var n := |s| - 1;
      var last := s[n].element;
      var rest := positions - {last};
      assert Indexed(s[..n], rest);
      IndexedSize(s[..n], rest);
      assert positions.Keys == rest.Keys + {last};
      assert |positions| == |rest| + 1;
    }
  }

  lemma ContentsSize(s: seq<Entry>, positions: map<Bytes, nat>)
    requires Indexed(s, positions)
    ensures |Contents(s, positions)| == |s|
  {
    IndexedSize(s, positions);
    assert Contents(s, positions).Keys == positions.Keys;
  }

  lemma ContentsIsModel(s: seq<Entry>, positions: map<Bytes, nat>)
    requires Indexed(s, positions)
    ensures Distinct(s) && Contents(s, positions) == ModelOf(s)
  {}

  lemma {:induction false} ModelSize(s: seq<Entry>)
    requires Distinct(s)
    ensures |ModelOf(s)| == |s|
    decreases |s|
  {
    if s != [] {
      ModelStep(s);
      hide Distinct, ModelOf;
      ModelSize(s[..|s| - 1]);
    }
  }

  lemma ModelStep(s: seq<Entry>)
    requires Distinct(s) && s != []
    ensures var n := |s| - 1; var e := s[n];
      && Distinct(s[..n]) && e.element !in ModelOf(s[..n]) && ModelOf(s) == ModelOf(s[..n])[e.element := e.count]
  {}

  lemma RootIsModelLeast(s: seq<Entry>, positions: map<Bytes, nat>)
    requires Heap(s) && Indexed(s, positions) && s != []
    ensures IsLeast(Contents(s, positions), s[0].element)
  {
    var m := Contents(s, positions);
    forall x | x in m ensures AtMost(s[0], Entry(x, m[x])) {
      RootIsLeast(s, positions[x]);
      assert s[positions[x]] == Entry(x, m[x]);
    }
  }

  function Swapped(s: seq<Entry>, i: nat, j: nat): (t: seq<Entry>)
    requires i < |s| && j < |s|
    ensures |t| == |s|
    ensures forall k :: 0 <= k < |s| ==> t[k] == s[if k == i then j else if k == j then i else k]
  {
    s[i := s[j]][j := s[i]]
  }

  function Repositioned(s: seq<Entry>, positions: map<Bytes, nat>, i: nat, j: nat): map<Bytes, nat>
    requires i < |s| && j < |s|
  {
    positions[s[j].element := i][s[i].element := j]
  }

  lemma SwapKeepsIndex(s: seq<Entry>, positions: map<Bytes, nat>, i: nat, j: nat)
    requires Indexed(s, positions) && i < |s| && j < |s| && i != j
    ensures Indexed(Swapped(s, i, j), Repositioned(s, positions, i, j))
    ensures Contents(Swapped(s, i, j), Repositioned(s, positions, i, j)) == Contents(s, positions)
  {}

  // ---------------------------------------------------------------------
  // One step of each sift loop
  // ---------------------------------------------------------------------

  /** The child that `sift_down` compares with. */
  function SmallerChild(s: seq<Entry>, i: nat): (c: nat)
    requires 2 * i + 1 < |s|
    ensures c < |s| && (c == 2 * i + 1 || c == 2 * i + 2)
    ensures Parent(c) == i
  {
    var left, right := 2 * i + 1, 2 * i + 2;
    if right < |s| && Precedes(s[right], s[left]) then right else left
  }

  lemma SmallerChildIsLeast(s: seq<Entry>, i: nat, j: nat)
    requires 2 * i + 1 < |s| && 0 < j < |s| && Parent(j) == i
    ensures AtMost(s[SmallerChild(s, i)], s[j])
  {
    AtMostTotal(s[SmallerChild(s, i)], s[j]);
    LexIrreflexive(s[j].element);
  }

  lemma DownStops(s: seq<Entry>, lo: nat, hole: nat)
    requires HoleDown(s, lo, hole)
    requires 2 * hole + 1 < |s| ==> !Precedes(s[SmallerChild(s, hole)], s[hole])
    ensures HeapFrom(s, lo)
  {
    forall i | 0 < i < |s| && Parent(i) == hole ensures AtMost(s[hole], s[i]) {
      SmallerChildIsLeast(s, hole, i);
      AtMostTransitive(s[hole], s[SmallerChild(s, hole)], s[i]);
    }
  }

  lemma DownStep(s: seq<Entry>, lo: nat, hole: nat)
    requires HoleDown(s, lo, hole) && lo <= hole && 2 * hole + 1 < |s|
    requires Precedes(s[SmallerChild(s, hole)], s[hole])
    ensures HoleDown(Swapped(s, hole, SmallerChild(s, hole)), lo, SmallerChild(s, hole))
  {
    var child := SmallerChild(s, hole);
    var t := Swapped(s, hole, child);
    forall i | 0 < i < |s| && lo <= Parent(i) && Parent(i) != child ensures AtMost(t[Parent(i)], t[i]) {
      if Parent(i) == hole {
        SmallerChildIsLeast(s, hole, i);
        AtMostTotal(s[child], s[hole]);
      }
    }
    forall i | 0 < i < |s| && Parent(i) == child ensures AtMost(t[Parent(child)], t[i]) {
      assert AtMost(s[child], s[i]);
    }
  }

  lemma UpStep(s: seq<Entry>, hole: nat)
    requires HoleUp(s, hole) && 0 < hole < |s| && Precedes(s[hole], s[Parent(hole)])
    ensures HoleUp(Swapped(s, hole, Parent(hole)), Parent(hole))
  {
    var up := Parent(hole);
    var t := Swapped(s, hole, up);
    AtMostTotal(s[hole], s[up]);
    forall i | 0 < i < |s| && i != up ensures AtMost(t[Parent(i)], t[i]) {
      if Parent(i) == up && i != hole {
        AtMostTransitive(s[hole], s[up], s[i]);
      }
    }
    forall i | 0 < i < |s| && Parent(i) == up && up > 0 ensures AtMost(t[Parent(up)], t[i]) {
      if i != hole {
        AtMostTransitive(s[Parent(up)], s[up], s[i]);
      }
    }
  }

  // ---------------------------------------------------------------------
  // The heap
  // ---------------------------------------------------------------------

  class V2IndexedHeap {
    var entries: seq<Entry>
    var positions: map<Bytes, nat>
    const capacity: nat

    ghost predicate Valid()
      reads this
    {
      Indexed(entries, positions) && Heap(entries) && |entries| <= capacity
    }

    ghost function Model(): Model
      requires Indexed(entries, positions)
      reads this
    {
      Contents(entries, positions)
    }

    constructor Stored(entries: seq<Entry>, positions: map<Bytes, nat>, capacity: nat)
      ensures this.entries == entries && this.positions == positions && this.capacity == capacity
    {
      this.entries, this.positions, this.capacity := entries, positions, capacity;
    }

    /** The position of every element, or None if one is repeated. */
    static method BuildIndex(entries: seq<Entry>) returns (r: Option<map<Bytes, nat>>)
      ensures r.Some? <==> Distinct(entries)
      ensures r.Some? ==> Indexed(entries, r.value) && Contents(entries, r.value) == ModelOf(entries)
    {
      var positions: map<Bytes, nat> := map[];
      for n := 0 to |entries|
        invariant Distinct(entries[..n]) && Indexed(entries[..n], positions)
      {
        if entries[n].element in positions {
          assert entries[positions[entries[n].element]].element == entries[n].element;
          return None;
        }
        positions := positions[entries[n].element := n];
      }
      assert entries[..|entries|] == entries;
      return Some(positions);
    }

    /** `new`: refuses too many entries or a repeated element, otherwise heapifies. */
    static method New(entries: seq<Entry>, capacity: nat) returns (r: Option<V2IndexedHeap>)
      ensures r.Some? <==> |entries| <= capacity && Distinct(entries)
      ensures r.Some? ==> fresh(r.value) && r.value.Valid() && r.value.capacity == capacity
      ensures r.Some? ==> r.value.Model() == ModelOf(entries)
    {
      if |entries| > capacity { return None; }
      var positions := BuildIndex(entries);
      if positions.None? { return None; }
      var heap := new V2IndexedHeap.Stored(entries, positions.value, capacity);
      var index: nat := |entries| / 2;
      while index > 0
        invariant index <= |entries|
        invariant Indexed(heap.entries, heap.positions) && HeapFrom(heap.entries, index)
        invariant |heap.entries| == |entries| && heap.Model() == ModelOf(entries)
      {
        index := index - 1;
        heap.SiftDown(index, index);
      }
      return Some(heap);
    }

    method Swap(left: nat, right: nat)
      requires Indexed(entries, positions) && left < |entries| && right < |entries| && left != right
      modifies this
      ensures Indexed(entries, positions) && Model() == old(Model())
      ensures entries == Swapped(old(entries), left, right)
    {
      SwapKeepsIndex(entries, positions, left, right);
      positions := Repositioned(entries, positions, left, right);
      entries := Swapped(entries, left, right);
    }

    method SiftUp(start: nat)
      requires Indexed(entries, positions) && start < |entries| && HoleUp(entries, start)
      modifies this
      ensures Indexed(entries, positions) && Model() == old(Model())
      ensures Heap(entries) && |entries| == |old(entries)|
    {
      var index: nat := start;
      while index > 0
        invariant index < |entries| == |old(entries)|
        invariant Indexed(entries, positions) && Model() == old(Model())
        invariant HoleUp(entries, index)
      {
        var parent := (index - 1) / 2;
        if !Precedes(entries[index], entries[parent]) { return; }
        UpStep(entries, index);
        Swap(index, parent);
        index := parent;
      }
    }

    method SiftDown(start: nat, ghost lo: nat)
      requires Indexed(entries, positions) && lo <= start < |entries| && HoleDown(entries, lo, start)
      modifies this
      ensures Indexed(entries, positions) && Model() == old(Model())
      ensures HeapFrom(entries, lo) && |entries| == |old(entries)|
    {
      var index: nat := start;
      while true
        invariant lo <= index < |entries| == |old(entries)|
        invariant Indexed(entries, positions) && Model() == old(Model())
        invariant HoleDown(entries, lo, index)
        decreases |entries| - index
      {
        if 2 * index + 1 >= |entries| {
          DownStops(entries, lo, index);
          return;
        }
        var child := SmallerChild(entries, index);
        if !Precedes(entries[child], entries[index]) {
          DownStops(entries, lo, index);
          return;
        }
        DownStep(entries, lo, index);
        Swap(index, child);
        index := child;
      }
    }

    /** `add`: updates a held element, fills a free place, or replaces the least entry if it is beaten. */
    method Add(element: Bytes, estimated: i64) returns (evicted: Option<Bytes>)
      requires Valid() && capacity > 0
      modifies this
      ensures Valid()
      ensures (Model(), evicted) == AddTo(old(Model()), capacity, element, estimated)
      ensures Offered(old(Model()), Model(), capacity, element, estimated, evicted)
    {
      AddToOffers(Model(), capacity, element, estimated);
      hide Offered;
      ContentsSize(entries, positions);
      if element in positions {
        Update(positions[element], estimated);
        return None;
      }
      if |entries| < capacity {
        Push(element, estimated);
        return None;
      }
      RootIsModelLeast(entries, positions);
      LeastIsUnique(Model(), entries[0].element, LeastOf(Model()));
      if estimated <= entries[0].count { return None; }
      var least := ReplaceRoot(element, estimated);
      return Some(least);
    }

    method Update(index: nat, estimated: i64)
      requires Valid() && index < |entries|
      modifies this
      ensures Valid() && Model() == old(Model()[entries[index].element := estimated])
    {
      var previous := entries[index].count;
      RaisedOrLowered(entries, index, estimated);
      UpdatedContents(entries, positions, index, estimated);
      entries := entries[index := Entry(entries[index].element, estimated)];
      if estimated < previous {
        SiftUp(index);
      } else if estimated > previous {
        SiftDown(index, 0);
      }
    }

    method Push(element: Bytes, estimated: i64)
      requires Valid() && element !in positions && |entries| < capacity
      modifies this
      ensures Valid() && Model() == old(Model())[element := estimated]
    {
      var index := |entries|;
      AppendedIsHole(entries, Entry(element, estimated));
      AppendedContents(entries, positions, element, estimated);
      entries := entries + [Entry(element, estimated)];
      positions := positions[element := index];
      SiftUp(index);
    }

    method ReplaceRoot(element: Bytes, estimated: i64) returns (least: Bytes)
      requires Valid() && element !in positions && entries != [] && estimated > entries[0].count
      modifies this
      ensures Valid() && least == old(entries[0].element)
      ensures Model() == (old(Model()) - {least})[element := estimated]
    {
      least := entries[0].element;
      ReplacedContents(entries, positions, element, estimated);
      entries := entries[0 := Entry(element, estimated)];
      positions := (positions - {least})[element := 0];
      SiftDown(0, 0);
    }
  }

  lemma UpdatedContents(s: seq<Entry>, positions: map<Bytes, nat>, index: nat, count: i64)
    requires Indexed(s, positions) && index < |s|
    ensures var t := s[index := Entry(s[index].element, count)];
      Indexed(t, positions) && Contents(t, positions) == Contents(s, positions)[s[index].element := count]
  {}

  lemma AppendedContents(s: seq<Entry>, positions: map<Bytes, nat>, element: Bytes, count: i64)
    requires Indexed(s, positions) && element !in positions
    ensures var t, p := s + [Entry(element, count)], positions[element := |s|];
      Indexed(t, p) && Contents(t, p) == Contents(s, positions)[element := count]
  {}

  lemma ReplacedContents(s: seq<Entry>, positions: map<Bytes, nat>, element: Bytes, count: i64)
    requires Indexed(s, positions) && element !in positions && s != []
    ensures var t, p := s[0 := Entry(element, count)], (positions - {s[0].element})[element := 0];
      Indexed(t, p) && Contents(t, p) == (Contents(s, positions) - {s[0].element})[element := count]
  {}

  lemma RaisedOrLowered(s: seq<Entry>, index: nat, count: i64)
    requires Heap(s) && index < |s|
    ensures var t := s[index := Entry(s[index].element, count)];
      && (count <= s[index].count ==> HoleUp(t, index))
      && (count >= s[index].count ==> HoleDown(t, 0, index))
      && (count == s[index].count ==> t == s)
  {
    var t := s[index := Entry(s[index].element, count)];
    if count == s[index].count {
      assert t == s;
    }
    forall i | 0 < i < |s| && Parent(i) == index && index > 0 ensures AtMost(s[Parent(index)], s[i]) {
      AtMostTransitive(s[Parent(index)], s[index], s[i]);
    }
  }

  lemma AppendedIsHole(s: seq<Entry>, e: Entry)
    requires Heap(s)
    ensures HoleUp(s + [e], |s|)
  {}
}
