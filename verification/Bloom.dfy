/** Bloom filters: the bit set an element owns, adding elements one at a time, and what a
    filter promises over its whole life. The two hash functions are parameters. */
module Bloom {
  import opened Bytes

  const MAX_NUM_HASHES: nat := 1024
  const MAX_BLOOM_BITS: nat := 0x2_0000_0000
  const MAX_BLOOM_HASH_VISITS: nat := 131_072

  datatype Filter = Filter(numBits: nat, numHashes: nat, h1: Bytes -> u64, h2: Bytes -> u64) {
    predicate Valid() { 0 < numBits <= MAX_BLOOM_BITS && 0 < numHashes <= MAX_NUM_HASHES }

    /** h1 + i * h2 in wrapping 64-bit arithmetic, modulo the number of bits. */
    function Position(e: Bytes, i: nat): (p: nat)
      requires numBits > 0
      ensures p < numBits
    {
      ((h1(e) + i * h2(e)) % (U64_MAX + 1)) % numBits
    }

    /** The first `k` positions of an element. */
    ghost function Positions(e: Bytes, k: nat): (s: set<nat>)
      requires numBits > 0
      ensures forall p :: p in s ==> p < numBits
    {
      if k == 0 then {} else Positions(e, k - 1) + {Position(e, k - 1)}
    }

    ghost function Owned(e: Bytes): set<nat>
      requires numBits > 0
    {
      Positions(e, numHashes)
    }
  }

  /** The bits of an element are its first `numHashes` positions. */
  lemma OwnedExactly(f: Filter, e: Bytes, p: nat)
    requires f.Valid()
    ensures p in f.Owned(e) <==> exists i :: 0 <= i < f.numHashes && p == f.Position(e, i)
  {
    PositionsExactly(f, e, p, f.numHashes);
  }

  lemma {:induction false} PositionsExactly(f: Filter, e: Bytes, p: nat, k: nat)
    requires f.Valid()
    ensures p in f.Positions(e, k) <==> exists i :: 0 <= i < k && p == f.Position(e, i)
  {
    hide Filter.Position;
    if k > 0 {
      PositionsExactly(f, e, p, k - 1);
    }
  }

  /** The bits that are set and the number of additions that set one. */
  datatype State = State(bits: set<nat>, count: nat)

  /** Add one element; the answer says whether a bit was new. */
  ghost function AddOne(f: Filter, st: State, e: Bytes): (State, bool)
    requires f.Valid()
  {
    var novel := !(f.Owned(e) <= st.bits);
    (State(st.bits + f.Owned(e), st.count + if novel then 1 else 0), novel)
  }

  /** A batch, one element at a time. */
  ghost function AddAll(f: Filter, st: State, elements: seq<Bytes>): (r: (State, seq<bool>))
    requires f.Valid()
    ensures |r.1| == |elements|
  {
    if elements == [] then (st, [])
    else
      var n := |elements| - 1;
      var (mid, answers) := AddAll(f, st, elements[..n]);
      var (last, answer) := AddOne(f, mid, elements[n]);
      (last, answers + [answer])
  }

  /** `bloom_file_exists`: all bits of the element are set. */
  ghost predicate Reported(f: Filter, st: State, e: Bytes)
    requires f.Valid()
  {
    f.Owned(e) <= st.bits
  }

  // ---------------------------------------------------------------------
  // Whole lives
  // ---------------------------------------------------------------------

  /** Only a batch within the work limit is executed. */
  predicate Allowed(f: Filter, elements: seq<Bytes>) {
    |elements| * f.numHashes <= MAX_BLOOM_HASH_VISITS
  }

  ghost function Life(f: Filter, batches: seq<seq<Bytes>>): State
    requires f.Valid()
  {
    if batches == [] then State({}, 0)
    else
      var st, last := Life(f, batches[..|batches| - 1]), batches[|batches| - 1];
      if Allowed(f, last) then AddAll(f, st, last).0 else st
  }

  ghost predicate Added(f: Filter, batches: seq<seq<Bytes>>, e: Bytes) {
    exists i :: 0 <= i < |batches| && Allowed(f, batches[i]) && e in batches[i]
  }

  ghost predicate Inv(f: Filter, st: State) {
    (forall p :: p in st.bits ==> p < f.numBits) && st.count <= |st.bits|
  }

  lemma OneKeeps(f: Filter, st: State, e: Bytes)
    requires f.Valid() && Inv(f, st)
    ensures Inv(f, AddOne(f, st, e).0)
  {
    var st' := AddOne(f, st, e).0;
    assert st.bits <= st'.bits;
    Larger(st.bits, st'.bits);
  }

  lemma Larger(a: set<nat>, b: set<nat>)
    requires a <= b
    ensures |a| <= |b| && (a != b ==> |a| < |b|)
  {
    assert b == a + (b - a);
    assert a != b ==> b - a != {};
  }

  lemma {:induction false} BatchKeeps(f: Filter, st: State, elements: seq<Bytes>)
    requires f.Valid() && Inv(f, st)
    ensures Inv(f, AddAll(f, st, elements).0)
    decreases |elements|
  {
    if elements != [] {
      BatchKeeps(f, st, elements[..|elements| - 1]);
      OneKeeps(f, AddAll(f, st, elements[..|elements| - 1]).0, elements[|elements| - 1]);
    }
  }

  lemma {:induction false} BatchAdds(f: Filter, st: State, elements: seq<Bytes>, e: Bytes)
    requires f.Valid() && (e in elements || Reported(f, st, e))
    ensures Reported(f, AddAll(f, st, elements).0, e)
    decreases |elements|
  {
    if elements != [] {
      var n := |elements| - 1;
      assert elements == elements[..n] + [elements[n]];
      if e in elements[..n] || Reported(f, st, e) {
        BatchAdds(f, st, elements[..n], e);
      }
    }
  }

  // ---------------------------------------------------------------------
  // What a batch sets and answers
  // ---------------------------------------------------------------------

  /** The bit was set before or belongs to one of the elements. */
  ghost predicate Covered(f: Filter, bits: set<nat>, elements: seq<Bytes>, p: nat)
    requires f.Valid()
  {
    p in bits || exists j :: 0 <= j < |elements| && p in f.Owned(elements[j])
  }

  /** Element `i` has a bit that was neither set before the batch nor belongs to an element before it. */
  ghost predicate Novel(f: Filter, bits: set<nat>, elements: seq<Bytes>, i: nat)
    requires f.Valid() && i < |elements|
  {
    exists p :: p in f.Owned(elements[i]) && !Covered(f, bits, elements[..i], p)
  }

  ghost predicate TellsNovelty(f: Filter, bits: set<nat>, elements: seq<Bytes>, answers: seq<bool>)
    requires f.Valid()
  {
    |answers| == |elements| && forall i :: 0 <= i < |elements| ==> (answers[i] <==> Novel(f, bits, elements, i))
  }

  function Trues(answers: seq<bool>): set<nat> { set i | 0 <= i < |answers| && answers[i] }

  lemma TruesExtend(answers: seq<bool>, answer: bool)
    ensures |Trues(answers + [answer])| == |Trues(answers)| + if answer then 1 else 0
  {
    var a, b := Trues(answers), Trues(answers + [answer]);
    if answer {
      assert b == a + {|answers|};
    } else {
      assert a == b;
    }
  }

  /** A batch sets the bits of its elements and no others. */
  lemma {:induction false} BatchBits(f: Filter, st: State, elements: seq<Bytes>)
    requires f.Valid()
    ensures forall p :: p in AddAll(f, st, elements).0.bits <==> Covered(f, st.bits, elements, p)
    decreases |elements|
  {
    if elements != [] {
      var n := |elements| - 1;
      BatchBits(f, st, elements[..n]);
      forall p ensures Covered(f, st.bits, elements, p) <==> Covered(f, st.bits, elements[..n], p) || p in f.Owned(elements[n]) {
        CoveredExtends(f, st.bits, elements, p);
      }
    }
  }

  lemma CoveredExtends(f: Filter, bits: set<nat>, elements: seq<Bytes>, p: nat)
    requires f.Valid() && elements != []
    ensures var n := |elements| - 1;
      Covered(f, bits, elements, p) <==> Covered(f, bits, elements[..n], p) || p in f.Owned(elements[n])
  {
    var n := |elements| - 1;
    forall j | 0 <= j < n ensures elements[..n][j] == elements[j] {}
  }

  /** Answer `i` says whether element `i` was new, and the count rises by the number of elements that were. */
  lemma {:induction false} BatchAnswers(f: Filter, st: State, elements: seq<Bytes>)
    requires f.Valid()
    ensures var (st', answers) := AddAll(f, st, elements);
      && TellsNovelty(f, st.bits, elements, answers)
      && st'.count == st.count + |Trues(answers)|
    decreases |elements|
  {
    var (st', answers) := AddAll(f, st, elements);
    if elements == [] {
      assert Trues(answers) == {};
    } else {
      var n := |elements| - 1;
      BatchAnswers(f, st, elements[..n]);
      BatchBits(f, st, elements[..n]);
      TruesExtend(answers[..n], answers[n]);
      assert answers == answers[..n] + [answers[n]];
      forall i | 0 <= i < n ensures Novel(f, st.bits, elements[..n], i) <==> Novel(f, st.bits, elements, i) {
        assert elements[..n][..i] == elements[..i];
      }
    }
  }

  lemma {:induction false} InBounds(bits: set<nat>, n: nat)
    requires forall p :: p in bits ==> p < n
    ensures |bits| <= n
  {
    if n == 0 {
      assert bits == {};
    } else {
      InBounds(bits - {n - 1}, n - 1);
    }
  }

  /** Over every life: no added element is ever reported absent, and the count never
      exceeds the set bits, so the header check on it never refuses the file. */
  lemma {:induction false} NoFalseNegatives(f: Filter, batches: seq<seq<Bytes>>)
    requires f.Valid()
    ensures forall e :: Added(f, batches, e) ==> Reported(f, Life(f, batches), e)
    ensures Inv(f, Life(f, batches)) && Life(f, batches).count <= |Life(f, batches).bits| <= f.numBits
    decreases |batches|
  {
    hide AddAll;
    if batches != [] {
      var n := |batches| - 1;
      NoFalseNegatives(f, batches[..n]);
      var st := Life(f, batches[..n]);
      if Allowed(f, batches[n]) {
        BatchKeeps(f, st, batches[n]);
      }
      forall e | Added(f, batches, e) ensures Reported(f, Life(f, batches), e) {
        AddedSplit(f, batches, e);
        if Allowed(f, batches[n]) {
          BatchAdds(f, st, batches[n], e);
        }
      }
    }
    InBounds(Life(f, batches).bits, f.numBits);
  }

  /** An element is reported exactly if every one of its bits belongs to an element that was added. */
  lemma {:induction false} ReportedExactly(f: Filter, batches: seq<seq<Bytes>>, e: Bytes)
    requires f.Valid()
    ensures Reported(f, Life(f, batches), e) <==>
      forall p :: p in f.Owned(e) ==> exists x :: Added(f, batches, x) && p in f.Owned(x)
  {
    forall p ensures p in Life(f, batches).bits <==> exists x :: Added(f, batches, x) && p in f.Owned(x) {
      BitWasAdded(f, batches, p);
    }
  }

  lemma {:induction false} BitWasAdded(f: Filter, batches: seq<seq<Bytes>>, p: nat)
    requires f.Valid()
    ensures p in Life(f, batches).bits <==> exists x :: Added(f, batches, x) && p in f.Owned(x)
    decreases |batches|
  {
    hide AddAll;
    if batches != [] {
      var n := |batches| - 1;
      BitWasAdded(f, batches[..n], p);
      BatchBits(f, Life(f, batches[..n]), batches[n]);
      forall x ensures Added(f, batches, x) <==> Added(f, batches[..n], x) || (Allowed(f, batches[n]) && x in batches[n]) {
        AddedSplit(f, batches, x);
      }
    }
  }

  lemma AddedSplit(f: Filter, batches: seq<seq<Bytes>>, e: Bytes)
    requires batches != []
    ensures var n := |batches| - 1;
      Added(f, batches, e) <==> Added(f, batches[..n], e) || (Allowed(f, batches[n]) && e in batches[n])
  {}

  /** Adding an element again changes nothing and answers that nothing was new. */
  lemma AddingAgain(f: Filter, st: State, e: Bytes)
    requires f.Valid() && Reported(f, st, e)
    ensures AddOne(f, st, e) == (st, false)
  {
    assert st.bits + f.Owned(e) == st.bits;
  }
}
