/** The compact form of Raft commands: terms of the Erlang external term format in which
    atoms and whole terms found in a frozen dictionary are replaced by references. */
module RaftCodec {
  import opened Bytes

  const MAGIC: byte := 0xFC
  const DICTIONARY_V1: byte := 1
  const ATOM_REF: byte := 1
  const TERM_REF: byte := 2
  const WIDE_ATOM_REF: byte := 3
  const MAX_DEPTH: nat := 128

  const VERSION_MAGIC: byte := 131
  const NEW_FLOAT_EXT: byte := 70
  const BIT_BINARY_EXT: byte := 77
  const SMALL_INTEGER_EXT: byte := 97
  const INTEGER_EXT: byte := 98
  const SMALL_TUPLE_EXT: byte := 104
  const LARGE_TUPLE_EXT: byte := 105
  const NIL_EXT: byte := 106
  const STRING_EXT: byte := 107
  const LIST_EXT: byte := 108
  const BINARY_EXT: byte := 109
  const SMALL_BIG_EXT: byte := 110
  const LARGE_BIG_EXT: byte := 111
  const MAP_EXT: byte := 116
  const ATOM_UTF8_EXT: byte := 118
  const SMALL_ATOM_UTF8_EXT: byte := 119

  /** Any dictionary whose references fit their bytes. */
  datatype Dictionary = Dictionary(atoms: seq<Bytes>, terms: seq<Bytes>) {
    predicate Valid() { |atoms| <= 0x1_0000 && |terms| <= 256 }
  }

  /** The last index of an atom: later entries override earlier ones. */
  function AtomRef(atoms: seq<Bytes>, name: Bytes): (r: Option<nat>)
    ensures r.Some? ==> r.value < |atoms| && atoms[r.value] == name
    ensures r.None? ==> name !in atoms
  {
    if atoms == [] then None
    else if atoms[|atoms| - 1] == name then Some(|atoms| - 1)
    else AtomRef(atoms[..|atoms| - 1], name)
  }

  /** The first dictionary term at the front of `rest`. */
  function TermRef(terms: seq<Bytes>, rest: Bytes, from: nat): (r: Option<nat>)
    requires from <= |terms|
    ensures r.Some? ==> from <= r.value < |terms| && StartsWith(rest, terms[r.value])
    decreases |terms| - from
  {
    if from == |terms| then None
    else if StartsWith(rest, terms[from]) then Some(from)
    else TermRef(terms, rest, from + 1)
  }

  // ---------------------------------------------------------------------
  // Shapes
  // ---------------------------------------------------------------------

  function Wide(b: byte): nat { b }

  /** The size of a term without nested terms. */
  function LeafSize(rest: Bytes): (r: Option<nat>)
    ensures r.Some? ==> 0 < r.value <= |rest|
  {
    if rest == [] then None
    else
      var tag := rest[0];
      var size :=
        if tag == SMALL_INTEGER_EXT then Some(2)
        else if tag == INTEGER_EXT then Some(5)
        else if tag == NEW_FLOAT_EXT then Some(9)
        else if tag == NIL_EXT then Some(1)
        else if tag == SMALL_BIG_EXT then (if |rest| < 2 then None else Some(3 + Wide(rest[1])))
        else if tag == STRING_EXT || tag == ATOM_UTF8_EXT then
          (if |rest| < 3 then None else Some(3 + FromBe(rest[1..3])))
        else if tag == BINARY_EXT then (if |rest| < 5 then None else Some(5 + FromBe(rest[1..5])))
        else if tag == LARGE_BIG_EXT || tag == BIT_BINARY_EXT then
          (if |rest| < 5 then None else Some(6 + FromBe(rest[1..5])))
        else None;
      if size.Some? && size.value <= |rest| then size else None
  }

  /** A leaf's size is written inside the leaf. */
  lemma LeafPrefix(rest: Bytes, tail: Bytes)
    requires LeafSize(rest).Some?
    ensures LeafSize(rest[..LeafSize(rest).value] + tail) == LeafSize(rest)
  {
    hide FromBe;
    var size := LeafSize(rest).value;
    var s := rest[..size] + tail;
    assert s[0] == rest[0];
    assert size >= 2 ==> s[1] == rest[1];
    assert size >= 3 ==> s[1..3] == rest[1..3];
    assert size >= 5 ==> s[1..5] == rest[1..5];
  }

  /** Containers: the bytes before the nested terms and how many follow. A list holds its
      elements and its tail. */
  function Container(rest: Bytes): (r: Option<(nat, nat)>)
    ensures r.Some? ==> 0 < r.value.0 <= |rest|
  {
    if rest == [] then None
    else if rest[0] == SMALL_TUPLE_EXT then (if |rest| < 2 then None else Some((2, rest[1])))
    else if |rest| < 5 then None
    else if rest[0] == LARGE_TUPLE_EXT then Some((5, FromBe(rest[1..5])))
    else if rest[0] == MAP_EXT then Some((5, 2 * FromBe(rest[1..5])))
    else if rest[0] == LIST_EXT then Some((5, FromBe(rest[1..5]) + 1))
    else None
  }

  predicate IsContainer(rest: Bytes) {
    rest != [] && (rest[0] == SMALL_TUPLE_EXT || rest[0] == LARGE_TUPLE_EXT || rest[0] == MAP_EXT || rest[0] == LIST_EXT)
  }

  lemma ContainerPrefix(rest: Bytes, tail: Bytes)
    requires Container(rest).Some?
    ensures var head := rest[..Container(rest).value.0];
      Container(head + tail) == Container(rest) && IsContainer(head + tail) && head == (head + tail)[..|head|]
  {
    hide FromBe;
    var head := rest[..Container(rest).value.0];
    assert (head + tail)[0] == rest[0] && (head + tail)[1] == rest[1];
    assert |head| == 5 ==> (head + tail)[1..5] == rest[1..5];
  }

  /** A short atom: its name. */
  function ShortAtom(rest: Bytes): (r: Option<Bytes>)
    ensures r.Some? ==> |rest| >= 2 + |r.value| && |r.value| < 256
    ensures r.Some? ==> rest[..2 + |r.value|] == [SMALL_ATOM_UTF8_EXT, |r.value|] + r.value
  {
    if |rest| < 2 || rest[0] != SMALL_ATOM_UTF8_EXT || |rest| < 2 + Wide(rest[1]) then None
    else
      assert rest[..2 + rest[1]] == [SMALL_ATOM_UTF8_EXT, rest[1]] + rest[2..2 + rest[1]];
      Some(rest[2..2 + rest[1]])
  }

  // ---------------------------------------------------------------------
  // Compacting
  // ---------------------------------------------------------------------

  /** `compact_term`: the compact bytes of the term at the front, and its length. */
  function CompactTerm(d: Dictionary, rest: Bytes, depth: nat): (r: Option<(Bytes, nat)>)
    requires d.Valid() && depth <= MAX_DEPTH + 1
    ensures r.Some? ==> r.value.1 <= |rest|
    decreases MAX_DEPTH + 1 - depth, 1, 0
  {
    if depth > MAX_DEPTH then None
    else
      var term := TermRef(d.terms, rest, 0);
      if term.Some? then Some(([TERM_REF, term.value], |d.terms[term.value]|))
      else if rest == [] then None
      else if rest[0] == SMALL_ATOM_UTF8_EXT then
        match ShortAtom(rest)
        case None => None
        case Some(name) => Some((CompactAtom(d, name), 2 + |name|))
      else if IsContainer(rest) then
        match Container(rest)
        case None => None
        case Some((head, count)) =>
          match CompactMany(d, rest[head..], count, depth)
          case None => None
          case Some((out, used)) => Some((rest[..head] + out, head + used))
      else
        match LeafSize(rest)
        case None => None
        case Some(size) => Some((rest[..size], size))
  }

  function CompactAtom(d: Dictionary, name: Bytes): Bytes
    requires d.Valid() && |name| < 256
  {
    match AtomRef(d.atoms, name)
    case Some(index) => if index < 256 then [ATOM_REF, index] else [WIDE_ATOM_REF] + ToBe(index, 2)
    case None => [SMALL_ATOM_UTF8_EXT, |name|] + name
  }

  function CompactMany(d: Dictionary, rest: Bytes, count: nat, depth: nat): (r: Option<(Bytes, nat)>)
    requires d.Valid() && depth <= MAX_DEPTH
    ensures r.Some? ==> r.value.1 <= |rest|
    decreases MAX_DEPTH + 1 - depth, 0, count
  {
    if count == 0 then Some(([], 0))
    else
      match CompactTerm(d, rest, depth + 1)
      case None => None
      case Some((first, size)) =>
        match CompactMany(d, rest[size..], count - 1, depth)
        case None => None
        case Some((others, used)) => Some((first + others, size + used))
  }

  // ---------------------------------------------------------------------
  // Expanding
  // ---------------------------------------------------------------------

  function Atom(d: Dictionary, index: nat): Option<Bytes> {
    if index < |d.atoms| then Some([SMALL_ATOM_UTF8_EXT, |d.atoms[index]| % 256] + d.atoms[index]) else None
  }

  /** A reference at the front: what it stands for, and its own length. */
  function Reference(d: Dictionary, rest: Bytes): Option<(Bytes, nat)>
    requires rest != [] && 1 <= rest[0] <= 3
  {
    if rest[0] == TERM_REF then
      if |rest| < 2 || rest[1] >= |d.terms| then None else Some((d.terms[rest[1]], 2))
    else
      var size := if rest[0] == ATOM_REF then 2 else 3;
      if |rest| < size then None
      else
        match Atom(d, FromBe(rest[1..size]))
        case None => None
        case Some(atom) => Some((atom, size))
  }

  /** `expand_term`. */
  function ExpandTerm(d: Dictionary, rest: Bytes, depth: nat): (r: Option<(Bytes, nat)>)
    requires depth <= MAX_DEPTH + 1
    ensures r.Some? ==> r.value.1 <= |rest|
    decreases MAX_DEPTH + 1 - depth, 1, 0
  {
    if depth > MAX_DEPTH || rest == [] then None
    else if 1 <= rest[0] <= 3 then Reference(d, rest)
    else if rest[0] == SMALL_ATOM_UTF8_EXT then
      match ShortAtom(rest)
      case None => None
      case Some(name) => Some((rest[..2 + |name|], 2 + |name|))
    else if IsContainer(rest) then
      match Container(rest)
      case None => None
      case Some((head, count)) =>
        match ExpandMany(d, rest[head..], count, depth)
        case None => None
        case Some((out, used)) => Some((rest[..head] + out, head + used))
    else
      match LeafSize(rest)
      case None => None
      case Some(size) => Some((rest[..size], size))
  }

  function ExpandMany(d: Dictionary, rest: Bytes, count: nat, depth: nat): (r: Option<(Bytes, nat)>)
    requires depth <= MAX_DEPTH
    ensures r.Some? ==> r.value.1 <= |rest|
    decreases MAX_DEPTH + 1 - depth, 0, count
  {
    if count == 0 then Some(([], 0))
    else
      match ExpandTerm(d, rest, depth + 1)
      case None => None
      case Some((first, size)) =>
        match ExpandMany(d, rest[size..], count - 1, depth)
        case None => None
        case Some((others, used)) => Some((first + others, size + used))
  }

  // ---------------------------------------------------------------------
  // Expansion undoes compaction
  // ---------------------------------------------------------------------

  lemma AtomUndone(d: Dictionary, name: Bytes, tail: Bytes, depth: nat)
    requires d.Valid() && |name| < 256 && depth <= MAX_DEPTH
    ensures ExpandTerm(d, CompactAtom(d, name) + tail, depth)
         == Some(([SMALL_ATOM_UTF8_EXT, |name|] + name, |CompactAtom(d, name)|))
  {
    hide ToBe, FromBe, Span, LeafSize, Container;
    var out := CompactAtom(d, name);
    var s := out + tail;
    var index := AtomRef(d.atoms, name);
    SpanValues();
    if index.Some? {
      if index.value < 256 {
        assert s[1..2] == [index.value] && s[0] == ATOM_REF;
        OneByte(index.value);
      } else {
        BeRoundTrip(index.value, 2);
        assert s[1..3] == ToBe(index.value, 2) && s[0] == WIDE_ATOM_REF;
      }
    } else {
      assert s[..2 + |name|] == out && s[2..2 + |name|] == name;
      assert s[0] == SMALL_ATOM_UTF8_EXT && s[1] == |name|;
    }
  }

  lemma OneByte(b: byte)
    ensures FromBe([b]) == b
  {
    assert [b][..0] == [];
    assert FromBe([b]) == 256 * FromBe([]) + b;
  }

  lemma TermUndone(d: Dictionary, index: nat, tail: Bytes, depth: nat)
    requires d.Valid() && index < |d.terms| && depth <= MAX_DEPTH
    ensures ExpandTerm(d, [TERM_REF, index] + tail, depth) == Some((d.terms[index], 2))
  {}

  lemma LeafUndone(d: Dictionary, rest: Bytes, tail: Bytes, depth: nat)
    requires depth <= MAX_DEPTH && rest != [] && LeafSize(rest).Some?
    ensures var leaf := rest[..LeafSize(rest).value]; ExpandTerm(d, leaf + tail, depth) == Some((leaf, |leaf|))
  {
    var size := LeafSize(rest).value;
    LeafPrefix(rest, tail);
    var s := rest[..size] + tail;
    assert s[0] == rest[0] && s[..size] == rest[..size];
    LeafTag(rest);
    hide LeafSize, Container;
  }

  lemma LeafTag(rest: Bytes)
    requires LeafSize(rest).Some?
    ensures rest[0] > 3 && rest[0] != SMALL_ATOM_UTF8_EXT && !IsContainer(rest)
  {}

  /** Whatever `compact_term` writes, `expand_term` reads back at the same depth: exactly those
      bytes, and exactly the term. */
  lemma {:induction false} CompactionUndone(d: Dictionary, rest: Bytes, depth: nat, tail: Bytes)
    requires d.Valid() && depth <= MAX_DEPTH && CompactTerm(d, rest, depth).Some?
    ensures var (out, used) := CompactTerm(d, rest, depth).value;
      ExpandTerm(d, out + tail, depth) == Some((rest[..used], |out|))
    decreases MAX_DEPTH + 1 - depth, 1, 0
  {
    hide LeafSize, Container, AtomRef, TermRef, ShortAtom, Reference;
    var term := TermRef(d.terms, rest, 0);
    if term.Some? {
      TermUndone(d, term.value, tail, depth);
    } else if rest[0] == SMALL_ATOM_UTF8_EXT {
      AtomUndone(d, ShortAtom(rest).value, tail, depth);
    } else if IsContainer(rest) {
      var (head, count) := Container(rest).value;
      var (out, used) := CompactMany(d, rest[head..], count, depth).value;
      ManyUndone(d, rest[head..], count, depth, tail);
      ContainerUndone(d, rest, depth, out, used, tail);
    } else {
      LeafUndone(d, rest, tail, depth);
    }
  }

  lemma ContainerUndone(d: Dictionary, rest: Bytes, depth: nat, out: Bytes, used: nat, tail: Bytes)
    requires depth <= MAX_DEPTH && Container(rest).Some? && used <= |rest| - Container(rest).value.0
    requires var (head, count) := Container(rest).value;
      ExpandMany(d, out + tail, count, depth) == Some((rest[head..][..used], |out|))
    ensures var (head, _) := Container(rest).value;
      ExpandTerm(d, rest[..head] + out + tail, depth) == Some((rest[..head + used], head + |out|))
  {
    hide Container, IsContainer, ExpandMany, ExpandTerm;
    var (head, count) := Container(rest).value;
    ContainerPrefix(rest, out + tail);
    Regrouped(rest[..head], out, tail);
    Rejoined(rest, head, used);
    ExpandContainer(d, rest[..head] + out + tail, depth);
  }

  lemma ExpandContainer(d: Dictionary, s: Bytes, depth: nat)
    requires depth <= MAX_DEPTH && IsContainer(s) && Container(s).Some?
    ensures var (head, count) := Container(s).value;
      var many := ExpandMany(d, s[head..], count, depth);
      ExpandTerm(d, s, depth) == if many.None? then None else Some((s[..head] + many.value.0, head + many.value.1))
  {
    assert s[0] > 3;
    hide Container, ExpandMany, LeafSize, ShortAtom, Reference;
  }

  /** One term read, then the others. */
  lemma ExpandOneMore(d: Dictionary, s: Bytes, count: nat, depth: nat, x: Bytes, n: nat, y: Bytes, m: nat)
    requires depth <= MAX_DEPTH && count > 0 && n <= |s|
    requires ExpandTerm(d, s, depth + 1) == Some((x, n))
    requires ExpandMany(d, s[n..], count - 1, depth) == Some((y, m))
    ensures ExpandMany(d, s, count, depth) == Some((x + y, n + m))
  {
    hide ExpandTerm;
  }

  lemma Regrouped(a: Bytes, b: Bytes, c: Bytes)
    ensures (a + b) + c == a + (b + c)
    ensures (a + b + c)[|a|..] == b + c && (a + b + c)[..|a|] == a
  {}

  lemma Rejoined(s: Bytes, i: nat, j: nat)
    requires i + j <= |s|
    ensures s[..i] + s[i..][..j] == s[..i + j]
  {}

  lemma {:induction false} ManyUndone(d: Dictionary, rest: Bytes, count: nat, depth: nat, tail: Bytes)
    requires d.Valid() && depth <= MAX_DEPTH && CompactMany(d, rest, count, depth).Some?
    ensures var (out, used) := CompactMany(d, rest, count, depth).value;
      ExpandMany(d, out + tail, count, depth) == Some((rest[..used], |out|))
    decreases MAX_DEPTH + 1 - depth, 0, count
  {
    hide CompactTerm, ExpandTerm, ExpandMany;
    if count == 0 {
      NoneLeft(d, tail, depth);
      assert [] + tail == tail;
    } else {
      var (first, size) := CompactTerm(d, rest, depth + 1).value;
      var (others, used) := CompactMany(d, rest[size..], count - 1, depth).value;
      DepthFits(d, rest, depth + 1);
      CompactionUndone(d, rest, depth + 1, others + tail);
      ManyUndone(d, rest[size..], count - 1, depth, tail);
      Regrouped(first, others, tail);
      ExpandOneMore(d, first + others + tail, count, depth, rest[..size], |first|, rest[size..][..used], |others|);
      Rejoined(rest, size, used);
    }
  }

  lemma NoneLeft(d: Dictionary, rest: Bytes, depth: nat)
    requires depth <= MAX_DEPTH
    ensures ExpandMany(d, rest, 0, depth) == Some(([], 0))
  {}

  lemma DepthFits(d: Dictionary, rest: Bytes, depth: nat)
    requires d.Valid() && depth <= MAX_DEPTH + 1 && CompactTerm(d, rest, depth).Some?
    ensures depth <= MAX_DEPTH
  {}

  // ---------------------------------------------------------------------
  // Commands
  // ---------------------------------------------------------------------

  /** `expand` under dictionary `d`. */
  function Expand(d: Dictionary, input: Bytes): Option<Bytes> {
    if |input| < 2 || input[0] != MAGIC || input[1] != DICTIONARY_V1 then None
    else
      match ExpandTerm(d, input[2..], 0)
      case None => None
      case Some((out, used)) => if used == |input| - 2 then Some([VERSION_MAGIC] + out) else None
  }

  /** `compact` without its final comparison. */
  function CompactUnchecked(d: Dictionary, input: Bytes): Option<Bytes>
    requires d.Valid()
  {
    if input == [] || input[0] != VERSION_MAGIC then None
    else
      match CompactTerm(d, input[1..], 0)
      case None => None
      case Some((out, used)) =>
        if used != |input| - 1 || 2 + |out| >= |input| then None else Some([MAGIC, DICTIONARY_V1] + out)
  }

  /** `compact`: the result is compared with its own expansion. */
  function Compact(d: Dictionary, input: Bytes): Option<Bytes>
    requires d.Valid()
  {
    match CompactUnchecked(d, input)
    case None => None
    case Some(out) => if Expand(d, out) == Some(input) then Some(out) else None
  }

  /** The comparison never fails: a command is refused only because it is not a covered term of
      allowed depth that fills the input, or because it would not shrink. */
  lemma SelfCheckNeverFires(d: Dictionary, input: Bytes)
    requires d.Valid()
    ensures Compact(d, input) == CompactUnchecked(d, input)
    ensures Compact(d, input).Some? ==>
      Expand(d, Compact(d, input).value) == Some(input) && |Compact(d, input).value| < |input|
  {
    hide CompactTerm, ExpandTerm;
    if CompactUnchecked(d, input).Some? {
      var (out, used) := CompactTerm(d, input[1..], 0).value;
      CompactionUndone(d, input[1..], 0, []);
      assert out + [] == out;
      var compacted := [MAGIC, DICTIONARY_V1] + out;
      assert compacted[2..] == out;
      assert input[1..][..used] == input[1..];
      assert [VERSION_MAGIC] + input[1..] == input;
    }
  }

  /** Two commands never share a compact form. */
  lemma CompactIsInjective(d: Dictionary, a: Bytes, b: Bytes)
    requires d.Valid() && Compact(d, a).Some? && Compact(d, a) == Compact(d, b)
    ensures a == b
  {
    SelfCheckNeverFires(d, a);
    SelfCheckNeverFires(d, b);
  }
}
