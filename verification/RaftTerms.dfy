/** The terms behind the compactor: the Erlang external term format written out over a tree,
    compaction of the tree, and the proof that the byte-level compactor is exactly that. */
module RaftTerms {
  import opened Bytes
  import opened RaftCodec

  /** The covered terms. The items of a map are its keys and values in turn, the items of a list
      its elements and its tail. */
  datatype Term =
    | SmallInt(value: byte)
    | Int(bits: Bytes)
    | Float(bits: Bytes)
    | Nil
    | Str(data: Bytes)
    | Binary(data: Bytes)
    | BitBinary(extra: byte, data: Bytes)
    | SmallBig(extra: byte, data: Bytes)
    | LargeBig(extra: byte, data: Bytes)
    | SmallAtom(name: Bytes)
    | WideAtom(name: Bytes)
    | SmallTuple(items: seq<Term>)
    | LargeTuple(items: seq<Term>)
    | Map(items: seq<Term>)
    | List(items: seq<Term>)

  predicate Nests(t: Term) { t.SmallTuple? || t.LargeTuple? || t.Map? || t.List? }

  /** The fixed widths and the limits of the length fields. */
  predicate Ok(t: Term)
    decreases t
  {
    match t
    case SmallInt(_) => true
    case Int(bits) => |bits| == 4
    case Float(bits) => |bits| == 8
    case Nil => true
    case Str(data) => |data| < 0x1_0000
    case Binary(data) => |data| <= U32_MAX
    case BitBinary(_, data) => |data| <= U32_MAX
    case SmallBig(_, data) => |data| < 256
    case LargeBig(_, data) => |data| <= U32_MAX
    case SmallAtom(name) => |name| < 256
    case WideAtom(name) => |name| < 0x1_0000
    case SmallTuple(items) => |items| < 256 && AllOk(items)
    case LargeTuple(items) => |items| <= U32_MAX && AllOk(items)
    case Map(items) => |items| % 2 == 0 && |items| / 2 <= U32_MAX && AllOk(items)
    case List(items) => 0 < |items| <= U32_MAX + 1 && AllOk(items)
  }

  predicate AllOk(items: seq<Term>)
    decreases items
  {
    forall i :: 0 <= i < |items| ==> Ok(items[i])
  }

  /** What precedes the items of a container. */
  function Head(t: Term): Bytes
    requires Nests(t) && Ok(t)
  {
    match t
    case SmallTuple(items) => [104, |items|]
    case LargeTuple(items) => [105] + ToBe(|items|, 4)
    case Map(items) => [116] + ToBe(|items| / 2, 4)
    case List(items) => [108] + ToBe(|items| - 1, 4)
  }

  function Leaf(t: Term): Bytes
    requires !Nests(t) && Ok(t)
  {
    match t
    case SmallInt(value) => [97, value]
    case Int(bits) => [98] + bits
    case Float(bits) => [70] + bits
    case Nil => [106]
    case Str(data) => [107] + ToBe(|data|, 2) + data
    case Binary(data) => [109] + ToBe(|data|, 4) + data
    case BitBinary(extra, data) => [77] + ToBe(|data|, 4) + ([extra] + data)
    case SmallBig(extra, data) => [110, |data|, extra] + data
    case LargeBig(extra, data) => [111] + ToBe(|data|, 4) + ([extra] + data)
    case SmallAtom(name) => [119, |name|] + name
    case WideAtom(name) => [118] + ToBe(|name|, 2) + name
  }

  function Write(t: Term): Bytes
    requires Ok(t)
    decreases t
  {
    if Nests(t) then Head(t) + WriteAll(t.items) else Leaf(t)
  }

  function WriteAll(items: seq<Term>): Bytes
    requires AllOk(items)
    decreases items
  {
    if items == [] then [] else Write(items[0]) + WriteAll(items[1..])
  }

  // ---------------------------------------------------------------------
  // The shapes the compactor tells apart
  // ---------------------------------------------------------------------

  lemma LengthField(tag: byte, n: nat, width: nat, after: Bytes)
    requires (width == 2 && n < 0x1_0000) || (width == 4 && n <= U32_MAX)
    ensures var s := [tag] + ToBe(n, width) + after;
      |s| == 1 + width + |after| && s[0] == tag && FromBe(s[1..1 + width]) == n && s[1 + width..] == after
  {
    hide ToBe, FromBe;
    SpanValues();
    BeRoundTrip(n, width);
    assert ([tag] + ToBe(n, width) + after)[1..1 + width] == ToBe(n, width);
  }

  lemma ShortLeaf(tag: byte, data: Bytes, tail: Bytes)
    requires (tag == 107 || tag == 118) && |data| < 0x1_0000
    ensures LeafSize([tag] + ToBe(|data|, 2) + data + tail) == Some(3 + |data|)
  {
    hide ToBe, FromBe;
    LengthField(tag, |data|, 2, data + tail);
    assert [tag] + ToBe(|data|, 2) + data + tail == [tag] + ToBe(|data|, 2) + (data + tail);
  }

  lemma LongLeaf(tag: byte, n: nat, body: Bytes, tail: Bytes)
    requires n <= U32_MAX && (if tag == 109 then |body| == n else (tag == 77 || tag == 111) && |body| == n + 1)
    ensures LeafSize([tag] + ToBe(n, 4) + body + tail) == Some(5 + |body|)
  {
    hide ToBe, FromBe;
    LengthField(tag, n, 4, body + tail);
    assert [tag] + ToBe(n, 4) + body + tail == [tag] + ToBe(n, 4) + (body + tail);
  }

  lemma FixedLeaf(t: Term, tail: Bytes)
    requires Ok(t) && (t.SmallInt? || t.Int? || t.Float? || t.Nil? || t.SmallBig?)
    ensures LeafSize(Leaf(t) + tail) == Some(|Leaf(t)|)
  {
    hide ToBe, FromBe;
  }

  lemma LeafShape(t: Term, tail: Bytes)
    requires Ok(t) && !Nests(t) && !t.SmallAtom?
    ensures LeafSize(Leaf(t) + tail) == Some(|Leaf(t)|)
  {
    hide ToBe, LeafSize;
    match t
    case Str(data) => ShortLeaf(107, data, tail);
    case WideAtom(name) => ShortLeaf(118, name, tail);
    case Binary(data) => LongLeaf(109, |data|, data, tail);
    case BitBinary(extra, data) => LongLeaf(77, |data|, [extra] + data, tail);
    case LargeBig(extra, data) => LongLeaf(111, |data|, [extra] + data, tail);
    case _ => FixedLeaf(t, tail);
  }

  lemma AtomShape(name: Bytes, tail: Bytes)
    requires |name| < 256
    ensures ShortAtom(Leaf(SmallAtom(name)) + tail) == Some(name)
  {
    var s := Leaf(SmallAtom(name)) + tail;
    assert s[2..2 + |name|] == name;
  }

  lemma ContainerShape(t: Term, tail: Bytes)
    requires Ok(t) && Nests(t)
    ensures Container(Head(t) + tail) == Some((|Head(t)|, |t.items|)) && IsContainer(Head(t) + tail)
    ensures (Head(t) + tail)[..|Head(t)|] == Head(t) && (Head(t) + tail)[|Head(t)|..] == tail
  {
    hide ToBe, FromBe;
    match t
    case SmallTuple(items) =>
    case LargeTuple(items) => LengthField(105, |items|, 4, tail);
    case Map(items) => LengthField(116, |items| / 2, 4, tail);
    case List(items) => LengthField(108, |items| - 1, 4, tail);
  }

  // ---------------------------------------------------------------------
  // A term ends where it ends
  // ---------------------------------------------------------------------

  lemma FirstByte(t: Term)
    requires Ok(t)
    ensures Write(t) != [] && Write(t)[0] > 3
    ensures Write(t)[0] == SMALL_ATOM_UTF8_EXT <==> t.SmallAtom?
    ensures IsContainer(Write(t)) <==> Nests(t)
  {
    hide WriteAll, ToBe;
  }

  lemma SameSplit(x: Bytes, a: Bytes, y: Bytes, b: Bytes)
    requires x + a == y + b && |x| == |y|
    ensures x == y && a == b
  {
    assert x == (x + a)[..|x|] && y == (y + b)[..|y|];
    assert a == (x + a)[|x|..] && b == (y + b)[|y|..];
  }

  /** No term is the beginning of another. */
  lemma {:induction false} PrefixFree(t: Term, a: Bytes, u: Term, b: Bytes)
    requires Ok(t) && Ok(u) && Write(t) + a == Write(u) + b
    ensures Write(t) == Write(u) && a == b
    decreases t
  {
    hide Leaf, Head, WriteAll, Container, LeafSize, ShortAtom;
    FirstByte(t);
    FirstByte(u);
    assert (Write(t) + a)[0] == Write(t)[0] && (Write(u) + b)[0] == Write(u)[0];
    if Nests(t) {
      var p, q := WriteAll(t.items), WriteAll(u.items);
      assert Write(t) + a == Head(t) + (p + a) && Write(u) + b == Head(u) + (q + b);
      ContainerShape(t, p + a);
      ContainerShape(u, q + b);
      SameSplit(Head(t), p + a, Head(u), q + b);
      AllPrefixFree(t.items, a, u.items, b);
    } else if t.SmallAtom? {
      AtomShape(t.name, a);
      AtomShape(u.name, b);
      SameSplit(Write(t), a, Write(u), b);
    } else {
      LeafShape(t, a);
      LeafShape(u, b);
      SameSplit(Write(t), a, Write(u), b);
    }
  }

  lemma {:induction false} AllPrefixFree(ts: seq<Term>, a: Bytes, us: seq<Term>, b: Bytes)
    requires AllOk(ts) && AllOk(us) && |ts| == |us| && WriteAll(ts) + a == WriteAll(us) + b
    ensures WriteAll(ts) == WriteAll(us) && a == b
    decreases ts
  {
    hide Write;
    if ts == [] {
      assert [] + a == a && [] + b == b;
    } else {
      var p, q := WriteAll(ts[1..]), WriteAll(us[1..]);
      assert WriteAll(ts) + a == Write(ts[0]) + (p + a) && WriteAll(us) + b == Write(us[0]) + (q + b);
      PrefixFree(ts[0], p + a, us[0], q + b);
      AllPrefixFree(ts[1..], a, us[1..], b);
    }
  }

  // ---------------------------------------------------------------------
  // Compaction of the tree
  // ---------------------------------------------------------------------

  /** Every dictionary term is a complete term. */
  ghost predicate WholeTerms(d: Dictionary) {
    forall i :: 0 <= i < |d.terms| ==> exists t :: Ok(t) && d.terms[i] == Write(t)
  }

  /** How deep a term nests; what the dictionary holds whole does not count. */
  function Nesting(d: Dictionary, t: Term): nat
    requires Ok(t)
    decreases t
  {
    if Write(t) in d.terms || !Nests(t) then 0 else Deepest(d, t.items)
  }

  function Deepest(d: Dictionary, items: seq<Term>): nat
    requires AllOk(items)
    decreases items
  {
    if items == [] then 0 else Max(1 + Nesting(d, items[0]), Deepest(d, items[1..]))
  }

  /** The first dictionary term with these bytes. */
  function IndexOf(terms: seq<Bytes>, bytes: Bytes): (i: nat)
    requires bytes in terms
    ensures i < |terms| && terms[i] == bytes && bytes !in terms[..i]
  {
    if terms[0] == bytes then 0
    else
      var rest := IndexOf(terms[1..], bytes);
      assert terms[..rest + 1] == [terms[0]] + terms[1..][..rest];
      rest + 1
  }

  lemma {:induction false} IndexIs(terms: seq<Bytes>, bytes: Bytes, i: nat)
    requires i < |terms| && terms[i] == bytes && bytes !in terms[..i]
    ensures IndexOf(terms, bytes) == i
  {
    if i > 0 {
      assert terms[0] in terms[..i];
      assert terms[1..][..i - 1] == terms[..i][1..];
      IndexIs(terms[1..], bytes, i - 1);
    }
  }

  /** Whole terms and atoms become references; everything else stays. */
  function Compacted(d: Dictionary, t: Term): Bytes
    requires d.Valid() && Ok(t)
    decreases t
  {
    if Write(t) in d.terms then [TERM_REF, IndexOf(d.terms, Write(t))]
    else if t.SmallAtom? then CompactAtom(d, t.name)
    else if Nests(t) then Head(t) + CompactedAll(d, t.items)
    else Leaf(t)
  }

  function CompactedAll(d: Dictionary, items: seq<Term>): Bytes
    requires d.Valid() && AllOk(items)
    decreases items
  {
    if items == [] then [] else Compacted(d, items[0]) + CompactedAll(d, items[1..])
  }

  // ---------------------------------------------------------------------
  // The compactor on bytes
  // ---------------------------------------------------------------------

  /** A dictionary term at the front of a term is that term. */
  lemma MatchIsWhole(d: Dictionary, t: Term, tail: Bytes, i: nat)
    requires WholeTerms(d) && Ok(t) && i < |d.terms|
    ensures StartsWith(Write(t) + tail, d.terms[i]) <==> d.terms[i] == Write(t)
  {
    hide Write;
    var s := Write(t) + tail;
    if StartsWith(s, d.terms[i]) {
      var u :| Ok(u) && d.terms[i] == Write(u);
      assert s == Write(u) + s[|Write(u)|..];
      PrefixFree(t, tail, u, s[|Write(u)|..]);
    }
  }

  lemma {:induction false} FirstMatch(d: Dictionary, t: Term, tail: Bytes, from: nat)
    requires WholeTerms(d) && Ok(t) && from <= |d.terms| && Write(t) !in d.terms[..from]
    ensures TermRef(d.terms, Write(t) + tail, from)
         == if Write(t) in d.terms then Some(IndexOf(d.terms, Write(t))) else None
    decreases |d.terms| - from
  {
    hide Write, WholeTerms, StartsWith;
    if from < |d.terms| {
      MatchIsWhole(d, t, tail, from);
      if d.terms[from] == Write(t) {
        IndexIs(d.terms, Write(t), from);
      } else {
        assert d.terms[..from + 1] == d.terms[..from] + [d.terms[from]];
        FirstMatch(d, t, tail, from + 1);
      }
    }
  }

  /** The byte-level compactor is compaction of the tree, refused only for depth. */
  lemma {:induction false} CompactsTheTree(d: Dictionary, t: Term, tail: Bytes, depth: nat)
    requires d.Valid() && WholeTerms(d) && Ok(t) && depth <= MAX_DEPTH + 1
    ensures CompactTerm(d, Write(t) + tail, depth)
         == if depth + Nesting(d, t) <= MAX_DEPTH then Some((Compacted(d, t), |Write(t)|)) else None
    decreases t
  {
    hide Leaf, Head, WriteAll, Container, LeafSize, ShortAtom, CompactAtom, WholeTerms, IndexOf, TermRef, CompactMany, Deepest,
      CompactedAll;
    var s := Write(t) + tail;
    FirstByte(t);
    assert s[0] == Write(t)[0];
    if depth <= MAX_DEPTH {
      FirstMatch(d, t, tail, 0);
      if Write(t) !in d.terms {
        if Nests(t) {
          assert s == Head(t) + (WriteAll(t.items) + tail);
          ContainerShape(t, WriteAll(t.items) + tail);
          CompactsAll(d, t.items, tail, depth);
        } else if t.SmallAtom? {
          AtomShape(t.name, tail);
          AtomLength(t.name);
        } else {
          LeafShape(t, tail);
          assert s[..|Leaf(t)|] == Leaf(t);
        }
      }
    }
  }

  lemma AtomLength(name: Bytes)
    requires |name| < 256
    ensures |Leaf(SmallAtom(name))| == 2 + |name|
  {}

  lemma {:induction false} CompactsAll(d: Dictionary, items: seq<Term>, tail: Bytes, depth: nat)
    requires d.Valid() && WholeTerms(d) && AllOk(items) && depth <= MAX_DEPTH
    ensures CompactMany(d, WriteAll(items) + tail, |items|, depth)
         == if depth + Deepest(d, items) <= MAX_DEPTH then Some((CompactedAll(d, items), |WriteAll(items)|)) else None
    decreases items
  {
    hide Write, CompactTerm, Nesting, Compacted, WholeTerms;
    if items != [] {
      var s := WriteAll(items) + tail;
      assert s == Write(items[0]) + (WriteAll(items[1..]) + tail);
      CompactsTheTree(d, items[0], WriteAll(items[1..]) + tail, depth + 1);
      CompactsAll(d, items[1..], tail, depth);
      assert s[|Write(items[0])|..] == WriteAll(items[1..]) + tail;
    }
  }

  // ---------------------------------------------------------------------
  // Whatever is accepted is a term
  // ---------------------------------------------------------------------

  lemma ReadLeaf(rest: Bytes) returns (t: Term)
    requires LeafSize(rest).Some?
    ensures Ok(t) && !Nests(t) && rest[..LeafSize(rest).value] == Leaf(t)
  {
    hide ToBe, FromBe;
    var n := LeafSize(rest).value;
    match rest[0] {
      case 97 => t := SmallInt(rest[1]);
      case 98 => t := Int(rest[1..5]);
      case 70 => t := Float(rest[1..9]);
      case 106 => t := Nil;
      case 110 => t := SmallBig(rest[2], rest[3..n]);
      case 107 => t := ReadShort(rest);
      case 118 => t := ReadShort(rest);
      case _ => t := ReadLong(rest);
    }
    assert rest[..n] == Leaf(t);
  }

  lemma ReadShort(rest: Bytes) returns (t: Term)
    requires LeafSize(rest).Some? && (rest[0] == 107 || rest[0] == 118)
    ensures Ok(t) && !Nests(t) && rest[..LeafSize(rest).value] == Leaf(t)
  {
    hide ToBe, FromBe;
    var n := LeafSize(rest).value;
    SpanValues();
    BeCanonical(rest[1..3]);
    t := if rest[0] == 107 then Str(rest[3..n]) else WideAtom(rest[3..n]);
    assert rest[..n] == [rest[0]] + rest[1..3] + rest[3..n];
  }

  lemma ReadLong(rest: Bytes) returns (t: Term)
    requires LeafSize(rest).Some? && (rest[0] == 109 || rest[0] == 77 || rest[0] == 111)
    ensures Ok(t) && !Nests(t) && rest[..LeafSize(rest).value] == Leaf(t)
  {
    hide ToBe, FromBe;
    var n := LeafSize(rest).value;
    SpanValues();
    BeCanonical(rest[1..5]);
    if rest[0] == 109 {
      t := Binary(rest[5..n]);
    } else {
      t := if rest[0] == 77 then BitBinary(rest[5], rest[6..n]) else LargeBig(rest[5], rest[6..n]);
      assert rest[5..n] == [rest[5]] + rest[6..n];
    }
    assert rest[..n] == [rest[0]] + rest[1..5] + rest[5..n];
  }

  /** A container whose items were read back. */
  lemma ReadContainer(rest: Bytes, items: seq<Term>) returns (t: Term)
    requires Container(rest).Some? && |items| == Container(rest).value.1 && AllOk(items)
    ensures Nests(t) && Ok(t) && t.items == items && rest[..Container(rest).value.0] == Head(t)
  {
    hide ToBe, FromBe;
    SpanValues();
    if rest[0] == 104 {
      t := SmallTuple(items);
    } else {
      BeCanonical(rest[1..5]);
      match rest[0] {
        case 105 => t := LargeTuple(items);
        case 116 => t := Map(items);
        case _ => t := List(items);
      }
    }
    assert rest[..Container(rest).value.0] == Head(t);
  }

  lemma {:induction false} AcceptedIsTerm(d: Dictionary, rest: Bytes, depth: nat) returns (t: Term)
    requires d.Valid() && WholeTerms(d) && depth <= MAX_DEPTH && CompactTerm(d, rest, depth).Some?
    ensures Ok(t) && rest[..CompactTerm(d, rest, depth).value.1] == Write(t)
    decreases MAX_DEPTH + 1 - depth, 1, 0
  {
    hide LeafSize, Container, TermRef, ShortAtom, Head, Leaf, WriteAll, CompactMany, CompactAtom, Ok;
    var term := TermRef(d.terms, rest, 0);
    if term.Some? {
      t :| Ok(t) && d.terms[term.value] == Write(t);
    } else if rest[0] == SMALL_ATOM_UTF8_EXT {
      t := SmallAtom(ShortAtom(rest).value);
      AtomWritten(ShortAtom(rest).value);
    } else if IsContainer(rest) {
      var (head, count) := Container(rest).value;
      var used := CompactMany(d, rest[head..], count, depth).value.1;
      var items := AcceptedAreTerms(d, rest[head..], count, depth);
      t := ReadContainer(rest, items);
      Rejoined(rest, head, used);
    } else {
      t := ReadLeaf(rest);
    }
  }

  lemma AtomWritten(name: Bytes)
    requires |name| < 256
    ensures Ok(SmallAtom(name)) && Write(SmallAtom(name)) == [SMALL_ATOM_UTF8_EXT, |name|] + name
  {}

  lemma {:induction false} AcceptedAreTerms(d: Dictionary, rest: Bytes, count: nat, depth: nat) returns (items: seq<Term>)
    requires d.Valid() && WholeTerms(d) && depth <= MAX_DEPTH && CompactMany(d, rest, count, depth).Some?
    ensures |items| == count && AllOk(items) && rest[..CompactMany(d, rest, count, depth).value.1] == WriteAll(items)
    decreases MAX_DEPTH + 1 - depth, 0, count
  {
    hide CompactTerm, Write, WholeTerms;
    items := [];
    if count > 0 {
      var size := CompactTerm(d, rest, depth + 1).value.1;
      DepthFits(d, rest, depth + 1);
      var first := AcceptedIsTerm(d, rest, depth + 1);
      var others := AcceptedAreTerms(d, rest[size..], count - 1, depth);
      items := [first] + others;
      assert items[1..] == others;
      Rejoined(rest, size, CompactMany(d, rest[size..], count - 1, depth).value.1);
    }
  }

  // ---------------------------------------------------------------------
  // Commands
  // ---------------------------------------------------------------------

  /** The compact form of a term pays and its nesting is allowed. */
  predicate WorthCompacting(d: Dictionary, t: Term)
    requires d.Valid() && Ok(t)
  {
    Nesting(d, t) <= MAX_DEPTH && |Compacted(d, t)| + 1 < |Write(t)|
  }

  /** A written term is compacted exactly if its nesting is allowed and it shrinks. */
  lemma CompactsWritten(d: Dictionary, t: Term)
    requires d.Valid() && WholeTerms(d) && Ok(t)
    ensures Compact(d, [VERSION_MAGIC] + Write(t))
         == if WorthCompacting(d, t) then Some([MAGIC, DICTIONARY_V1] + Compacted(d, t)) else None
  {
    hide Write, Compacted, Nesting, CompactTerm, Expand, WholeTerms;
    var input := [VERSION_MAGIC] + Write(t);
    assert input[1..] == Write(t) && Write(t) + [] == Write(t);
    CompactsTheTree(d, t, [], 0);
    SelfCheckNeverFires(d, input);
  }

  /** Nothing else is. */
  lemma CompactedIsTerm(d: Dictionary, input: Bytes) returns (t: Term)
    requires d.Valid() && WholeTerms(d) && Compact(d, input).Some?
    ensures Ok(t) && WorthCompacting(d, t) && input == [VERSION_MAGIC] + Write(t)
  {
    hide Write, Compacted, Nesting, CompactTerm, Expand, WholeTerms;
    t := AcceptedIsTerm(d, input[1..], 0);
    assert input[1..][..|input| - 1] == input[1..];
    assert input == [VERSION_MAGIC] + input[1..];
    CompactsWritten(d, t);
  }

  // ---------------------------------------------------------------------
  // The released dictionary
  // ---------------------------------------------------------------------

  /** The items of its one term, the apply context of a command. */
  const CONTEXT_ITEMS: seq<Bytes> := [
    
    [119, 28, 102, 101, 114, 114, 105, 99, 115, 116, 111, 114, 101, 95, 97, 112, 112, 108, 121, 95, 99, 111, 110, 116, 101, 120, 116, 95, 118, 49],
    [98, 36, 12, 132, 0], [97, 0], [98, 0, 1, 134, 160], [98, 0, 0, 39, 16], [98, 0, 15, 66, 64], [98, 0, 0, 4, 0],
    [98, 0, 128, 0, 0], [98, 0, 1, 134, 160], [98, 0, 1, 134, 160], [119, 4, 116, 114, 117, 101],
    [98, 0, 4, 147, 224], [97, 0], [98, 0, 0, 234, 96], [98, 0, 4, 147, 224], [98, 0, 0, 3, 232], [97, 100],
    [98, 0, 0, 78, 32], [98, 0, 0, 16, 0], [98, 0, 0, 3, 232], [98, 0, 0, 16, 0], [98, 0, 128, 0, 0],
    [98, 0, 16, 0, 0], [119, 3, 110, 105, 108]]

  function Joined(parts: seq<Bytes>): Bytes { if parts == [] then [] else parts[0] + Joined(parts[1..]) }

  const APPLY_CONTEXT: Bytes := [104, 24] + Joined(CONTEXT_ITEMS)

  /** A small integer, an integer or a short atom. */
  predicate PlainItem(s: Bytes) {
    |s| >= 2 && ((s[0] == 97 && |s| == 2) || (s[0] == 98 && |s| == 5) || (s[0] == 119 && s[1] == |s| - 2))
  }

  lemma ReadItem(s: Bytes) returns (t: Term)
    requires PlainItem(s)
    ensures Ok(t) && Write(t) == s
  {
    t := if s[0] == 97 then SmallInt(s[1]) else if s[0] == 98 then Int(s[1..]) else SmallAtom(s[2..]);
    assert Leaf(t) == s;
  }

  lemma {:induction false} ReadItems(parts: seq<Bytes>) returns (items: seq<Term>)
    requires forall i :: 0 <= i < |parts| ==> PlainItem(parts[i])
    ensures |items| == |parts| && AllOk(items) && WriteAll(items) == Joined(parts)
  {
    hide Write, PlainItem;
    items := [];
    if parts != [] {
      var first := ReadItem(parts[0]);
      var others := ReadItems(parts[1..]);
      items := [first] + others;
      assert items[1..] == others;
    }
  }

  /** So the released dictionary holds whole terms. */
  lemma ReleasedTermIsWhole(atoms: seq<Bytes>)
    ensures WholeTerms(Dictionary(atoms, [APPLY_CONTEXT]))
  {
    hide WriteAll, Joined;
    var items := ReadItems(CONTEXT_ITEMS);
    assert Write(SmallTuple(items)) == APPLY_CONTEXT;
  }
}
