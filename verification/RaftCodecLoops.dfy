/** The Raft codec as it runs: an output that is appended to and a position that advances,
    against the codec's functions. */
module RaftCodecLoops {
  import opened Bytes
  import opened RaftCodec

  type Step = Option<(Bytes, nat)>

  /** What has been written and read so far, then `r`. */
  function Then(out: Bytes, pos: nat, r: Step): Step {
    match r
    case None => None
    case Some((more, used)) => Some((out + more, pos + used))
  }

  lemma ThenAgain(out: Bytes, pos: nat, first: Bytes, size: nat, r: Step)
    ensures Then(out, pos, Then(first, size, r)) == Then(out + first, pos + size, r)
  {
    if r.Some? {
      assert out + (first + r.value.0) == out + first + r.value.0;
    }
  }

  lemma NextTerm(d: Dictionary, rest: Bytes, count: nat, depth: nat)
    requires d.Valid() && depth <= MAX_DEPTH && count > 0
    ensures CompactMany(d, rest, count, depth)
         == match CompactTerm(d, rest, depth + 1) {
              case None => None
              case Some((first, size)) => Then(first, size, CompactMany(d, rest[size..], count - 1, depth))
            }
  {}

  lemma DropTwice(s: Bytes, i: nat, j: nat)
    requires i + j <= |s|
    ensures s[i..][j..] == s[i + j..]
  {}

  /** `compact_term`. */
  method CompactTermInto(d: Dictionary, input: Bytes, pos: nat, out: Bytes, depth: nat) returns (r: Step)
    requires d.Valid() && pos <= |input| && depth <= MAX_DEPTH + 1
    ensures r == Then(out, pos, CompactTerm(d, input[pos..], depth))
    decreases MAX_DEPTH + 1 - depth, 1, 0
  {
    hide CompactMany, LeafSize, Container, ShortAtom;
    if depth > MAX_DEPTH { return None; }
    var rest := input[pos..];
    for index := 0 to |d.terms|
      invariant TermRef(d.terms, rest, 0) == TermRef(d.terms, rest, index)
    {
      if StartsWith(rest, d.terms[index]) {
        return Some((out + [TERM_REF, index], pos + |d.terms[index]|));
      }
    }
    if rest == [] { return None; }
    if rest[0] == SMALL_ATOM_UTF8_EXT {
      var name := ShortAtom(rest);
      if name.None? { return None; }
      return Some((out + CompactAtom(d, name.value), pos + 2 + |name.value|));
    }
    if IsContainer(rest) {
      var shape := Container(rest);
      if shape.None? { return None; }
      var (head, count) := shape.value;
      DropTwice(input, pos, head);
      r := CompactManyInto(d, input, pos + head, count, out + rest[..head], depth);
      ThenAgain(out, pos, rest[..head], head, CompactMany(d, rest[head..], count, depth));
      return;
    }
    var size := LeafSize(rest);
    if size.None? { return None; }
    return Some((out + rest[..size.value], pos + size.value));
  }

  /** `compact_many`. */
  method CompactManyInto(d: Dictionary, input: Bytes, start: nat, count: nat, prefix: Bytes, depth: nat) returns (r: Step)
    requires d.Valid() && start <= |input| && depth <= MAX_DEPTH
    ensures r == Then(prefix, start, CompactMany(d, input[start..], count, depth))
    decreases MAX_DEPTH + 1 - depth, 0, count
  {
    hide CompactTerm, CompactMany;
    var pos: nat, out := start, prefix;
    for i := 0 to count
      invariant pos <= |input|
      invariant Then(prefix, start, CompactMany(d, input[start..], count, depth))
             == Then(out, pos, CompactMany(d, input[pos..], count - i, depth))
    {
      NextTerm(d, input[pos..], count - i, depth);
      ghost var term := CompactTerm(d, input[pos..], depth + 1);
      var next := CompactTermInto(d, input, pos, out, depth + 1);
      if next.None? { return None; }
      DropTwice(input, pos, term.value.1);
      ThenAgain(out, pos, term.value.0, term.value.1, CompactMany(d, input[next.value.1..], count - i - 1, depth));
      out, pos := next.value.0, next.value.1;
    }
    NoTerms(d, input[pos..], depth);
    assert out + [] == out;
    return Some((out, pos));
  }

  lemma NoTerms(d: Dictionary, rest: Bytes, depth: nat)
    requires d.Valid() && depth <= MAX_DEPTH
    ensures CompactMany(d, rest, 0, depth) == Some(([], 0))
  {}

  lemma NextExpanded(d: Dictionary, rest: Bytes, count: nat, depth: nat)
    requires depth <= MAX_DEPTH && count > 0
    ensures ExpandMany(d, rest, count, depth)
         == match ExpandTerm(d, rest, depth + 1) {
              case None => None
              case Some((first, size)) => Then(first, size, ExpandMany(d, rest[size..], count - 1, depth))
            }
  {}

  /** `expand_term`. */
  method ExpandTermInto(d: Dictionary, input: Bytes, pos: nat, out: Bytes, depth: nat) returns (r: Step)
    requires pos <= |input| && depth <= MAX_DEPTH + 1
    ensures r == Then(out, pos, ExpandTerm(d, input[pos..], depth))
    decreases MAX_DEPTH + 1 - depth, 1, 0
  {
    hide ExpandMany, LeafSize, Container, ShortAtom, Reference;
    var rest := input[pos..];
    if depth > MAX_DEPTH || rest == [] { return None; }
    if 1 <= rest[0] <= 3 {
      var reference := Reference(d, rest);
      if reference.None? { return None; }
      return Some((out + reference.value.0, pos + reference.value.1));
    }
    if rest[0] == SMALL_ATOM_UTF8_EXT {
      var name := ShortAtom(rest);
      if name.None? { return None; }
      return Some((out + rest[..2 + |name.value|], pos + 2 + |name.value|));
    }
    if IsContainer(rest) {
      var shape := Container(rest);
      if shape.None? { return None; }
      var (head, count) := shape.value;
      DropTwice(input, pos, head);
      r := ExpandManyInto(d, input, pos + head, count, out + rest[..head], depth);
      ThenAgain(out, pos, rest[..head], head, ExpandMany(d, rest[head..], count, depth));
      return;
    }
    var size := LeafSize(rest);
    if size.None? { return None; }
    return Some((out + rest[..size.value], pos + size.value));
  }

  /** `expand_many`. */
  method ExpandManyInto(d: Dictionary, input: Bytes, start: nat, count: nat, prefix: Bytes, depth: nat) returns (r: Step)
    requires start <= |input| && depth <= MAX_DEPTH
    ensures r == Then(prefix, start, ExpandMany(d, input[start..], count, depth))
    decreases MAX_DEPTH + 1 - depth, 0, count
  {
    hide ExpandTerm, ExpandMany;
    var pos: nat, out := start, prefix;
    for i := 0 to count
      invariant pos <= |input|
      invariant Then(prefix, start, ExpandMany(d, input[start..], count, depth))
             == Then(out, pos, ExpandMany(d, input[pos..], count - i, depth))
    {
      NextExpanded(d, input[pos..], count - i, depth);
      ghost var term := ExpandTerm(d, input[pos..], depth + 1);
      var next := ExpandTermInto(d, input, pos, out, depth + 1);
      if next.None? { return None; }
      DropTwice(input, pos, term.value.1);
      ThenAgain(out, pos, term.value.0, term.value.1, ExpandMany(d, input[next.value.1..], count - i - 1, depth));
      out, pos := next.value.0, next.value.1;
    }
    NoneLeft(d, input[pos..], depth);
    assert out + [] == out;
    return Some((out, pos));
  }

  /** `expand`. */
  method ExpandCommand(d: Dictionary, input: Bytes) returns (r: Option<Bytes>)
    ensures r == Expand(d, input)
  {
    hide ExpandTerm;
    if |input| < 2 || input[0] != MAGIC || input[1] != DICTIONARY_V1 { return None; }
    var body := input[2..];
    assert body[0..] == body;
    var step := ExpandTermInto(d, body, 0, [VERSION_MAGIC], 0);
    if step.None? { return None; }
    var (out, used) := step.value;
    if used == |body| { return Some(out); }
    return None;
  }

  /** `compact`. */
  method CompactCommand(d: Dictionary, input: Bytes) returns (r: Option<Bytes>)
    requires d.Valid()
    ensures r == Compact(d, input)
  {
    hide CompactTerm, ExpandTerm, Expand;
    if input == [] || input[0] != VERSION_MAGIC { return None; }
    var body := input[1..];
    assert body[0..] == body;
    var step := CompactTermInto(d, body, 0, [MAGIC, DICTIONARY_V1], 0);
    if step.None? { return None; }
    var (out, used) := step.value;
    if used != |body| || |out| >= |input| { return None; }
    var expanded := ExpandCommand(d, out);
    if expanded == Some(input) { return Some(out); }
    return None;
  }
}
