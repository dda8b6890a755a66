/** `bloom_stage_transactional_madd`: from a body and a batch to answers and after-images. */
module BloomStage {
  import opened Bytes
  import opened AfterImages
  import opened Bits
  import opened Bloom
  import opened BloomFile

  type Touched = map<nat, (byte, byte)>

  ghost predicate Increasing(offsets: seq<nat>) {
    forall i, j :: 0 <= i < j < |offsets| ==> offsets[i] < offsets[j]
  }

  ghost predicate Lists(offsets: seq<nat>, keys: set<nat>) {
    forall o :: o in offsets <==> o in keys
  }

  /** Offsets `from..to` follow one another without a gap. */
  ghost predicate Run(offsets: seq<nat>, from: nat, to: nat)
    requires from < to <= |offsets|
  {
    forall i :: from <= i < to ==> offsets[i] == offsets[from] + (i - from)
  }

  /** The end of the run that starts at `start`: as long as it can be. */
  method RunEnd(offsets: seq<nat>, start: nat) returns (end: nat)
    requires start < |offsets|
    ensures start < end <= |offsets| && Run(offsets, start, end)
    ensures end < |offsets| ==> offsets[end] != offsets[end - 1] + 1
  {
    end := start + 1;
    while end < |offsets| && offsets[end] == offsets[end - 1] + 1
      invariant start < end <= |offsets| && Run(offsets, start, end)
    {
      end := end + 1;
    }
  }

  /** The touched offsets in increasing order. */
  method Sorted(keys: set<nat>, limit: nat) returns (offsets: seq<nat>)
    requires forall o :: o in keys ==> o < limit
    ensures Increasing(offsets) && Lists(offsets, keys)
  {
    offsets := [];
    for o := 0 to limit
      invariant Increasing(offsets)
      invariant forall x :: x in offsets <==> x in keys && x < o
    {
      assert forall i :: 0 <= i < |offsets| ==> offsets[i] in offsets;
      if o in keys { offsets := offsets + [o]; }
    }
  }

  // ---------------------------------------------------------------------
  // Loading
  // ---------------------------------------------------------------------

  /** The first `n` offsets are loaded: both halves hold the file's byte. */
  ghost predicate Loaded(touched: Touched, body: Bytes, offsets: seq<nat>, n: nat)
    requires n <= |offsets|
  {
    && (forall o :: o in touched <==> o in offsets[..n])
    && (forall o :: o in touched ==> o < |body| && touched[o] == (body[o], body[o]))
  }

  /** `bloom_load_touched_bytes`: one read per run. */
  method Load(body: Bytes, offsets: seq<nat>) returns (touched: Touched)
    requires forall i :: 0 <= i < |offsets| ==> offsets[i] < |body|
    ensures Loaded(touched, body, offsets, |offsets|)
  {
    touched := map[];
    var start := 0;
    while start < |offsets|
      invariant 0 <= start <= |offsets|
      invariant Loaded(touched, body, offsets, start)
    {
      var end := RunEnd(offsets, start);
      assert offsets[end - 1] == offsets[start] + (end - 1 - start);
      var buffer := body[offsets[start]..offsets[start] + (end - start)];
      for i := start to end
        invariant Loaded(touched, body, offsets, i)
      {
        assert buffer[i - start] == body[offsets[i]];
        assert offsets[..i + 1] == offsets[..i] + [offsets[i]];
        touched := touched[offsets[i] := (buffer[i - start], buffer[i - start])];
      }
      start := end;
    }
  }

  // ---------------------------------------------------------------------
  // Run images
  // ---------------------------------------------------------------------

  /** The first `n` offsets hold their new bytes; every other byte is the body's. */
  ghost predicate Written(f: Bytes, body: Bytes, touched: Touched, offsets: seq<nat>, n: nat)
    requires n <= |offsets| && Lists(offsets, touched.Keys)
  {
    && |f| == |body|
    && forall i :: 0 <= i < |f| ==>
         f[i] == if i in offsets[..n] then touched[i].1 else body[i]
  }

  predicate Changed(touched: Touched, offsets: seq<nat>)
    requires forall i :: 0 <= i < |offsets| ==> offsets[i] in touched
  {
    exists i :: 0 <= i < |offsets| && touched[offsets[i]].0 != touched[offsets[i]].1
  }

  function NewBytes(touched: Touched, offsets: seq<nat>): (b: Bytes)
    requires forall i :: 0 <= i < |offsets| ==> offsets[i] in touched
    ensures |b| == |offsets|
  {
    seq(|offsets|, i requires 0 <= i < |offsets| => touched[offsets[i]].1)
  }

  lemma InRun(offsets: seq<nat>, from: nat, to: nat, x: nat)
    requires from < to <= |offsets| && Run(offsets, from, to)
    ensures x in offsets[from..to] <==> offsets[from] <= x < offsets[from] + (to - from)
    ensures x in offsets[..to] <==> x in offsets[..from] || x in offsets[from..to]
  {
    assert offsets[..to] == offsets[..from] + offsets[from..to];
    if offsets[from] <= x < offsets[from] + (to - from) {
      assert offsets[from..to][x - offsets[from]] == x;
    }
  }

  /** Writing a run brings the file up to its end. */
  lemma RunWrite(f: Bytes, body: Bytes, touched: Touched, offsets: seq<nat>, from: nat, to: nat)
    requires Lists(offsets, touched.Keys) && Originals(touched, body) && |body| <= U64_MAX
    requires from < to <= |offsets| && Run(offsets, from, to)
    requires Written(f, body, touched, offsets, from)
    ensures offsets[from] + (to - from) <= |f|
    ensures Written(WriteAt(f, Image(offsets[from], NewBytes(touched, offsets[from..to]))), body, touched, offsets, to)
  {
    assert offsets[to - 1] in offsets && offsets[to - 1] == offsets[from] + (to - 1 - from);
    var image := Image(offsets[from], NewBytes(touched, offsets[from..to]));
    var g := WriteAt(f, image);
    forall i | 0 <= i < |g| ensures g[i] == if i in offsets[..to] then touched[i].1 else body[i] {
      InRun(offsets, from, to, i);
      if image.Covers(i) {
        assert offsets[from..to][i - offsets[from]] == i;
      }
    }
  }

  /** A run in which nothing changed needs no image. */
  lemma RunSkipped(f: Bytes, body: Bytes, touched: Touched, offsets: seq<nat>, from: nat, to: nat)
    requires Lists(offsets, touched.Keys) && Originals(touched, body)
    requires from < to <= |offsets| && Run(offsets, from, to)
    requires Written(f, body, touched, offsets, from) && !Changed(touched, offsets[from..to])
    ensures Written(f, body, touched, offsets, to)
  {}

  ghost predicate AllAboveHeader(images: seq<Image>) {
    forall i :: 0 <= i < |images| ==> images[i].offset >= HEADER_SIZE
  }

  /** The coalescing loop: one image per run that changed. */
  method Coalesce(body: Bytes, touched: Touched, offsets: seq<nat>) returns (images: seq<Image>)
    requires Lists(offsets, touched.Keys) && Originals(touched, body) && |body| <= U64_MAX
    ensures Fits(images, |body|) && AllAboveHeader(images)
    ensures ApplyImages(body, images) == View(body, touched)
  {
    hide WriteAt, NewBytes, Run, View, Written;
    images := [];
    var start := 0;
    NothingWritten(body, touched, offsets);
    while start < |offsets|
      invariant 0 <= start <= |offsets|
      invariant Fits(images, |body|) && AllAboveHeader(images)
      invariant Written(ApplyImages(body, images), body, touched, offsets, start)
    {
      var end := RunEnd(offsets, start);
      var run := offsets[start..end];
      assert offsets[start] in touched.Keys;
      assert forall i :: 0 <= i < |run| ==> run[i] in offsets;
      if Changed(touched, run) {
        RunWrite(ApplyImages(body, images), body, touched, offsets, start, end);
        var image := Image(run[0], NewBytes(touched, run));
        ApplySnoc(body, images, image);
        images := images + [image];
      } else {
        RunSkipped(ApplyImages(body, images), body, touched, offsets, start, end);
      }
      start := end;
    }
    AllWritten(ApplyImages(body, images), body, touched, offsets);
  }

  lemma NothingWritten(body: Bytes, touched: Touched, offsets: seq<nat>)
    requires Lists(offsets, touched.Keys)
    ensures Written(ApplyImages(body, []), body, touched, offsets, 0)
  {}

  lemma AllWritten(f: Bytes, body: Bytes, touched: Touched, offsets: seq<nat>)
    requires Lists(offsets, touched.Keys) && Written(f, body, touched, offsets, |offsets|)
    ensures f == View(body, touched)
  {}

  // ---------------------------------------------------------------------
  // The header
  // ---------------------------------------------------------------------

  function CountImage(count: u64): Image { Image(24, ToLe(count, 8)) }

  /** Touched bytes lie behind the header, so only the bits change. */
  lemma ViewReads(body: Bytes, touched: Touched)
    requires ReadBloom(body).Ok? && Originals(touched, body)
    ensures var c := ReadBloom(body).value;
      ReadBloom(View(body, touched)) == Ok(c.(bits := BitsOf(View(body, touched), c.numBits)))
  {
    hide FromLe, BitsOf;
    var v := View(body, touched);
    assert v[..8] == body[..8] && v[8..16] == body[8..16] && v[16..20] == body[16..20];
    assert v[20..24] == body[20..24] && v[24..32] == body[24..32];
  }

  lemma CountWrite(f: Bytes, count: u64)
    requires ReadBloom(f).Ok?
    ensures ReadBloom(WriteAt(f, CountImage(count))) == Ok(ReadBloom(f).value.(count := count))
  {
    hide FromLe, ToLe, Span, WriteAt, BitsOf;
    SpanValues();
    LeRoundTrip(count, 8);
    var image := CountImage(count);
    var g := WriteAt(f, image);
    WriteReads(f, image);
    WriteKeeps(f, image, 0, 8);
    WriteKeeps(f, image, 8, 16);
    WriteKeeps(f, image, 16, 20);
    WriteKeeps(f, image, 20, 24);
    WriteKeeps(f, image, 32, |f|);
    assert g[0..8] == g[..8] && f[0..8] == f[..8];
    SameBits(f, g, ReadBloom(f).value.numBits);
  }

  lemma SameBits(f: Bytes, g: Bytes, numBits: nat)
    requires |f| == |g| == BodySize(numBits) && g[32..|g|] == f[32..|f|]
    ensures BitsOf(g, numBits) == BitsOf(f, numBits)
  {}

  // ---------------------------------------------------------------------
  // The whole batch
  // ---------------------------------------------------------------------

  ghost predicate AllMasks(f: Filter, elements: seq<Bytes>, masks: seq<seq<(nat, nat)>>, keys: set<nat>)
    requires f.numBits > 0 && |masks| <= |elements|
  {
    forall i :: 0 <= i < |masks| ==>
      MasksOf(f, elements[i], masks[i]) && forall j :: 0 <= j < |masks[i]| ==> masks[i][j].0 in keys
  }

  /** The masks of one element; the bytes they touch join `keys`. */
  method ElementMasks(f: Filter, e: Bytes, keys: set<nat>) returns (masks: seq<(nat, nat)>, all: set<nat>)
    requires f.Valid() && forall o :: o in keys ==> HEADER_SIZE <= o < BodySize(f.numBits)
    ensures MasksOf(f, e, masks) && keys <= all
    ensures forall j :: 0 <= j < |masks| ==> masks[j].0 in all
    ensures forall o :: o in all ==> HEADER_SIZE <= o < BodySize(f.numBits)
  {
    hide Filter.Position;
    masks, all := [], keys;
    for i := 0 to f.numHashes
      invariant |masks| == i && keys <= all
      invariant forall j :: 0 <= j < i ==>
        masks[j] == (ByteOf(f.Position(e, j)), f.Position(e, j) % 8) && masks[j].0 in all
      invariant forall o :: o in all ==> HEADER_SIZE <= o < BodySize(f.numBits)
    {
      var p := f.Position(e, i);
      ByteInRange(f.numBits, p);
      all := all + {ByteOf(p)};
      masks := masks + [(ByteOf(p), p % 8)];
    }
  }

  method BatchMasks(f: Filter, elements: seq<Bytes>) returns (masks: seq<seq<(nat, nat)>>, keys: set<nat>)
    requires f.Valid()
    ensures |masks| == |elements| && AllMasks(f, elements, masks, keys)
    ensures forall o :: o in keys ==> HEADER_SIZE <= o < BodySize(f.numBits)
  {
    hide MasksOf;
    masks, keys := [], {};
    for i := 0 to |elements|
      invariant |masks| == i && AllMasks(f, elements, masks, keys)
      invariant forall o :: o in keys ==> HEADER_SIZE <= o < BodySize(f.numBits)
    {
      var own, all := ElementMasks(f, elements[i], keys);
      masks, keys := masks + [own], all;
    }
  }

  /** The element loop: bits, count and answers as if the elements were added one at a time. */
  method AddElements(f: Filter, body: Bytes, touched: Touched, count: u64, elements: seq<Bytes>, masks: seq<seq<(nat, nat)>>)
    returns (next: Touched, total: u64, answers: seq<bool>)
    requires f.Valid() && |body| == BodySize(f.numBits) && Originals(touched, body)
    requires |masks| == |elements| && AllMasks(f, elements, masks, touched.Keys)
    requires count + |elements| <= U64_MAX
    ensures Originals(next, body) && next.Keys == touched.Keys
    ensures AddAll(f, State(BitsOf(View(body, touched), f.numBits), count), elements)
         == (State(BitsOf(View(body, next), f.numBits), total), answers)
    ensures true !in answers ==> total == count
  {
    hide BitsOf, View, Filter.Owned, Filter.Position;
    next, total, answers := touched, count, [];
    ghost var start := State(BitsOf(View(body, touched), f.numBits), count);
    for i := 0 to |elements|
      invariant Originals(next, body) && next.Keys == touched.Keys
      invariant AddAll(f, start, elements[..i]) == (State(BitsOf(View(body, next), f.numBits), total), answers)
      invariant total <= count + i && (true !in answers ==> total == count)
    {
      assert elements[..i + 1][..i] == elements[..i];
      var anyNew;
      next, anyNew := SetMasks(f, body, next, elements[i], masks[i]);
      if anyNew { total := total + 1; }
      answers := answers + [anyNew];
      assert anyNew ==> answers[i];
    }
    assert elements[..|elements|] == elements;
  }

  function FilterOf(c: Contents, h1: Bytes -> u64, h2: Bytes -> u64): Filter {
    Filter(c.numBits, c.numHashes, h1, h2)
  }

  ghost function StateOf(c: Contents): State { State(c.bits, c.count) }

  /** The images turn a readable body into one that reads as the elements added one at a time,
      and the answers are theirs; the only header field they write is the count, if it changes. */
  ghost predicate Planned(body: Bytes, elements: seq<Bytes>, h1: Bytes -> u64, h2: Bytes -> u64,
                          images: seq<Image>, answers: seq<bool>)
  {
    && Fits(images, |body|) && ReadBloom(body).Ok?
    && var c := ReadBloom(body).value;
       var (st, answered) := AddAll(FilterOf(c, h1, h2), StateOf(c), elements);
       && answered == answers && st.count <= U64_MAX
       && ReadBloom(ApplyImages(body, images)) == Ok(c.(bits := st.bits, count := st.count))
       && (forall i :: 0 <= i < |images| ==> images[i].offset >= HEADER_SIZE || images[i] == CountImage(st.count))
       && (true in answers ==> CountImage(st.count) in images)
  }

  /** The batch answers and leaves the bits and the count that adding the elements one at a
      time would; its images stay below the footer. */
  method Stage(body: Bytes, elements: seq<Bytes>, h1: Bytes -> u64, h2: Bytes -> u64)
    returns (r: Result<(seq<bool>, seq<Image>)>)
    ensures r.Ok? <==>
      && ReadBloom(body).Ok? && Acceptable(ReadBloom(body).value)
      && Allowed(FilterOf(ReadBloom(body).value, h1, h2), elements)
    ensures r.Ok? ==> Planned(body, elements, h1, h2, r.value.1, r.value.0)
  {
    hide ReadBloom, View, BitsOf, AddAll, AllMasks, Originals, ApplyImages;
    var read := ReadBloom(body);
    if read.Err? || !Acceptable(read.value) { return Err; }
    var c := read.value;
    var f := FilterOf(c, h1, h2);
    if !Allowed(f, elements) { return Err; }
    SmallBatch(f, elements);
    var masks, keys := BatchMasks(f, elements);
    var offsets := Sorted(keys, |body|);
    assert forall i :: 0 <= i < |offsets| ==> offsets[i] in offsets;
    var loaded := Load(body, offsets);
    LoadedIsOriginal(loaded, body, offsets, keys);
    assert AllMasks(f, elements, masks, loaded.Keys);
    var touched, count, answers := AddElements(f, body, loaded, c.count, elements, masks);
    var images := Coalesce(body, touched, offsets);
    ViewReads(body, touched);
    if true in answers {
      CountWrite(View(body, touched), count);
      ApplySnoc(body, images, CountImage(count));
      images := images + [CountImage(count)];
    }
    return Ok((answers, images));
  }

  /** `bloom_file_exists`: stops at the first clear bit. */
  method Exists(body: Bytes, e: Bytes, h1: Bytes -> u64, h2: Bytes -> u64) returns (r: Result<bool>)
    ensures r.Ok? <==> ReadBloom(body).Ok? && Acceptable(ReadBloom(body).value)
    ensures r.Ok? ==> var c := ReadBloom(body).value;
      r.value <==> Reported(FilterOf(c, h1, h2), StateOf(c), e)
  {
    hide BitsOf, Filter.Position;
    var read := ReadBloom(body);
    if read.Err? || !Acceptable(read.value) { return Err; }
    var f := FilterOf(read.value, h1, h2);
    for i := 0 to f.numHashes
      invariant f.Positions(e, i) <= BitsOf(body, f.numBits)
    {
      var p := f.Position(e, i);
      InBits(body, f.numBits, p);
      if !Bit(body[ByteOf(p)], p % 8) {
        Owns(f, e, i);
        return Ok(false);
      }
    }
    return Ok(true);
  }

  lemma {:induction false} OwnsUpTo(f: Filter, e: Bytes, i: nat, k: nat)
    requires f.numBits > 0 && i < k
    ensures f.Position(e, i) in f.Positions(e, k)
    decreases k
  {
    if i < k - 1 {
      OwnsUpTo(f, e, i, k - 1);
    }
  }

  lemma Owns(f: Filter, e: Bytes, i: nat)
    requires f.numBits > 0 && i < f.numHashes
    ensures f.Position(e, i) in f.Owned(e)
  {
    OwnsUpTo(f, e, i, f.numHashes);
  }

  lemma SmallBatch(f: Filter, elements: seq<Bytes>)
    requires f.Valid() && Allowed(f, elements)
    ensures |elements| <= MAX_BLOOM_HASH_VISITS
  {}

  lemma LoadedIsOriginal(loaded: Touched, body: Bytes, offsets: seq<nat>, keys: set<nat>)
    requires Loaded(loaded, body, offsets, |offsets|) && Lists(offsets, keys)
    requires forall o :: o in keys ==> HEADER_SIZE <= o < |body|
    ensures Originals(loaded, body) && loaded.Keys == keys && View(body, loaded) == body
  {
    assert offsets[..|offsets|] == offsets;
  }

  /** A file whose count does not exceed its set bits stays acceptable after the batch. */
  lemma StaysAcceptable(c: Contents, h1: Bytes -> u64, h2: Bytes -> u64, elements: seq<Bytes>)
    requires FilterOf(c, h1, h2).Valid() && c.count <= |c.bits| && forall p :: p in c.bits ==> p < c.numBits
    ensures var st := AddAll(FilterOf(c, h1, h2), StateOf(c), elements).0;
      && st.count <= |st.bits| <= c.numBits <= U64_MAX
      && Acceptable(c.(bits := st.bits, count := st.count))
  {
    hide AddAll;
    BatchKeeps(FilterOf(c, h1, h2), StateOf(c), elements);
    InBounds(AddAll(FilterOf(c, h1, h2), StateOf(c), elements).0.bits, c.numBits);
  }

  // ---------------------------------------------------------------------
  // Replays
  // ---------------------------------------------------------------------

  /** `bloom_encode_results`: one byte per element. */
  function EncodeAnswers(answers: seq<bool>): (s: Bytes)
    ensures |s| == |answers|
  {
    seq(|answers|, i requires 0 <= i < |answers| => if answers[i] then 1 else 0)
  }

  /** `bloom_decode_results`. */
  function DecodeAnswers(encoded: Bytes, expected: nat): Result<seq<bool>> {
    if |encoded| != expected || exists i :: 0 <= i < |encoded| && encoded[i] > 1 then Err
    else Ok(seq(|encoded|, i requires 0 <= i < |encoded| => encoded[i] == 1))
  }

  /** A replay decodes the stored answers, and accepted bytes are the encoding of what they decode to. */
  lemma AnswersRoundTrip(answers: seq<bool>, encoded: Bytes, expected: nat)
    ensures DecodeAnswers(EncodeAnswers(answers), |answers|) == Ok(answers)
    ensures DecodeAnswers(encoded, expected).Ok? ==> EncodeAnswers(DecodeAnswers(encoded, expected).value) == encoded
  {
    assert DecodeAnswers(EncodeAnswers(answers), |answers|).value == answers;
  }
}
