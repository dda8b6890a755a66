/** The TopK file: fixed header, counter matrix, heap slots and, after the bytes modelled
    here, the mutation footer. Staging reads the body, runs the batch in memory and plans
    after-images; the plan is proved to stay below the footer and to leave a body that
    reads back as exactly the new counters and heap. */
module TopKFile {
  import opened Bytes
  import opened AfterImages
  import opened CountMin
  import opened Counters
  import opened TopK
  import opened TopKResults
  import IH = IndexedHeap

  const MAGIC: Bytes := [84, 79, 80, 75, 70, 83, 48, 49]
  const HEADER_SIZE: nat := 64
  const HEAP_ENTRY_SIZE: nat := 264
  const MAX_TOPK_K: nat := 100_000
  const MAX_TOPK_CMS_COUNTERS: nat := 1_048_576

  datatype Header = Header(k: nat, width: nat, depth: nat, heapLen: nat) {
    function HeapOffset(): nat { HEADER_SIZE + 8 * (width * depth) }
    function TokenOffset(): nat { HeapOffset() + HEAP_ENTRY_SIZE * k }

    predicate Valid() {
      && 0 < k <= MAX_TOPK_K && width > 0 && depth > 0 && heapLen <= k
      && width * depth <= MAX_TOPK_CMS_COUNTERS
    }
  }

  /** A body that has been read: the header fields, the counters and the stored entries. */
  datatype Contents = Contents(header: Header, counters: seq<int>, entries: seq<IH.Entry>)

  // ---------------------------------------------------------------------
  // Heap slots
  // ---------------------------------------------------------------------

  function EncodeEntry(e: IH.Entry): (s: Bytes)
    requires |e.element| <= MAX_ELEMENT_LEN
    ensures |s| == HEAP_ENTRY_SIZE
  {
    EncodeI64(e.count) + (ToLe(|e.element|, 4) + (e.element + Zeros(MAX_ELEMENT_LEN - |e.element|)))
  }

  function DecodeEntry(s: Bytes): (r: Result<IH.Entry>)
    requires |s| == HEAP_ENTRY_SIZE
    ensures r.Ok? ==> |r.value.element| <= MAX_ELEMENT_LEN
  {
    var length := FromLe(s[8..12]);
    if length > MAX_ELEMENT_LEN then Err else Ok(IH.Entry(s[12..12 + length], DecodeI64(s[..8])))
  }

  lemma EntryRoundTrip(e: IH.Entry)
    requires |e.element| <= MAX_ELEMENT_LEN
    ensures DecodeEntry(EncodeEntry(e)) == Ok(e)
  {
    hide EncodeI64, DecodeI64, ToLe, FromLe, Span;
    SpanValues();
    I64RoundTrip(e.count);
    LeRoundTrip(|e.element|, 4);
    Join3(EncodeI64(e.count), ToLe(|e.element|, 4), e.element, Zeros(MAX_ELEMENT_LEN - |e.element|));
  }

  predicate ShortElements(entries: seq<IH.Entry>) {
    forall i :: 0 <= i < |entries| ==> |entries[i].element| <= MAX_ELEMENT_LEN
  }

  function EncodeHeap(entries: seq<IH.Entry>): (s: Bytes)
    requires ShortElements(entries)
    ensures |s| == HEAP_ENTRY_SIZE * |entries|
  {
    if entries == [] then [] else EncodeEntry(entries[0]) + EncodeHeap(entries[1..])
  }

  function DecodeHeap(s: Bytes): (r: Result<seq<IH.Entry>>)
    ensures r.Ok? ==> ShortElements(r.value) && |r.value| == |s| / HEAP_ENTRY_SIZE
  {
    if |s| < HEAP_ENTRY_SIZE then Ok([])
    else
      match DecodeEntry(s[..HEAP_ENTRY_SIZE])
      case Err => Err
      case Ok(first) =>
        match DecodeHeap(s[HEAP_ENTRY_SIZE..])
        case Err => Err
        case Ok(rest) => Ok([first] + rest)
  }

  lemma {:induction false} HeapRoundTrip(entries: seq<IH.Entry>)
    requires ShortElements(entries)
    ensures DecodeHeap(EncodeHeap(entries)) == Ok(entries)
    decreases |entries|
  {
    hide EncodeEntry, DecodeEntry;
    if entries != [] {
      var s := EncodeHeap(entries);
      assert s[..HEAP_ENTRY_SIZE] == EncodeEntry(entries[0]) && s[HEAP_ENTRY_SIZE..] == EncodeHeap(entries[1..]);
      EntryRoundTrip(entries[0]);
      HeapRoundTrip(entries[1..]);
      assert entries == [entries[0]] + entries[1..];
    }
  }

  // ---------------------------------------------------------------------
  // Reading a body
  // ---------------------------------------------------------------------

  function ReadHeader(body: Bytes): (r: Result<Header>)
    ensures r.Ok? ==> r.value.Valid() && r.value.TokenOffset() == |body|
  {
    if |body| < HEADER_SIZE || body[..8] != MAGIC then Err
    else
      var h := Header(FromLe(body[8..12]), FromLe(body[12..16]), FromLe(body[16..20]), FromLe(body[20..24]));
      if !h.Valid() || body[24..64] != Zeros(40) || h.TokenOffset() != |body| then Err else Ok(h)
  }

  /** What reading a body of that size guarantees. */
  ghost predicate Loaded(c: Contents, size: nat) {
    && c.header.Valid() && c.header.TokenOffset() == size
    && |c.counters| == c.header.width * c.header.depth && AllI64(c.counters)
    && |c.entries| == c.header.heapLen && ShortElements(c.entries) && IH.Distinct(c.entries)
  }

  function ReadContents(body: Bytes): (r: Result<Contents>)
    ensures r.Ok? ==> Loaded(r.value, |body|)
  {
    match ReadHeader(body)
    case Err => Err
    case Ok(h) =>
      var heap := h.HeapOffset();
      match DecodeHeap(body[heap..heap + HEAP_ENTRY_SIZE * h.heapLen])
      case Err => Err
      case Ok(entries) =>
        if IH.Distinct(entries) then Ok(Contents(h, DecodeCounters(body[HEADER_SIZE..heap]), entries)) else Err
  }

  // ---------------------------------------------------------------------
  // The plan
  // ---------------------------------------------------------------------

  function Images(h: Header, counters: seq<int>, entries: seq<IH.Entry>): seq<Image>
    requires h.Valid() && AllI64(counters) && ShortElements(entries)
  {
    SmallLayout(h);
    [Image(HEADER_SIZE, EncodeCounters(counters))]
    + (if entries == [] then [] else [Image(h.HeapOffset(), EncodeHeap(entries))])
    + [Image(20, ToLe(|entries|, 4))]
  }

  lemma SmallLayout(h: Header)
    requires h.Valid()
    ensures h.HeapOffset() <= U64_MAX && h.TokenOffset() + 16 <= U64_MAX
  {}

  /** Every byte the plan writes lies below the footer. */
  lemma PlanFits(h: Header, counters: seq<int>, entries: seq<IH.Entry>)
    requires h.Valid() && AllI64(counters) && ShortElements(entries)
    requires |counters| == h.width * h.depth && |entries| <= h.k
    ensures Fits(Images(h, counters, entries), h.TokenOffset())
  {}

  /** What the written body holds, region by region. */
  lemma PlanRegions(body: Bytes, h: Header, counters: seq<int>, entries: seq<IH.Entry>)
    requires h.Valid() && AllI64(counters) && ShortElements(entries) && h.TokenOffset() == |body|
    requires |counters| == h.width * h.depth && |entries| <= h.k
    ensures Fits(Images(h, counters, entries), |body|)
    ensures var f, heap := ApplyImages(body, Images(h, counters, entries)), h.HeapOffset();
      && f[..20] == body[..20] && f[20..24] == ToLe(|entries|, 4) && f[24..64] == body[24..64]
      && f[HEADER_SIZE..heap] == EncodeCounters(counters)
      && f[heap..heap + HEAP_ENTRY_SIZE * |entries|] == EncodeHeap(entries)
  {
    hide ToLe, EncodeCounters, EncodeHeap, WriteAt;
    PlanFits(h, counters, entries);
    SmallLayout(h);
    var heap := h.HeapOffset();
    var end := heap + HEAP_ENTRY_SIZE * |entries|;
    var a, c := Image(HEADER_SIZE, EncodeCounters(counters)), Image(20, ToLe(|entries|, 4));
    var f1 := WriteAt(body, a);
    WriteReads(body, a);
    WriteKeeps(body, a, 0, 20);
    WriteKeeps(body, a, 24, 64);
    ApplySnoc(body, [], a);
    assert [] + [a] == [a];
    if entries == [] {
      ApplySnoc(body, [a], c);
      assert Images(h, counters, entries) == [a] + [c];
      FinalWrite(f1, c, heap, end);
      assert EncodeHeap(entries) == [];
    } else {
      var b := Image(heap, EncodeHeap(entries));
      ApplySnoc(body, [a], b);
      ApplySnoc(body, [a] + [b], c);
      assert Images(h, counters, entries) == [a] + [b] + [c];
      WriteReads(f1, b);
      WriteKeeps(f1, b, 0, 20);
      WriteKeeps(f1, b, 24, 64);
      WriteKeeps(f1, b, HEADER_SIZE, heap);
      FinalWrite(WriteAt(f1, b), c, heap, end);
    }
  }

  lemma FinalWrite(f: Bytes, c: Image, heap: nat, end: nat)
    requires c.offset == 20 && |c.bytes| == 4 && 64 <= heap <= end <= |f|
    ensures var g := WriteAt(f, c);
      && g[..20] == f[0..20] && g[20..24] == c.bytes && g[24..64] == f[24..64]
      && g[64..heap] == f[64..heap] && g[heap..end] == f[heap..end]
  {
    hide WriteAt;
    WriteReads(f, c);
    WriteKeeps(f, c, 0, 20);
    WriteKeeps(f, c, 24, 64);
    WriteKeeps(f, c, 64, heap);
    WriteKeeps(f, c, heap, end);
  }

  lemma HeaderReadsBack(body: Bytes, f: Bytes, h: Header, heapLen: nat)
    requires ReadHeader(body) == Ok(h) && |f| == |body| && heapLen <= h.k
    requires f[..20] == body[..20] && f[20..24] == ToLe(heapLen, 4) && f[24..64] == body[24..64]
    ensures ReadHeader(f) == Ok(h.(heapLen := heapLen))
  {
    hide ToLe, FromLe, Span, Zeros;
    SpanValues();
    LeRoundTrip(heapLen, 4);
    assert f[..8] == f[..20][..8] && body[..8] == body[..20][..8];
    assert f[8..12] == f[..20][8..12] && body[8..12] == body[..20][8..12];
    assert f[12..16] == f[..20][12..16] && body[12..16] == body[..20][12..16];
    assert f[16..20] == f[..20][16..20] && body[16..20] == body[..20][16..20];
  }

  lemma SameLayout(h: Header, heapLen: nat)
    ensures h.(heapLen := heapLen).HeapOffset() == h.HeapOffset()
  {}

  lemma LayoutFits(f: Bytes, h: Header)
    requires ReadHeader(f) == Ok(h)
    ensures HEADER_SIZE <= h.HeapOffset() && h.HeapOffset() + HEAP_ENTRY_SIZE * h.heapLen <= |f|
  {
    hide ReadHeader;
    assert HEAP_ENTRY_SIZE * h.heapLen <= HEAP_ENTRY_SIZE * h.k;
  }

  lemma ReadsAs(f: Bytes, h: Header, counters: seq<int>, entries: seq<IH.Entry>)
    requires ReadHeader(f) == Ok(h) && IH.Distinct(entries)
    requires HEADER_SIZE <= h.HeapOffset() && h.HeapOffset() + HEAP_ENTRY_SIZE * h.heapLen <= |f|
    requires DecodeCounters(f[HEADER_SIZE..h.HeapOffset()]) == counters
    requires DecodeHeap(f[h.HeapOffset()..h.HeapOffset() + HEAP_ENTRY_SIZE * h.heapLen]) == Ok(entries)
    ensures ReadContents(f) == Ok(Contents(h, counters, entries))
  {
    hide ReadHeader, DecodeHeap, DecodeCounters, IH.Distinct;
  }

  /** The planned body reads back as exactly the new counters and entries. */
  lemma PlanReadsBack(body: Bytes, h: Header, counters: seq<int>, entries: seq<IH.Entry>)
    requires ReadHeader(body) == Ok(h) && AllI64(counters) && ShortElements(entries) && IH.Distinct(entries)
    requires |counters| == h.width * h.depth && |entries| <= h.k
    ensures Fits(Images(h, counters, entries), |body|)
    ensures ReadContents(ApplyImages(body, Images(h, counters, entries)))
         == Ok(Contents(h.(heapLen := |entries|), counters, entries))
  {
    hide ReadHeader, ReadContents, ApplyImages, DecodeHeap, DecodeCounters, EncodeHeap, EncodeCounters, Images, IH.Distinct,
      Header.HeapOffset, Header.TokenOffset;
    SameLayout(h, |entries|);
    PlanRegions(body, h, counters, entries);
    var f := ApplyImages(body, Images(h, counters, entries));
    HeaderReadsBack(body, f, h, |entries|);
    CountersRoundTrip(counters);
    HeapRoundTrip(entries);
    LayoutFits(f, h.(heapLen := |entries|));
    ReadsAs(f, h.(heapLen := |entries|), counters, entries);
  }

  // ---------------------------------------------------------------------
  // The code
  // ---------------------------------------------------------------------

  ghost function StateOf(c: Contents): State
    requires IH.Distinct(c.entries)
  {
    State(c.counters, IH.ModelOf(c.entries))
  }

  function SketchOf(h: Header, h1: Bytes -> u64, h2: Bytes -> u64): Sketch {
    Sketch(h.width, h.depth, h1, h2)
  }

  /** What a batch makes of a loaded file. */
  ghost function BatchOutcome(c: Contents, updates: seq<Update>, h1: Bytes -> u64, h2: Bytes -> u64): Option<Staged>
    requires exists size :: Loaded(c, size)
  {
    AddAll(SketchOf(c.header, h1, h2), c.header.k, StateOf(c), updates)
  }

  /** The images turn a readable body into one that reads as the batch added once, and the
      results are the batch's. */
  ghost predicate Planned(body: Bytes, updates: seq<Update>, h1: Bytes -> u64, h2: Bytes -> u64,
                          images: seq<Image>, results: seq<Option<Bytes>>)
  {
    && ReadContents(body).Ok? && Fits(images, |body|)
    && var before := ReadContents(body).value;
       var after := ReadContents(ApplyImages(body, images));
       && after.Ok? && after.value.header == before.header.(heapLen := |after.value.entries|)
       && BatchOutcome(before, updates, h1, h2) == Some(Staged(StateOf(after.value), results))
       && PlanShape(images, |after.value.entries|)
  }

  /** The heap length is the last image and the only one in the header. */
  ghost predicate PlanShape(images: seq<Image>, n: nat) {
    && images != [] && images[|images| - 1] == Image(20, ToLe(n, 4))
    && forall i :: 0 <= i < |images| - 1 ==> images[i].offset >= HEADER_SIZE
  }

  lemma ImagesShape(h: Header, counters: seq<int>, entries: seq<IH.Entry>)
    requires h.Valid() && AllI64(counters) && ShortElements(entries)
    ensures PlanShape(Images(h, counters, entries), |entries|)
  {
    hide ToLe, EncodeCounters, EncodeHeap;
  }

  /** `v2_stage_mutation`: the images of a batch and its results. */
  method Stage(body: Bytes, updates: seq<Update>, h1: Bytes -> u64, h2: Bytes -> u64)
    returns (r: Result<(seq<Image>, seq<Option<Bytes>>)>)
    ensures r.Ok? ==> Planned(body, updates, h1, h2, r.value.0, r.value.1)
    ensures r.Err? && ReadContents(body).Ok? ==>
      var staged := BatchOutcome(ReadContents(body).value, updates, h1, h2);
      staged.None? || exists x :: x in staged.value.state.heap && |x| > MAX_ELEMENT_LEN
  {
    hide ReadContents, AddAll, Images, ApplyImages, IH.Distinct, IH.ModelOf, Bounded;
    var read := ReadContents(body);
    if read.Err? { return Err; }
    var Contents(header, counters, entries) := read.value;
    CountersBounded(read.value, |body|, h1, h2);
    var staged := StageMutation(SketchOf(header, h1, h2), header.k, counters, entries, updates);
    if staged.Err? { return Err; }
    var (counters', entries', results) := staged.value;
    for i := 0 to |entries'|
      invariant forall j :: 0 <= j < i ==> |entries'[j].element| <= MAX_ELEMENT_LEN
    {
      if |entries'[i].element| > MAX_ELEMENT_LEN {
        InModel(entries', i);
        return Err;
      }
    }
    NewCounters(read.value, |body|, updates, h1, h2, counters', entries', results);
    HeaderOf(body);
    PlanReadsBack(body, header, counters', entries');
    ImagesShape(header, counters', entries');
    return Ok((Images(header, counters', entries'), results));
  }

  lemma CountersBounded(c: Contents, size: nat, h1: Bytes -> u64, h2: Bytes -> u64)
    requires Loaded(c, size)
    ensures Bounded(SketchOf(c.header, h1, h2), c.counters)
  {}

  lemma InModel(entries: seq<IH.Entry>, i: nat)
    requires IH.Distinct(entries) && i < |entries|
    ensures entries[i].element in IH.ModelOf(entries)
  {}

  /** The staged counters are a full matrix of i64 again. */
  lemma NewCounters(c: Contents, size: nat, updates: seq<Update>, h1: Bytes -> u64, h2: Bytes -> u64,
                    counters: seq<int>, entries: seq<IH.Entry>, results: seq<Option<Bytes>>)
    requires Loaded(c, size) && IH.Distinct(entries)
    requires BatchOutcome(c, updates, h1, h2) == Some(Staged(State(counters, IH.ModelOf(entries)), results))
    ensures |counters| == c.header.width * c.header.depth && AllI64(counters)
  {
    hide AddAll;
    CountersBounded(c, size, h1, h2);
  }

  lemma HeaderOf(body: Bytes)
    requires ReadContents(body).Ok?
    ensures ReadHeader(body) == Ok(ReadContents(body).value.header)
  {}

  // ---------------------------------------------------------------------
  // Replays
  // ---------------------------------------------------------------------

  ghost predicate ShortKeys(heap: IH.Model) { forall x :: x in heap ==> |x| <= MAX_ELEMENT_LEN }

  predicate ShortUpdates(updates: seq<Update>) {
    forall i :: 0 <= i < |updates| ==> |updates[i].element| <= MAX_ELEMENT_LEN
  }

  /** A batch of short elements evicts short elements only. */
  lemma {:induction false} EvictedAreShort(s: Sketch, k: nat, st: State, updates: seq<Update>)
    requires Sound(s, st) && k > 0 && AddAll(s, k, st, updates).Some?
    requires ShortKeys(st.heap) && ShortUpdates(updates)
    ensures ShortKeys(AddAll(s, k, st, updates).value.state.heap)
    ensures UpTo(AddAll(s, k, st, updates).value.evicted, MAX_ELEMENT_LEN)
    decreases |updates|
  {
    hide Estimate, Incremented, Room;
    if updates != [] {
      EvictedAreShort(s, k, st, updates[..|updates| - 1]);
    }
  }

  /** What a batch that passed the length check answers can be stored, and a replay of the
      committed receipt decodes to that first answer. */
  lemma ReplayAnswersTheSame(body: Bytes, updates: seq<Update>, h1: Bytes -> u64, h2: Bytes -> u64,
                             images: seq<Image>, results: seq<Option<Bytes>>)
    requires Planned(body, updates, h1, h2, images, results) && ShortUpdates(updates) && |updates| <= U32_MAX
    ensures |results| == |updates| && EncodeResults(results).Ok?
    ensures DecodeResults(EncodeResults(results).value, |updates|) == Ok(results)
  {
    hide ReadContents, AddAll, ApplyImages, EncodeResults, DecodeResults;
    var c := ReadContents(body).value;
    CountersBounded(c, |body|, h1, h2);
    EvictedAreShort(SketchOf(c.header, h1, h2), c.header.k, StateOf(c), updates);
    StorableEncodes(results);
    ResultsRoundTrip(results);
  }
}
