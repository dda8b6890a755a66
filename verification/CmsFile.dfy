/** The CMS file: a 32-byte header (magic, width, depth, total), the counters, and, after
    the bytes modelled here, the mutation footer. Planned after-images stay below the
    footer and leave a body that reads back as exactly the planned state. */
module CmsFile {
  import opened Bytes
  import opened AfterImages
  import opened Counters
  import opened CountMin
  import opened Cms
  import opened CmsMerge

  const MAGIC: u64 := 0x434D_535F_4649_4C31
  const MAX_DEPTH: nat := 1024
  const MAX_COUNTERS: nat := 16_777_216

  predicate ValidSize(width: nat, depth: nat) {
    width > 0 && 0 < depth <= MAX_DEPTH && width * depth <= MAX_COUNTERS
  }

  /** `cms_file_read_header`, then all counters. */
  function ReadCms(body: Bytes): (r: Result<Source>)
    ensures r.Ok? ==>
      && ValidSize(r.value.width, r.value.depth)
      && |r.value.state.counters| == r.value.width * r.value.depth && AllI64(r.value.state.counters)
      && |body| == Offset(r.value.width * r.value.depth)
  {
    SpanValues();
    if |body| < HEADER_SIZE || FromLe(body[..8]) != MAGIC then Err
    else
      var width, depth := FromLe(body[8..16]), FromLe(body[16..24]);
      if !ValidSize(width, depth) || |body| != Offset(width * depth) then Err
      else Ok(Source(width, depth, State(DecodeCounters(body[32..]), FromLe(body[24..32]))))
  }

  function TotalImage(total: u64): Image { Image(24, ToLe(total, 8)) }

  // ---------------------------------------------------------------------
  // Writes that keep the header
  // ---------------------------------------------------------------------

  /** The header fields are those of `body`, the total aside. */
  ghost predicate SameShape(f: Bytes, body: Bytes) {
    |f| == |body| && |body| >= HEADER_SIZE && f[..24] == body[..24]
  }

  lemma ShapeReads(body: Bytes, f: Bytes, total: u64, counters: seq<int>)
    requires ReadCms(body).Ok? && SameShape(f, body)
    requires f[24..32] == ToLe(total, 8) && DecodeCounters(f[32..]) == counters
    ensures ReadCms(f) == Ok(ReadCms(body).value.(state := State(counters, total)))
  {
    hide FromLe, ToLe, Span, DecodeCounters;
    SpanValues();
    LeRoundTrip(total, 8);
    assert f[..8] == f[..24][..8] && body[..8] == body[..24][..8];
    assert f[8..16] == f[..24][8..16] && body[8..16] == body[..24][8..16];
    assert f[16..24] == f[..24][16..24] && body[16..24] == body[..24][16..24];
  }

  lemma TotalWrite(f: Bytes, total: u64)
    requires |f| >= HEADER_SIZE
    ensures var g := WriteAt(f, TotalImage(total));
      SameShape(g, f) && g[24..32] == ToLe(total, 8) && g[32..] == f[32..]
  {
    hide ToLe, WriteAt;
    var image := TotalImage(total);
    WriteReads(f, image);
    WriteKeeps(f, image, 0, 24);
    WriteKeeps(f, image, 32, |f|);
  }

  // ---------------------------------------------------------------------
  // Increments
  // ---------------------------------------------------------------------

  /** One counter written in place. */
  lemma CounterWrite(f: Bytes, n: nat, i: nat, v: i64)
    requires |f| == Offset(n) && i < n <= MAX_COUNTERS
    ensures Offset(i) + 8 <= |f|
    ensures var g := WriteAt(f, Image(Offset(i), EncodeI64(v)));
      SameShape(g, f) && DecodeCounters(g[32..]) == DecodeCounters(f[32..])[i := v]
  {
    hide WriteAt, EncodeI64, DecodeI64, DecodeCounters;
    var image := Image(Offset(i), EncodeI64(v));
    var g := WriteAt(f, image);
    WriteKeeps(f, image, 0, 24);
    forall j | 0 <= j < n ensures DecodeCounters(g[32..])[j] == DecodeCounters(f[32..])[i := v][j] {
      DecodedAt(g[32..], j);
      DecodedAt(f[32..], j);
      CounterSlice(g, j);
      CounterSlice(f, j);
      if j == i {
        WriteReads(f, image);
        I64RoundTrip(v);
      } else {
        WriteKeeps(f, image, Offset(j), Offset(j) + 8);
      }
    }
  }

  lemma CounterSlice(f: Bytes, j: nat)
    requires Offset(j) + 8 <= |f|
    ensures f[32..][8 * j..8 * j + 8] == f[Offset(j)..Offset(j) + 8]
  {
    SliceOfSlice(f, 32, |f|, 8 * j, 8 * j + 8);
    assert f[32..|f|] == f[32..];
  }

  ghost predicate Writable(staged: map<nat, int>) {
    forall o :: o in staged ==> o <= U64_MAX && -(I64_MAX + 1) <= staged[o] <= I64_MAX
  }

  /** The images of the staged counters among the first `n` cells, in offset order. */
  ghost function CounterImages(staged: map<nat, int>, n: nat): seq<Image>
    requires Writable(staged)
  {
    if n == 0 then []
    else if Offset(n - 1) in staged then
      CounterImages(staged, n - 1) + [Image(Offset(n - 1), EncodeI64(staged[Offset(n - 1)]))]
    else CounterImages(staged, n - 1)
  }

  /** They are the plan's updates one by one. */
  lemma {:induction false} ImagesOfUpdates(staged: map<nat, int>, n: nat)
    requires Writable(staged)
    ensures var u, images := InOrder(staged, n), CounterImages(staged, n);
      |u| == |images| && forall i :: 0 <= i < |u| ==>
        u[i].0 <= U64_MAX && -(I64_MAX + 1) <= u[i].1 <= I64_MAX && images[i] == Image(u[i].0, EncodeI64(u[i].1))
  {
    hide EncodeI64;
    if n > 0 {
      ImagesOfUpdates(staged, n - 1);
    }
  }

  function OverlayTo(c: seq<int>, staged: map<nat, int>, n: nat): (v: seq<int>)
    ensures |v| == |c|
  {
    seq(|c|, i requires 0 <= i < |c| => if i < n && Offset(i) in staged then staged[Offset(i)] else c[i])
  }

  lemma OverlayToStep(c: seq<int>, staged: map<nat, int>, n: nat)
    requires n < |c|
    ensures OverlayTo(c, staged, 0) == c && OverlayTo(c, staged, |c|) == Overlay(c, staged)
    ensures OverlayTo(c, staged, n + 1)
         == if Offset(n) in staged then OverlayTo(c, staged, n)[n := staged[Offset(n)]] else OverlayTo(c, staged, n)
  {}

  lemma {:induction false} CounterImagesApply(body: Bytes, m: nat, staged: map<nat, int>, n: nat)
    requires |body| == Offset(m) && n <= m <= MAX_COUNTERS && 0 < m && Writable(staged)
    ensures Fits(CounterImages(staged, n), |body|)
    ensures var f := ApplyImages(body, CounterImages(staged, n));
      SameShape(f, body) && DecodeCounters(f[32..]) == OverlayTo(DecodeCounters(body[32..]), staged, n)
    decreases n
  {
    hide WriteAt, EncodeI64, DecodeCounters, OverlayTo;
    var c := DecodeCounters(body[32..]);
    if n == 0 {
      OverlayToStep(c, staged, 0);
    } else {
      CounterImagesApply(body, m, staged, n - 1);
      OverlayToStep(c, staged, n - 1);
      if Offset(n - 1) in staged {
        var images, v := CounterImages(staged, n - 1), staged[Offset(n - 1)];
        CounterWrite(ApplyImages(body, images), m, n - 1, v);
        ApplySnoc(body, images, Image(Offset(n - 1), EncodeI64(v)));
      }
    }
  }

  /** The plan of a batch of increments: below the footer, and read back exactly. */
  lemma IncrementsReadBack(body: Bytes, staged: map<nat, int>, total: u64)
    requires ReadCms(body).Ok? && Writable(staged)
    ensures var n := |ReadCms(body).value.state.counters|;
      var images := CounterImages(staged, n) + [TotalImage(total)];
      && Fits(images, |body|)
      && ReadCms(ApplyImages(body, images))
         == Ok(ReadCms(body).value.(state := State(Overlay(ReadCms(body).value.state.counters, staged), total)))
  {
    hide DecodeCounters, CounterImages, ApplyImages, WriteAt, FromLe, ToLe, Overlay, OverlayTo;
    var c := ReadCms(body).value.state.counters;
    var n := |c|;
    OverlayToStep(c, staged, n - 1);
    CounterImagesApply(body, n, staged, n);
    var f := ApplyImages(body, CounterImages(staged, n));
    ApplySnoc(body, CounterImages(staged, n), TotalImage(total));
    TotalWrite(f, total);
    ShapeReads(body, WriteAt(f, TotalImage(total)), total, Overlay(c, staged));
  }

  // ---------------------------------------------------------------------
  // Merges
  // ---------------------------------------------------------------------

  /** Chunk `i` starts where `i` full chunks end. */
  ghost function ChunkImages(chunks: seq<seq<int>>): (images: seq<Image>)
    requires FullChunks(chunks, |chunks| - 1) && Offset(CHUNK_COUNTERS * |chunks|) <= U64_MAX
    decreases |chunks|
  {
    if chunks == [] then []
    else
      var n := |chunks| - 1;
      ChunkImages(chunks[..n]) + [Image(Offset(CHUNK_COUNTERS * n), EncodeCounters(chunks[n]))]
  }

  lemma {:induction false} FlattenLength(chunks: seq<seq<int>>)
    requires FullChunks(chunks, |chunks| - 1)
    ensures AllI64(Flatten(chunks))
    ensures chunks != [] ==>
      |Flatten(chunks)| == CHUNK_COUNTERS * (|chunks| - 1) + |chunks[|chunks| - 1]|
    ensures FullChunks(chunks, |chunks|) ==> |Flatten(chunks)| == CHUNK_COUNTERS * |chunks|
    decreases |chunks|
  {
    if chunks != [] {
      FlattenLength(chunks[..|chunks| - 1]);
    }
  }

  lemma ShorterChunks(chunks: seq<seq<int>>)
    requires chunks != [] && FullChunks(chunks, |chunks| - 1)
    ensures var n := |chunks| - 1; FullChunks(chunks[..n], n) && FullChunks(chunks[..n], n - 1) && AllI64(chunks[n])
  {}

  lemma {:induction false} ChunkImagesApply(body: Bytes, chunks: seq<seq<int>>)
    requires FullChunks(chunks, |chunks| - 1) && Offset(CHUNK_COUNTERS * |chunks|) <= U64_MAX
    requires Offset(|Flatten(chunks)|) <= |body|
    ensures Fits(ChunkImages(chunks), |body|) && AllI64(Flatten(chunks))
    ensures var f := ApplyImages(body, ChunkImages(chunks));
      SameShape(f, body) && f[32..Offset(|Flatten(chunks)|)] == EncodeCounters(Flatten(chunks))
    decreases |chunks|
  {
    hide WriteAt, EncodeCounters, FullChunks;
    FlattenLength(chunks);
    if chunks == [] {
      assert EncodeCounters(Flatten(chunks)) == [];
    } else {
      var n := |chunks| - 1;
      ShorterChunks(chunks);
      FlattenLength(chunks[..n]);
      var done := Flatten(chunks[..n]);
      ChunkImagesApply(body, chunks[..n]);
      var f := ApplyImages(body, ChunkImages(chunks[..n]));
      var image := Image(Offset(CHUNK_COUNTERS * n), EncodeCounters(chunks[n]));
      ApplySnoc(body, ChunkImages(chunks[..n]), image);
      EncodeAppend(done, chunks[n]);
      ChunkWrite(f, image, |done|, EncodeCounters(done));
    }
  }

  lemma ChunkWrite(f: Bytes, image: Image, done: nat, prefix: Bytes)
    requires image.offset == Offset(done) && image.End() <= |f| && f[32..Offset(done)] == prefix
    ensures var g := WriteAt(f, image);
      SameShape(g, f) && g[32..image.End()] == prefix + image.bytes
  {
    hide WriteAt;
    WriteReads(f, image);
    WriteKeeps(f, image, 0, 24);
    WriteKeeps(f, image, 32, Offset(done));
    SliceJoin(WriteAt(f, image), 32, image.offset, image.End());
  }

  /** The plan of a merge: below the footer, and read back exactly. */
  lemma MergeReadsBack(body: Bytes, chunks: seq<seq<int>>, total: u64)
    requires ReadCms(body).Ok? && FullChunks(chunks, |chunks| - 1)
    requires |Flatten(chunks)| == |ReadCms(body).value.state.counters|
    requires Offset(CHUNK_COUNTERS * |chunks|) <= U64_MAX
    ensures var images := ChunkImages(chunks) + [TotalImage(total)];
      && Fits(images, |body|)
      && ReadCms(ApplyImages(body, images))
         == Ok(ReadCms(body).value.(state := State(Flatten(chunks), total)))
  {
    hide DecodeCounters, EncodeCounters, ChunkImages, ApplyImages, WriteAt, FromLe, ToLe, FullChunks, Flatten;
    ChunkImagesApply(body, chunks);
    var f := ApplyImages(body, ChunkImages(chunks));
    ApplySnoc(body, ChunkImages(chunks), TotalImage(total));
    TotalWrite(f, total);
    assert f[32..|f|] == f[32..];
    CountersRoundTrip(Flatten(chunks));
    ShapeReads(body, WriteAt(f, TotalImage(total)), total, Flatten(chunks));
  }

  // ---------------------------------------------------------------------
  // The code
  // ---------------------------------------------------------------------

  function SketchOf(file: Source, h1: Bytes -> u64, h2: Bytes -> u64): Sketch {
    Sketch(file.width, file.depth, h1, h2)
  }

  lemma StagedIsWritable(c: seq<int>, staged: map<nat, int>)
    requires |c| <= MAX_COUNTERS && Cells(staged, |c|) && AllI64(Overlay(c, staged))
    ensures Writable(staged)
  {
    forall o | o in staged ensures o <= U64_MAX && -(I64_MAX + 1) <= staged[o] <= I64_MAX {
      var i: nat :| i < |c| && o == Offset(i);
      OverlayAt(c, staged, i);
    }
  }

  method BuildImages(updates: seq<(nat, int)>, ghost staged: map<nat, int>, ghost n: nat) returns (images: seq<Image>)
    requires Writable(staged) && updates == InOrder(staged, n)
    ensures images == CounterImages(staged, n)
  {
    hide CounterImages, InOrder, EncodeI64;
    ImagesOfUpdates(staged, n);
    images := [];
    for i := 0 to |updates|
      invariant images == CounterImages(staged, n)[..i]
    {
      images := images + [Image(updates[i].0, EncodeI64(updates[i].1))];
    }
    assert CounterImages(staged, n)[..|updates|] == CounterImages(staged, n);
  }

  /** The images turn a readable body into one that reads as the batch counted once, and the
      counts are the batch's. */
  ghost predicate Planned(body: Bytes, items: seq<Item>, h1: Bytes -> u64, h2: Bytes -> u64, images: seq<Image>, counts: seq<int>) {
    && Fits(images, |body|) && ReadCms(body).Ok?
    && var file := ReadCms(body).value;
       var staged := CountAll(SketchOf(file, h1, h2), file.state, items);
       && staged.Some? && staged.value.counts == counts
       && ReadCms(ApplyImages(body, images)) == Ok(file.(state := staged.value.state))
       && OnlyTotal(images)
  }

  /** The only header field the images write is the total. */
  ghost predicate OnlyTotal(images: seq<Image>) {
    forall i :: 0 <= i < |images| ==> images[i].offset >= HEADER_SIZE || (images[i].offset == 24 && |images[i].bytes| == 8)
  }

  lemma {:induction false} CounterImagesAbove(staged: map<nat, int>, n: nat)
    requires Writable(staged)
    ensures OnlyTotal(CounterImages(staged, n))
  {
    hide EncodeI64;
    if n > 0 {
      CounterImagesAbove(staged, n - 1);
    }
  }

  lemma {:induction false} ChunkImagesAbove(chunks: seq<seq<int>>)
    requires FullChunks(chunks, |chunks| - 1) && Offset(CHUNK_COUNTERS * |chunks|) <= U64_MAX
    ensures OnlyTotal(ChunkImages(chunks))
    decreases |chunks|
  {
    hide EncodeCounters;
    if chunks != [] {
      ChunkImagesAbove(chunks[..|chunks| - 1]);
    }
  }

  /** The Apply branch of `cms_transactional_incrby`: the images to commit and the counts
      to answer. */
  method PlanIncrements(body: Bytes, items: seq<Item>, h1: Bytes -> u64, h2: Bytes -> u64)
    returns (r: Result<(seq<Image>, seq<int>)>)
    ensures r.Ok? <==>
      && ReadCms(body).Ok?
      && CountAll(SketchOf(ReadCms(body).value, h1, h2), ReadCms(body).value.state, items).Some?
    ensures r.Ok? ==> Planned(body, items, h1, h2, r.value.0, r.value.1) && AllI64(r.value.1)
  {
    hide ReadCms, CountAll, CounterImages, InOrder, ApplyImages, Overlay, Cells, EncodeI64;
    var read := ReadCms(body);
    if read.Err? { return Err; }
    var file := read.value;
    ReadIsSmall(body);
    var plan, staged := StageIncrements(SketchOf(file, h1, h2), file.state.counters, file.state.total, items);
    if plan.Err? { return Err; }
    StagedIsWritable(file.state.counters, staged);
    var images := BuildImages(plan.value.updates, staged, |file.state.counters|);
    IncrementsReadBack(body, staged, plan.value.total);
    CounterImagesAbove(staged, |file.state.counters|);
    CountsAreI64(SketchOf(file, h1, h2), file.state, items);
    return Ok((images + [TotalImage(plan.value.total)], plan.value.counts));
  }

  method BuildChunkImages(chunks: seq<seq<int>>) returns (images: seq<Image>)
    requires FullChunks(chunks, |chunks| - 1) && Offset(CHUNK_COUNTERS * |chunks|) <= U64_MAX
    ensures images == ChunkImages(chunks)
  {
    hide EncodeCounters;
    images := [];
    for i := 0 to |chunks|
      invariant images == ChunkImages(chunks[..i])
    {
      assert chunks[..i + 1][..i] == chunks[..i];
      images := images + [Image(Offset(CHUNK_COUNTERS * i), EncodeCounters(chunks[i]))];
    }
    assert chunks[..|chunks|] == chunks;
  }

  /** The images turn a readable body into one that reads as the merge. */
  ghost predicate MergePlanned(body: Bytes, sources: seq<Source>, weights: seq<int>, h1: Bytes -> u64, h2: Bytes -> u64,
                               images: seq<Image>)
  {
    && Fits(images, |body|) && ReadCms(body).Ok? && Readable(sources)
    && var file := ReadCms(body).value;
       var merged := MergeInto(SketchOf(file, h1, h2), file.state, sources, weights);
       && merged.Some?
       && ReadCms(ApplyImages(body, images)) == Ok(file.(state := merged.value))
       && OnlyTotal(images)
  }

  /** `cms_stage_merge` over files that have been read: the images to commit. */
  method PlanMerge(body: Bytes, sources: seq<Source>, weights: seq<int>, h1: Bytes -> u64, h2: Bytes -> u64)
    returns (r: Result<seq<Image>>)
    requires Readable(sources)
    ensures r.Ok? <==>
      && ReadCms(body).Ok?
      && MergeInto(SketchOf(ReadCms(body).value, h1, h2), ReadCms(body).value.state, sources, weights).Some?
    ensures r.Ok? ==> MergePlanned(body, sources, weights, h1, h2, r.value) && (r.value == [] <==> sources == [])
  {
    hide ReadCms, MergeInto, ChunkImages, FullChunks, Flatten, Readable;
    var read := ReadCms(body);
    if read.Err? { return Err; }
    var file := read.value;
    ReadIsSmall(body);
    var plan := StageMerge(SketchOf(file, h1, h2), file.state, sources, weights);
    if plan.Err? { return Err; }
    if sources == [] {
      return Ok([]);
    }
    var chunks := plan.value.chunks;
    ChunksAreFew(chunks, |file.state.counters|);
    var images := BuildChunkImages(chunks);
    MergeReadsBack(body, chunks, plan.value.total.value);
    ChunkImagesAbove(chunks);
    return Ok(images + [TotalImage(plan.value.total.value)]);
  }

  lemma ChunksAreFew(chunks: seq<seq<int>>, n: nat)
    requires FullChunks(chunks, |chunks| - 1) && |Flatten(chunks)| == n <= MAX_COUNTERS
    ensures Offset(CHUNK_COUNTERS * |chunks|) <= U64_MAX
  {
    FlattenLength(chunks);
  }

  lemma ReadIsSmall(body: Bytes)
    requires ReadCms(body).Ok?
    ensures |ReadCms(body).value.state.counters| <= MAX_COUNTERS
  {}

  // ---------------------------------------------------------------------
  // Replays
  // ---------------------------------------------------------------------

  /** `cms_decode_counts`. */
  function DecodeCounts(encoded: Bytes, expected: nat): Result<seq<int>> {
    if |encoded| != 8 * expected then Err else Ok(DecodeCounters(encoded))
  }

  lemma CountsRoundTrip(counts: seq<int>)
    requires AllI64(counts)
    ensures DecodeCounts(EncodeCounters(counts), |counts|) == Ok(counts)
  {
    CountersRoundTrip(counts);
  }
}
