/** Positioned writes and after-images: what a list of (offset, bytes) writes
    does to a file, and which bytes of the file it does not depend on. */
module AfterImages {
  import opened Bytes

  datatype Image = Image(offset: u64, bytes: Bytes) {
    function End(): nat { offset + |bytes| }
    predicate Covers(i: int) { offset <= i < End() }
  }

  predicate Fits(images: seq<Image>, size: nat) {
    forall i :: 0 <= i < |images| ==> images[i].End() <= size
  }

  /** `write_all_at`: overwrite in place; the length does not change. */
  function WriteAt(file: Bytes, image: Image): (f: Bytes)
    requires image.End() <= |file|
    ensures |f| == |file|
    ensures forall i :: 0 <= i < |f| ==>
      f[i] == if image.Covers(i) then image.bytes[i - image.offset] else file[i]
  {
    file[..image.offset] + image.bytes + file[image.End()..]
  }

  /** The images written in order. */
  function ApplyImages(file: Bytes, images: seq<Image>): (f: Bytes)
    requires Fits(images, |file|)
    ensures |f| == |file|
    decreases |images|
  {
    if images == [] then file else ApplyImages(WriteAt(file, images[0]), images[1..])
  }

  ghost predicate Covered(images: seq<Image>, i: int) {
    exists k :: 0 <= k < |images| && images[k].Covers(i)
  }

  lemma CoveredSplit(images: seq<Image>, i: int)
    requires images != []
    ensures Covered(images, i) <==> images[0].Covers(i) || Covered(images[1..], i)
  {}

  /** A byte no image covers keeps its value; a covered byte forgets it. */
  lemma {:induction false} ApplyDependsOnUncovered(f: Bytes, g: Bytes, images: seq<Image>)
    requires |f| == |g| && Fits(images, |f|)
    requires forall i :: 0 <= i < |f| && !Covered(images, i) ==> f[i] == g[i]
    ensures ApplyImages(f, images) == ApplyImages(g, images)
    decreases |images|
  {
    if images == [] {
      assert forall i :: 0 <= i < |f| ==> !Covered(images, i);
      assert f == g;
    } else {
      var f1, g1 := WriteAt(f, images[0]), WriteAt(g, images[0]);
      forall i | 0 <= i < |f| && !Covered(images[1..], i) ensures f1[i] == g1[i] {
        CoveredSplit(images, i);
      }
      ApplyDependsOnUncovered(f1, g1, images[1..]);
    }
  }

  lemma {:induction false} ApplyKeepsUncovered(f: Bytes, images: seq<Image>, i: nat)
    requires Fits(images, |f|) && i < |f| && !Covered(images, i)
    ensures ApplyImages(f, images)[i] == f[i]
    decreases |images|
  {
    if images != [] {
      CoveredSplit(images, i);
      ApplyKeepsUncovered(WriteAt(f, images[0]), images[1..], i);
    }
  }

  lemma {:induction false} ApplyAppend(f: Bytes, xs: seq<Image>, ys: seq<Image>)
    requires Fits(xs, |f|) && Fits(ys, |f|)
    ensures Fits(xs + ys, |f|)
    ensures ApplyImages(f, xs + ys) == ApplyImages(ApplyImages(f, xs), ys)
    decreases |xs|
  {
    if xs == [] {
      assert xs + ys == ys;
    } else {
      assert (xs + ys)[0] == xs[0] && (xs + ys)[1..] == xs[1..] + ys;
      ApplyAppend(WriteAt(f, xs[0]), xs[1..], ys);
    }
  }

  /** Images below the end of `body` leave what follows it alone. */
  lemma {:induction false} ApplyBelow(body: Bytes, tail: Bytes, images: seq<Image>)
    requires Fits(images, |body|)
    ensures Fits(images, |body + tail|)
    ensures ApplyImages(body + tail, images) == ApplyImages(body, images) + tail
    decreases |images|
  {
    if images != [] {
      assert WriteAt(body + tail, images[0]) == WriteAt(body, images[0]) + tail;
      ApplyBelow(WriteAt(body, images[0]), tail, images[1..]);
    }
  }

  // ---------------------------------------------------------------------
  // Short lists of images, region by region
  // ---------------------------------------------------------------------

  lemma WriteReads(f: Bytes, image: Image)
    requires image.End() <= |f|
    ensures WriteAt(f, image)[image.offset..image.End()] == image.bytes
  {}

  lemma WriteKeeps(f: Bytes, image: Image, i: nat, j: nat)
    requires image.End() <= |f| && i <= j <= |f| && (j <= image.offset || image.End() <= i)
    ensures WriteAt(f, image)[i..j] == f[i..j]
  {}

  lemma ApplySnoc(f: Bytes, xs: seq<Image>, a: Image)
    requires Fits(xs, |f|) && a.End() <= |f|
    ensures Fits(xs + [a], |f|)
    ensures ApplyImages(f, xs + [a]) == WriteAt(ApplyImages(f, xs), a)
  {
    hide WriteAt;
    ApplyAppend(f, xs, [a]);
    assert ApplyImages(WriteAt(ApplyImages(f, xs), a), []) == WriteAt(ApplyImages(f, xs), a);
  }
}
