/** Byte strings: fixed-width integers in both byte orders, and the
    lexicographic order that Rust gives `[u8]`. */
module Bytes {

  type byte = b: nat | b < 256
  type Bytes = seq<byte>

  datatype Option<+T> = None | Some(value: T)
  datatype Result<+T> = Ok(value: T) | Err

  const U32_MAX: nat := 0xFFFF_FFFF
  const U64_MAX: nat := 0xFFFF_FFFF_FFFF_FFFF
  const I64_MAX: nat := 0x7FFF_FFFF_FFFF_FFFF

  type u32 = n: nat | n <= U32_MAX
  type u64 = n: nat | n <= U64_MAX
  type i64 = n: int | -(I64_MAX + 1) <= n <= I64_MAX

  function Least(a: int, b: int): int { if a <= b then a else b }

  function Max(a: int, b: int): int { if a < b then b else a }

  function Zeros(n: nat): (z: Bytes)
    ensures |z| == n && forall i :: 0 <= i < n ==> z[i] == 0
  {
    seq(n, _ => 0)
  }

  predicate IsAscii(text: string) { forall i :: 0 <= i < |text| ==> text[i] as int < 128 }

  function Ascii(text: string): (s: Bytes)
    requires IsAscii(text)
    ensures |s| == |text|
  {
    seq(|text|, i requires 0 <= i < |text| => text[i] as int)
  }

  // ---------------------------------------------------------------------
  // Fixed-width integers
  // ---------------------------------------------------------------------

  /** The number of values that fit in `width` bytes. */
  function Span(width: nat): (n: nat)
    ensures n > 0
  {
    if width == 0 then 1 else 256 * Span(width - 1)
  }

  /** `to_le_bytes`: the low `width` bytes of `n`, least significant first. */
  function ToLe(n: nat, width: nat): (s: Bytes)
    ensures |s| == width
    decreases width, n
  {
    if width == 0 then [] else [n % 256] + ToLe(n / 256, width - 1)
  }

  /** `from_le_bytes`. */
  function FromLe(s: Bytes): (n: nat)
    ensures n < Span(|s|)
  {
    if s == [] then 0 else s[0] + 256 * FromLe(s[1..])
  }

  lemma {:induction false} LeRoundTrip(n: nat, width: nat)
    requires n < Span(width)
    ensures FromLe(ToLe(n, width)) == n
  {
    if width > 0 {
      LeRoundTrip(n / 256, width - 1);
      assert ToLe(n, width)[1..] == ToLe(n / 256, width - 1);
    }
  }

  /** Later bytes weigh more: each digit counts 256 times the one before. */
  lemma {:induction false} LeConcat(s: Bytes, t: Bytes)
    ensures FromLe(s + t) == FromLe(s) + Span(|s|) * FromLe(t)
    ensures |s| == 1 ==> FromLe(s) == s[0]
    decreases |s|
  {
    if s == [] {
      assert s + t == t;
    } else {
      assert (s + t)[0] == s[0] && (s + t)[1..] == s[1..] + t;
      LeConcat(s[1..], t);
      Scaled(Span(|s| - 1), FromLe(t));
    }
  }

  lemma Scaled(a: nat, b: nat)
    ensures 256 * (a * b) == (256 * a) * b
  {}

  lemma LeRead(s: Bytes, n: nat, width: nat)
    requires s == ToLe(n, width) && n < Span(width)
    ensures FromLe(s) == n
  {}

  lemma {:induction false} LeCanonical(s: Bytes)
    ensures ToLe(FromLe(s), |s|) == s
  {
    if s != [] {
      LeCanonical(s[1..]);
      assert FromLe(s) % 256 == s[0] && FromLe(s) / 256 == FromLe(s[1..]);
      assert s == [s[0]] + s[1..];
    }
  }

  lemma SpanValues()
    ensures Span(2) == 0x1_0000
    ensures Span(4) == U32_MAX + 1
    ensures Span(8) == U64_MAX + 1
  {}

  /** `from_be_bytes`. */
  function FromBe(s: Bytes): (n: nat)
    ensures n < Span(|s|)
  {
    if s == [] then 0 else 256 * FromBe(s[..|s| - 1]) + s[|s| - 1]
  }

  /** `to_be_bytes`. */
  function ToBe(n: nat, width: nat): (s: Bytes)
    ensures |s| == width
    decreases width, n
  {
    if width == 0 then [] else ToBe(n / 256, width - 1) + [n % 256]
  }

  lemma {:induction false} BeRoundTrip(n: nat, width: nat)
    requires n < Span(width)
    ensures FromBe(ToBe(n, width)) == n
  {
    if width > 0 {
      BeRoundTrip(n / 256, width - 1);
      assert ToBe(n, width)[..width - 1] == ToBe(n / 256, width - 1);
    }
  }

  lemma {:induction false} BeCanonical(s: Bytes)
    ensures ToBe(FromBe(s), |s|) == s
  {
    if s != [] {
      var n := |s| - 1;
      BeCanonical(s[..n]);
      assert FromBe(s) / 256 == FromBe(s[..n]) && FromBe(s) % 256 == s[n];
      assert s == s[..n] + [s[n]];
    }
  }

  lemma SliceOfSlice<T>(s: seq<T>, from: nat, to: nat, i: nat, j: nat)
    requires from <= to <= |s| && i <= j <= to - from
    ensures s[from..to][i..j] == s[from + i..from + j]
  {
    var a := s[from..to];
    forall k | 0 <= k < j - i ensures a[i..j][k] == s[from + i..from + j][k] {
      assert a[i + k] == s[from + i + k];
    }
  }

  lemma SliceJoin<T>(s: seq<T>, i: nat, j: nat, k: nat)
    requires i <= j <= k <= |s|
    ensures s[i..k] == s[i..j] + s[j..k]
  {}

  lemma Join3<T>(a: seq<T>, b: seq<T>, c: seq<T>, d: seq<T>)
    ensures var s, i, j := a + (b + (c + d)), |a| + |b|, |a| + |b| + |c|;
      s[..|a|] == a && s[|a|..i] == b && s[i..j] == c && s[j..] == d
  {}

  lemma SplitAt3<T>(s: seq<T>, i: nat, j: nat, k: nat)
    requires i <= j <= k <= |s|
    ensures s == s[..i] + (s[i..j] + (s[j..k] + s[k..]))
  {}

  predicate StartsWith(s: Bytes, prefix: Bytes) { |prefix| <= |s| && s[..|prefix|] == prefix }

  // ---------------------------------------------------------------------
  // Lexicographic order
  // ---------------------------------------------------------------------

  predicate LexLess(a: Bytes, b: Bytes) {
    b != [] && (a == [] || a[0] < b[0] || (a[0] == b[0] && LexLess(a[1..], b[1..])))
  }

  predicate LexLeq(a: Bytes, b: Bytes) {
    a == b || LexLess(a, b)
  }

  lemma {:induction false} LexIrreflexive(a: Bytes)
    ensures !LexLess(a, a)
  {
    if a != [] {
      LexIrreflexive(a[1..]);
    }
  }

  lemma {:induction false} LexTransitive(a: Bytes, b: Bytes, c: Bytes)
    requires LexLess(a, b) && LexLess(b, c)
    ensures LexLess(a, c)
  {
    if a != [] && a[0] == b[0] && b[0] == c[0] {
      LexTransitive(a[1..], b[1..], c[1..]);
    }
  }

  lemma {:induction false} LexTotal(a: Bytes, b: Bytes)
    ensures LexLess(a, b) || a == b || LexLess(b, a)
    ensures !(LexLess(a, b) && LexLess(b, a))
  {
    if a != [] && b != [] && a[0] == b[0] {
      LexTotal(a[1..], b[1..]);
      if a[1..] == b[1..] {
        assert a == [a[0]] + a[1..] && b == [b[0]] + b[1..];
      }
    }
    if a == b {
      LexIrreflexive(a);
    }
  }

  /** `b` is larger at position `k`, the first where the two differ. */
  predicate FirstLess(a: Bytes, b: Bytes, k: nat) {
    k <= |a| && k < |b| && a[..k] == b[..k] && (k < |a| ==> a[k] < b[k])
  }

  /** The order decides at the first difference, and a proper prefix comes first. */
  lemma {:induction false} LexIsFirstDifference(a: Bytes, b: Bytes)
    ensures LexLess(a, b) <==> exists k: nat :: FirstLess(a, b, k)
    decreases |a|
  {
    if LexLess(a, b) {
      if a == [] || a[0] < b[0] {
        assert FirstLess(a, b, 0);
      } else {
        LexIsFirstDifference(a[1..], b[1..]);
        var k: nat :| FirstLess(a[1..], b[1..], k);
        assert a[..k + 1] == [a[0]] + a[1..][..k] && b[..k + 1] == [b[0]] + b[1..][..k];
        assert FirstLess(a, b, k + 1);
      }
    }
    if k: nat :| FirstLess(a, b, k) {
      if k > 0 {
        assert a[0] == a[..k][0] == b[..k][0] == b[0];
        assert a[1..][..k - 1] == a[..k][1..] && b[1..][..k - 1] == b[..k][1..];
        assert FirstLess(a[1..], b[1..], k - 1);
        LexIsFirstDifference(a[1..], b[1..]);
      }
    }
  }

  /** Appending a zero byte gives the immediate successor: nothing lies between. */
  lemma {:induction false} LexSuccessor(key: Bytes, x: Bytes)
    ensures LexLess(x, key + [0]) <==> LexLeq(x, key)
  {
    var up := key + [0];
    if key == [] {
      assert up == [0];
    } else if x != [] {
      assert up[0] == key[0] && up[1..] == key[1..] + [0];
      if x[0] == key[0] {
        LexSuccessor(key[1..], x[1..]);
        if x[1..] == key[1..] {
          assert x == [x[0]] + x[1..] && key == [key[0]] + key[1..];
        }
      }
    }
  }
}
