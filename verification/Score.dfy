/** Scores. An index score is an f64 that is not a NaN, ordered with both zeros equal.
    Its sign and magnitude bits read as one signed integer give the same order, and the
    next score is the next integer. */
module Score {
  import opened Bytes

  const SIGN: nat := 0x8000_0000_0000_0000
  const INFINITY: int := 0x7FF0_0000_0000_0000

  /** A score as a signed magnitude; minus infinity and infinity are the ends. */
  type Score = s: int | -INFINITY <= s <= INFINITY witness 0

  function Magnitude(bits: u64): nat { bits % SIGN }
  predicate Negative(bits: u64) { bits >= SIGN }
  predicate IsNan(bits: u64) { Magnitude(bits) > INFINITY }

  function ScoreOf(bits: u64): Score
    requires !IsNan(bits)
  {
    if Negative(bits) then 0 - Magnitude(bits) else Magnitude(bits)
  }

  /** `canonical`: minus zero becomes zero. */
  function Canonical(bits: u64): u64 { if Magnitude(bits) == 0 then 0 else bits }

  /** The key by which `total_cmp` compares: as a two's complement integer, with the other
      bits of a negative number inverted (totalOrder, section 5.10 of IEEE 754-2019). */
  function TotalKey(bits: u64): int {
    if Negative(bits) then -1 - Magnitude(bits) else Magnitude(bits)
  }

  /** The order of the index is the order of the integers. */
  lemma OrderIsIntegerOrder(a: u64, b: u64)
    requires !IsNan(a) && !IsNan(b)
    ensures TotalKey(Canonical(a)) < TotalKey(Canonical(b)) <==> ScoreOf(a) < ScoreOf(b)
    ensures TotalKey(Canonical(a)) == TotalKey(Canonical(b)) <==> ScoreOf(a) == ScoreOf(b)
  {}

  /** `next_score` on the bits. */
  function NextBits(bits: u64): Option<u64> {
    if IsNan(bits) || bits == INFINITY then None
    else if Magnitude(bits) == 0 then Some(1)
    else if Negative(bits) then Some(bits - 1)
    else Some(bits + 1)
  }

  /** `next_score` is the immediate successor, and is missing only for infinity. */
  lemma NextIsSuccessor(bits: u64)
    requires !IsNan(bits)
    ensures NextBits(bits).None? <==> ScoreOf(bits) == INFINITY
    ensures NextBits(bits).Some? ==>
      !IsNan(NextBits(bits).value) && ScoreOf(NextBits(bits).value) == ScoreOf(bits) + 1
  {}

  function NextScore(s: Score): Option<Score> {
    if s == INFINITY then None else Some(s + 1)
  }
}
