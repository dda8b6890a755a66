/** Single bits of a number. */
module Bits {

  function Pow2(k: nat): (n: nat)
    ensures n > 0
  {
    if k == 0 then 1 else 2 * Pow2(k - 1)
  }

  /** `b & (1 << k) != 0`. */
  predicate Bit(b: nat, k: nat)
    decreases k
  {
    if k == 0 then b % 2 == 1 else Bit(b / 2, k - 1)
  }

  /** The number whose bit `i` is `bits[i]`. */
  function Number(bits: seq<bool>): (n: nat)
    ensures n < Pow2(|bits|)
  {
    if bits == [] then 0 else (if bits[0] then 1 else 0) + 2 * Number(bits[1..])
  }

  lemma {:induction false} NumberBits(bits: seq<bool>, i: nat)
    requires i < |bits|
    ensures Bit(Number(bits), i) <==> bits[i]
    decreases i
  {
    assert Number(bits) / 2 == Number(bits[1..]);
    if i > 0 {
      NumberBits(bits[1..], i - 1);
    }
  }
}
