/** Single-bit access to bytes. Bit 0 is the least significant bit. */
module Bits {
  /** The byte with only bit `k` set, i.e. `1 << k`, spelled out so that proofs stay on constants. */
  function Mask(k: nat): (m: bv8)
    requires k < 8
  {
    if k == 0 then 0x01 else if k == 1 then 0x02 else if k == 2 then 0x04 else if k == 3 then 0x08
    else if k == 4 then 0x10 else if k == 5 then 0x20 else if k == 6 then 0x40 else 0x80
  }

  lemma MaskIsShift(k: nat)
    requires k < 8
    ensures Mask(k) == 1 << k
  {
  }

  /** Bit `k` of `v` is 1. */
  predicate BitSet(v: bv8, k: nat)
    requires k < 8
  {
    v & Mask(k) != 0
  }

  lemma BitSetAnd(x: bv8, y: bv8, k: nat)
    requires k < 8
    ensures BitSet(x & y, k) == (BitSet(x, k) && BitSet(y, k))
  {
  }

  lemma BitSetNot(x: bv8, k: nat)
    requires k < 8
    ensures BitSet(!x, k) == !BitSet(x, k)
  {
  }
}
