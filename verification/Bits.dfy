/** The bits of a timings mask. */
module Bits {

  predicate Bit(mask: bv32, k: bv6) {
    k < 32 && mask & (1 << k) != 0
  }

  /** mask |= 1 << k sets bit k and leaves the others. */
  lemma SetBit(mask: bv32, k: bv6, j: bv6)
    requires k < 32
    ensures Bit(mask | (1 << k), j) <==> j == k || Bit(mask, j)
  {
  }

  lemma Successor(k: bv6)
    requires k < 32
    ensures (k + 1) as int == k as int + 1
  {
  }

  lemma AsInt(k: bv6, j: bv6)
    ensures k == j <==> k as int == j as int
  {
  }

  lemma RoundTrip(k: nat)
    requires k < 32
    ensures (k as bv6) as int == k
  {
  }
}
