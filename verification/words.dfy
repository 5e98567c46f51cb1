/** Operations on the 64-bit words the programs compute with. */
module Words {
  /** Exclusive-or of two 64-bit words (the accumulator merge). */
  function Xor(x: bv64, y: bv64): bv64 { x ^ y }

  lemma XorAssociative(x: bv64, y: bv64, z: bv64)
    ensures Xor(Xor(x, y), z) == Xor(x, Xor(y, z))
  {
    assert (x ^ y) ^ z == x ^ (y ^ z);
  }
}
