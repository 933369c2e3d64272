/** Single bits of a byte. */
module ByteBits {

  /** 1 << k. */
  function Mask(k: nat): bv8
    requires k < 8
  {
    if k == 0 then 1 else if k == 1 then 2 else if k == 2 then 4 else if k == 3 then 8
    else if k == 4 then 16 else if k == 5 then 32 else if k == 6 then 64 else 128
  }

  predicate Bit(x: bv8, k: nat)
    requires k < 8
  {
    x & Mask(k) != 0
  }

  lemma SetBit(x: bv8, j: nat, k: nat)
    requires j < 8 && k < 8
    ensures Bit(x | Mask(j), k) == (j == k || Bit(x, k))
  {
  }

  lemma ClearBit(x: bv8, j: nat, k: nat)
    requires j < 8 && k < 8
    ensures Bit(x & !Mask(j), k) == (j != k && Bit(x, k))
  {
  }

  /** Bit p of a byte sequence, least significant bit of each byte first. */
  predicate FlagAt(bytes: seq<bv8>, p: nat)
    requires p < 8 * |bytes|
  {
    Bit(bytes[p / 8], p % 8)
  }

  function Weight(on: bool, weight: bv8): bv8 { if on then weight else 0 }

  /** A byte is the sum of the weights of its set bits, the first weighing one. */
  lemma BitsWeigh(x: bv8)
    ensures x == Weight(Bit(x, 0), 1) + Weight(Bit(x, 1), 2) + Weight(Bit(x, 2), 4) + Weight(Bit(x, 3), 8)
                 + Weight(Bit(x, 4), 16) + Weight(Bit(x, 5), 32) + Weight(Bit(x, 6), 64) + Weight(Bit(x, 7), 128)
  {
  }
}
