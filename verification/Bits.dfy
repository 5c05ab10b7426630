/** Bits of a byte, counted from the most significant one, and the lowest set bit of a word. */
module Bits {
  type Byte = bv8

  /** The bit mask that a scan over a row has reached after k pixels of a byte. */
  function Mask(k: nat): Byte
    requires k < 8
  {
    if k == 0 then 0x80 else if k == 1 then 0x40 else if k == 2 then 0x20 else if k == 3 then 0x10
    else if k == 4 then 0x08 else if k == 5 then 0x04 else if k == 6 then 0x02 else 0x01
  }

  predicate Bit(b: Byte, k: nat)
    requires k < 8
  {
    b & Mask(k) != 0
  }

  /** Shifting the mask moves to the next bit, and runs empty after the last. */
  lemma MaskMoves(k: nat)
    requires k < 8
    ensures Mask(k) >> 1 == if k == 7 then 0 else Mask(k + 1)
  {
  }

  lemma InvertedBit(b: Byte, k: nat)
    requires k < 8
    ensures Bit(!b, k) == !Bit(b, k)
  {
  }

  lemma ToggledBit(b: Byte, k: nat, j: nat)
    requires k < 8 && j < 8
    ensures Bit(b ^ Mask(k), j) == if j == k then !Bit(b, j) else Bit(b, j)
  {
  }

  lemma ShiftedBit(b: Byte, k: nat)
    requires k < 8
    ensures (b << k) & 0x80 == 0 <==> !Bit(b, k)
  {
  }

  /** The mask handling code shifts a one up instead. */
  lemma ShiftedOne(k: nat)
    requires k < 8
    ensures (1 as Byte) << (7 - k) == Mask(k)
  {
  }
}
