/** The lowest set bit of a 32-bit word, found by a multiplication and a table of 32 entries. */
module LowestBit {
  function Table(h: bv32): (r: bv32)
    ensures r <= 31
  {
    if h == 0 then 0 else if h == 1 then 1 else if h == 2 then 28 else if h == 3 then 2
    else if h == 4 then 29 else if h == 5 then 14 else if h == 6 then 24 else if h == 7 then 3
    else if h == 8 then 30 else if h == 9 then 22 else if h == 10 then 20 else if h == 11 then 15
    else if h == 12 then 25 else if h == 13 then 17 else if h == 14 then 4 else if h == 15 then 8
    else if h == 16 then 31 else if h == 17 then 27 else if h == 18 then 13 else if h == 19 then 23
    else if h == 20 then 21 else if h == 21 then 19 else if h == 22 then 16 else if h == 23 then 7
    else if h == 24 then 26 else if h == 25 then 12 else if h == 26 then 18 else if h == 27 then 6
    else if h == 28 then 11 else if h == 29 then 5 else if h == 30 then 10 else 9
  }

  /** The lowest set bit alone; negation is taken modulo 2^32. */
  function Isolated(v: bv32): bv32 {
    v & (0 - v)
  }

  /** The top five bits of the product. */
  function Hash(p: bv32): bv32 {
    (p * 0x077C_B531) >> 27
  }

  function Ffi(v: bv32): (r: bv32)
    ensures r <= 31
  {
    Table(Hash(Isolated(v)))
  }

  /** For a word that is not zero the bit at the result is set and no lower bit is. */
  lemma FfiIsLowestSetBit(v: bv32)
    requires v != 0
    ensures v & ((1 as bv32) << Ffi(v)) != 0
    ensures v & (((1 as bv32) << Ffi(v)) - 1) == 0
  {
    IsolatedIsPower(v);
    TableInvertsHash(Isolated(v));
  }

  lemma IsolatedIsPower(v: bv32)
    requires v != 0
    ensures var p := Isolated(v);
            p != 0 && p & (p - 1) == 0 && v & p == p && v & (p - 1) == 0
  {
  }

  /** The multiplication sends each power of two to the place of its exponent. */
  lemma TableInvertsHash(p: bv32)
    requires p != 0 && p & (p - 1) == 0
    ensures (1 as bv32) << Table(Hash(p)) == p
  {
    if p < 0x1_0000 {
      LowPower(p);
    } else {
      HighPower(p);
    }
  }

  lemma LowPower(p: bv32)
    requires p != 0 && p & (p - 1) == 0 && p < 0x1_0000
    ensures (1 as bv32) << Table(Hash(p)) == p
  {
  }

  lemma HighPower(p: bv32)
    requires p & (p - 1) == 0 && p >= 0x1_0000
    ensures (1 as bv32) << Table(Hash(p)) == p
  {
  }
}
