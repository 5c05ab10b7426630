/**
 * Repair of a colour cursor without an alpha channel: the mask is packed and
 * inverted in place, then gives each pixel its alpha value.
 */
module CursorMask {
  import opened Bits
  import opened Raster
  import Arith

  /** The bytes of a packed row. */
  function Packed(width: nat): nat {
    (width + 7) / 8
  }

  ghost predicate Transparent(cbits: seq<Byte>, width: nat, height: nat)
    requires Image(cbits, width, height)
  {
    forall x: nat, y: nat | Inside(width, height, x, y) :: Source(cbits, width, height, x, y).c3 == 0
  }

  /** The alpha value is the last byte of a pixel. */
  lemma TransparentIff(cbits: seq<Byte>, width: nat, height: nat)
    requires Image(cbits, width, height)
    ensures Transparent(cbits, width, height)
            <==> forall i: nat | i < height * width :: cbits[4 * i + 3] == 0
  {
    forall x: nat, y: nat | Inside(width, height, x, y)
      ensures Place(width, x, y) < height * width
    {
      PlaceInside(width, x, y, height);
    }
    if Transparent(cbits, width, height) {
      forall i: nat | i < height * width ensures cbits[4 * i + 3] == 0 {
        var x, y := ColumnAndRow(width, height, i);
        assert Source(cbits, width, height, x, y).c3 == 0;
      }
    }
  }

  lemma ColumnAndRow(width: nat, height: nat, i: nat) returns (x: nat, y: nat)
    requires i < height * width
    ensures Inside(width, height, x, y) && Place(width, x, y) == i
  {
    x, y := i % width, i / width;
    assert i == width * y + x;
    if y >= height {
      Arith.MulMonotone(width, height, y);
    }
  }

  /** A packed row has the fewest bytes that hold it. */
  lemma PackedIsLeast(width: nat)
    ensures width <= 8 * Packed(width) < width + 8
  {
  }

  predicate HasBit(mask: seq<Byte>, width: nat, x: nat, y: nat) {
    Cell(Packed(width), x, y) < |mask|
  }

  /** A pixel's bit in the packed mask. */
  predicate BitAt(mask: seq<Byte>, width: nat, x: nat, y: nat)
    requires HasBit(mask, width, x, y)
  {
    Bit(mask[Cell(Packed(width), x, y)], x % 8)
  }

  /** The bit that packing gives a pixel: the inverse of its bit in the wider rows, as far as they go. */
  predicate Inverse(mask: seq<Byte>, width: nat, rowBytes: nat, x: nat, y: nat)
    requires HasBit(mask, width, x, y)
  {
    if Cell(rowBytes, x, y) < |mask| then !Bit(mask[Cell(rowBytes, x, y)], x % 8) else BitAt(mask, width, x, y)
  }

  /** Opaque and swapped under a set bit, otherwise black if it had a colour and clear if not. */
  function Fixed(mask: seq<Byte>, cbits: seq<Byte>, width: nat, height: nat, rowBytes: nat, x: nat, y: nat): Pixel
    requires Image(cbits, width, height) && Inside(width, height, x, y)
  {
    var c := Source(cbits, width, height, x, y);
    if !HasBit(mask, width, x, y) || Inverse(mask, width, rowBytes, x, y) then Pixel(c.c2, c.c1, c.c0, 0xFF)
    else if c != CLEAR then BLACK
    else CLEAR
  }

  // Packing

  predicate PackedByte(now: seq<Byte>, was: seq<Byte>, packed: nat, rowBytes: nat, k: nat, y: nat)
    requires |now| == |was|
  {
    Place(packed, k, y) < |now| ==>
      now[Place(packed, k, y)]
      == if Place(rowBytes, k, y) < |was| then !was[Place(rowBytes, k, y)] else was[Place(packed, k, y)]
  }

  lemma PackingReadsAhead(packed: nat, rowBytes: nat, k: nat, y: nat)
    requires packed <= rowBytes
    ensures Place(packed, k, y) <= Place(rowBytes, k, y)
  {
    Arith.MulMonotone(y, packed, rowBytes);
  }

  /** The packed rows before place (x, y) are written, and nothing from there on. */
  ghost predicate PackedUpTo(now: seq<Byte>, was: seq<Byte>, packed: nat, rowBytes: nat, x: nat, y: nat)
    requires |now| == |was|
  {
    && (forall i | Place(packed, x, y) <= i < |now| :: now[i] == was[i])
    && (packed <= rowBytes ==>
          forall k: nat, j: nat | Before(packed, k, j, x, y) :: PackedByte(now, was, packed, rowBytes, k, j))
  }

  lemma PackStart(was: seq<Byte>, packed: nat, rowBytes: nat)
    ensures PackedUpTo(was, was, packed, rowBytes, 0, 0)
  {
  }

  lemma PackOneMore(next: seq<Byte>, now: seq<Byte>, was: seq<Byte>, packed: nat, rowBytes: nat, x: nat, y: nat)
    requires |next| == |now| == |was| && x < packed
    requires PackedUpTo(now, was, packed, rowBytes, x, y)
    requires var a, b := Place(packed, x, y), Place(rowBytes, x, y);
             next == if a < |now| && b < |now| then now[a := !now[b]] else now
    ensures PackedUpTo(next, was, packed, rowBytes, x + 1, y)
  {
    if packed <= rowBytes {
      PackingReadsAhead(packed, rowBytes, x, y);
      forall k: nat, j: nat | Before(packed, k, j, x + 1, y)
        ensures PackedByte(next, was, packed, rowBytes, k, j)
      {
        if Before(packed, k, j, x, y) {
          ScanClimbs(packed, packed, k, j, x, y);
          assert PackedByte(now, was, packed, rowBytes, k, j);
        }
      }
    }
  }

  lemma PackNextRow(now: seq<Byte>, was: seq<Byte>, packed: nat, rowBytes: nat, y: nat)
    requires |now| == |was| && PackedUpTo(now, was, packed, rowBytes, packed, y)
    ensures PackedUpTo(now, was, packed, rowBytes, 0, y + 1)
  {
    assert Place(packed, packed, y) == Place(packed, 0, y + 1);
    forall k: nat, j: nat
      ensures Before(packed, k, j, packed, y) <==> Before(packed, k, j, 0, y + 1)
    {
      RowEnds(packed, k, j, y);
    }
  }

  method Pack(mbits: array<Byte>, packed: nat, height: nat, rowBytes: nat)
    modifies mbits
    ensures PackedUpTo(mbits[..], old(mbits[..]), packed, rowBytes, 0, height)
  {
    hide PackedUpTo, Place;
    PackStart(mbits[..], packed, rowBytes);
    for y := 0 to height
      invariant PackedUpTo(mbits[..], old(mbits[..]), packed, rowBytes, 0, y)
    {
      for x := 0 to packed
        invariant PackedUpTo(mbits[..], old(mbits[..]), packed, rowBytes, x, y)
      {
        ghost var now := mbits[..];
        var a := Place(packed, x, y);
        var b := Place(rowBytes, x, y);
        if a < mbits.Length && b < mbits.Length {
          mbits[a] := !mbits[b];
        }
        PackOneMore(mbits[..], now, old(mbits[..]), packed, rowBytes, x, y);
      }
      PackNextRow(mbits[..], old(mbits[..]), packed, rowBytes, y);
    }
  }

  /** What packing means for the bit of a pixel. */
  lemma PackedBit(now: seq<Byte>, was: seq<Byte>, width: nat, height: nat, rowBytes: nat, x: nat, y: nat)
    requires |now| == |was| && Inside(width, height, x, y)
    requires PackedByte(now, was, Packed(width), rowBytes, x / 8, y)
    ensures HasBit(now, width, x, y) ==> BitAt(now, width, x, y) == Inverse(was, width, rowBytes, x, y)
  {
    if Cell(rowBytes, x, y) < |was| {
      InvertedBit(was[Cell(rowBytes, x, y)], x % 8);
    }
  }

  // Blackening

  predicate Blackens(mask: seq<Byte>, cbits: seq<Byte>, width: nat, height: nat, x: nat, y: nat)
    requires Image(cbits, width, height) && Inside(width, height, x, y)
  {
    HasBit(mask, width, x, y) && !BitAt(mask, width, x, y) && Source(cbits, width, height, x, y) != CLEAR
  }

  /** A coloured pixel under a clear bit gets the bit and loses the colour. */
  predicate Blackened(m: seq<Byte>, c: seq<Byte>, was: seq<Byte>, col: seq<Byte>, width: nat, height: nat,
                      x: nat, y: nat)
    requires |m| == |was| && |c| == |col| && Image(c, width, height)
  {
    Inside(width, height, x, y)
    && (HasBit(m, width, x, y) ==>
          BitAt(m, width, x, y) == (BitAt(was, width, x, y) || Blackens(was, col, width, height, x, y)))
    && Source(c, width, height, x, y)
       == if Blackens(was, col, width, height, x, y) then CLEAR else Source(col, width, height, x, y)
  }

  predicate Same(m: seq<Byte>, c: seq<Byte>, was: seq<Byte>, col: seq<Byte>, width: nat, height: nat, x: nat, y: nat)
    requires |m| == |was| && |c| == |col| && Image(c, width, height)
  {
    Inside(width, height, x, y)
    && (HasBit(m, width, x, y) ==> BitAt(m, width, x, y) == BitAt(was, width, x, y))
    && Source(c, width, height, x, y) == Source(col, width, height, x, y)
  }

  /** The scan up to (x, y) is blackened and the rest is as it was. */
  ghost predicate BlackenedUpTo(m: seq<Byte>, c: seq<Byte>, was: seq<Byte>, col: seq<Byte>, width: nat, height: nat,
                                x: nat, y: nat)
    requires |m| == |was| && |c| == |col| && Image(c, width, height)
  {
    forall i: nat, j: nat | Inside(width, height, i, j) ::
      if Before(width, i, j, x, y) then Blackened(m, c, was, col, width, height, i, j)
      else Same(m, c, was, col, width, height, i, j)
  }

  /** A mask changes at most in one pixel's bit. */
  predicate OnlyBitAt(next: seq<Byte>, m: seq<Byte>, width: nat, x: nat, y: nat)
    requires |next| == |m|
  {
    && (forall k | 0 <= k < |m| && k != Cell(Packed(width), x, y) :: next[k] == m[k])
    && (HasBit(m, width, x, y) ==>
          forall b: nat | b < 8 && b != x % 8 ::
            Bit(next[Cell(Packed(width), x, y)], b) == Bit(m[Cell(Packed(width), x, y)], b))
  }

  /** An image changes at most in one pixel. */
  predicate OnlyPixelAt(next: seq<Byte>, c: seq<Byte>, width: nat, x: nat, y: nat)
    requires |next| == |c|
  {
    forall k | 0 <= k < |c| && !(0 <= k - 4 * Place(width, x, y) < 4) :: next[k] == c[k]
  }

  lemma OtherBitsStay(next: seq<Byte>, m: seq<Byte>, width: nat, x: nat, y: nat, i: nat, j: nat)
    requires |next| == |m| && OnlyBitAt(next, m, width, x, y)
    requires x < width && i < width && !(i == x && j == y)
    ensures HasBit(m, width, i, j) ==> BitAt(next, width, i, j) == BitAt(m, width, i, j)
  {
    hide Cell, Bit;
    if Cell(Packed(width), i, j) == Cell(Packed(width), x, y) && i % 8 == x % 8 {
      BitsAreDistinct(Packed(width), i, j, x, y);
    }
  }

  lemma OtherPixelsStay(next: seq<Byte>, c: seq<Byte>, width: nat, height: nat, x: nat, y: nat, i: nat, j: nat)
    requires |next| == |c| && Image(c, width, height) && OnlyPixelAt(next, c, width, x, y)
    requires Inside(width, height, x, y) && Inside(width, height, i, j) && !(i == x && j == y)
    ensures Source(next, width, height, i, j) == Source(c, width, height, i, j)
  {
    hide Place;
    PlaceInside(width, i, j, height);
    if Place(width, i, j) == Place(width, x, y) {
      PlacesAreDistinct(width, width, i, j, x, y);
    }
  }

  lemma BlackenOneMore(next: seq<Byte>, nextCol: seq<Byte>, m: seq<Byte>, c: seq<Byte>,
                       was: seq<Byte>, col: seq<Byte>, width: nat, height: nat, x: nat, y: nat)
    requires |next| == |m| == |was| && |nextCol| == |c| == |col| && Image(c, width, height)
    requires Inside(width, height, x, y)
    requires BlackenedUpTo(m, c, was, col, width, height, x, y)
    requires OnlyBitAt(next, m, width, x, y) && OnlyPixelAt(nextCol, c, width, x, y)
    requires Blackened(next, nextCol, m, c, width, height, x, y)
    ensures BlackenedUpTo(next, nextCol, was, col, width, height, x + 1, y)
  {
    forall i: nat, j: nat | Inside(width, height, i, j)
      ensures if Before(width, i, j, x + 1, y) then Blackened(next, nextCol, was, col, width, height, i, j)
              else Same(next, nextCol, was, col, width, height, i, j)
    {
      ScanMoves(width, i, j, x, y);
      if i == x && j == y {
        assert Same(m, c, was, col, width, height, x, y);
      } else {
        OtherBitsStay(next, m, width, x, y, i, j);
        OtherPixelsStay(nextCol, c, width, height, x, y, i, j);
      }
    }
  }

  lemma BlackenNextRow(m: seq<Byte>, c: seq<Byte>, was: seq<Byte>, col: seq<Byte>, width: nat, height: nat, y: nat)
    requires |m| == |was| && |c| == |col| && Image(c, width, height)
    requires BlackenedUpTo(m, c, was, col, width, height, width, y)
    ensures BlackenedUpTo(m, c, was, col, width, height, 0, y + 1)
  {
    forall i: nat, j: nat
      ensures Before(width, i, j, width, y) <==> Before(width, i, j, 0, y + 1)
    {
      RowEnds(width, i, j, y);
    }
  }

  /** Looks for the first byte with a colour, clears the pixel from there on and toggles the bit. */
  method BlackenPixel(mbits: array<Byte>, cbits: array<Byte>, cell: nat, bitmask: Byte, ghost k: nat, p: nat)
    requires mbits != cbits && cell < mbits.Length && 4 * p + 4 <= cbits.Length
    requires k < 8 && bitmask == Mask(k)
    modifies mbits, cbits
    ensures if old(Bit(mbits[cell], k) || PixelAt(cbits[..], p) == CLEAR)
            then mbits[..] == old(mbits[..]) && cbits[..] == old(cbits[..])
            else mbits[..] == old(mbits[..][cell := mbits[cell] ^ Mask(k)])
                 && PixelAt(cbits[..], p) == CLEAR
                 && forall i | 0 <= i < cbits.Length && !(0 <= i - 4 * p < 4) :: cbits[i] == old(cbits[i])
  {
    if mbits[cell] & bitmask == 0 {
      for b1 := 0 to 4
        invariant mbits[..] == old(mbits[..]) && cbits[..] == old(cbits[..])
        invariant forall i | 4 * p <= i < 4 * p + b1 :: cbits[i] == 0
      {
        if cbits[4 * p + b1] != 0 {
          mbits[cell] := mbits[cell] ^ bitmask;
          for b2 := b1 to 4
            invariant mbits[..] == old(mbits[..][cell := mbits[cell] ^ Mask(k)])
            invariant forall i | 4 * p <= i < 4 * p + b2 :: cbits[i] == 0
            invariant forall i | 0 <= i < cbits.Length && !(b1 <= i - 4 * p < b2) :: cbits[i] == old(cbits[i])
          {
            cbits[4 * p + b2] := 0;
          }
          break;
        }
      }
    }
  }

  /** The pixel that BlackenPixel has worked on, and the others. */
  lemma PixelIsBlackened(next: seq<Byte>, nextCol: seq<Byte>, m: seq<Byte>, c: seq<Byte>, width: nat, height: nat,
                         x: nat, y: nat)
    requires |next| == |m| && |nextCol| == |c| && Image(c, width, height) && Inside(width, height, x, y)
    requires HasBit(m, width, x, y)
    requires var cell := Cell(Packed(width), x, y);
             if Blackens(m, c, width, height, x, y)
             then next == m[cell := m[cell] ^ Mask(x % 8)]
                  && Source(nextCol, width, height, x, y) == CLEAR
                  && OnlyPixelAt(nextCol, c, width, x, y)
             else next == m && nextCol == c
    ensures Blackened(next, nextCol, m, c, width, height, x, y)
    ensures OnlyBitAt(next, m, width, x, y) && OnlyPixelAt(nextCol, c, width, x, y)
  {
    if Blackens(m, c, width, height, x, y) {
      var cell := Cell(Packed(width), x, y);
      forall b: nat | b < 8
        ensures Bit(next[cell], b) == if b == x % 8 then !Bit(m[cell], b) else Bit(m[cell], b)
      {
        ToggledBit(m[cell], x % 8, b);
      }
    }
  }

  /** The mask that a scan along a row has at column x. */
  lemma NextMask(x: nat)
    ensures Mask((x + 1) % 8) == if Mask(x % 8) >> 1 == 0 then 0x80 else Mask(x % 8) >> 1
  {
    MaskMoves(x % 8);
  }

  method Blacken(mbits: array<Byte>, cbits: array<Byte>, width: nat, height: nat)
    requires mbits != cbits && Image(cbits[..], width, height)
    modifies mbits, cbits
    ensures BlackenedUpTo(mbits[..], cbits[..], old(mbits[..]), old(cbits[..]), width, height, 0, height)
  {
    ghost var was, col := mbits[..], cbits[..];
    for y := 0 to height
      invariant BlackenedUpTo(mbits[..], cbits[..], was, col, width, height, 0, y)
    {
      var bitmask := Mask(0);
      for x := 0 to width
        invariant bitmask == Mask(x % 8)
        invariant BlackenedUpTo(mbits[..], cbits[..], was, col, width, height, x, y)
      {
        ghost var m, c := mbits[..], cbits[..];
        BlackenAt(mbits, cbits, width, height, bitmask, x, y);
        BlackenOneMore(mbits[..], cbits[..], m, c, was, col, width, height, x, y);
        NextMask(x);
        bitmask := bitmask >> 1;
        if bitmask == 0 {
          bitmask := 0x80;
        }
      }
      BlackenNextRow(mbits[..], cbits[..], was, col, width, height, y);
    }
  }

  method BlackenAt(mbits: array<Byte>, cbits: array<Byte>, width: nat, height: nat, bitmask: Byte, x: nat, y: nat)
    requires mbits != cbits && Image(cbits[..], width, height) && Inside(width, height, x, y)
    requires bitmask == Mask(x % 8)
    modifies mbits, cbits
    ensures Blackened(mbits[..], cbits[..], old(mbits[..]), old(cbits[..]), width, height, x, y)
    ensures OnlyBitAt(mbits[..], old(mbits[..]), width, x, y)
    ensures OnlyPixelAt(cbits[..], old(cbits[..]), width, x, y)
  {
    PlaceInside(width, x, y, height);
    var cell := Cell(Packed(width), x, y);
    if cell < mbits.Length {
      BlackenPixel(mbits, cbits, cell, bitmask, x % 8, Place(width, x, y));
      PixelIsBlackened(mbits[..], cbits[..], old(mbits[..]), old(cbits[..]), width, height, x, y);
    }
  }

  // Alpha and byte order

  function Recoloured(mask: seq<Byte>, cbits: seq<Byte>, width: nat, height: nat, x: nat, y: nat): Pixel
    requires Image(cbits, width, height) && Inside(width, height, x, y)
  {
    var c := Source(cbits, width, height, x, y);
    Pixel(c.c2, c.c1, c.c0, if HasBit(mask, width, x, y) && !BitAt(mask, width, x, y) then 0 else 0xFF)
  }

  ghost predicate RecolouredUpTo(now: seq<Byte>, mask: seq<Byte>, was: seq<Byte>, width: nat, height: nat,
                                 x: nat, y: nat)
    requires |now| == |was| && Image(now, width, height)
  {
    forall i: nat, j: nat | Inside(width, height, i, j) ::
      Source(now, width, height, i, j)
      == if Before(width, i, j, x, y) then Recoloured(mask, was, width, height, i, j)
         else Source(was, width, height, i, j)
  }

  lemma RecolourOneMore(next: seq<Byte>, now: seq<Byte>, mask: seq<Byte>, was: seq<Byte>, width: nat, height: nat,
                        x: nat, y: nat)
    requires |next| == |now| == |was| && Image(now, width, height) && Inside(width, height, x, y)
    requires RecolouredUpTo(now, mask, was, width, height, x, y)
    requires OnlyPixelAt(next, now, width, x, y)
    requires Source(next, width, height, x, y) == Recoloured(mask, now, width, height, x, y)
    ensures RecolouredUpTo(next, mask, was, width, height, x + 1, y)
  {
    forall i: nat, j: nat | Inside(width, height, i, j)
      ensures Source(next, width, height, i, j)
              == if Before(width, i, j, x + 1, y) then Recoloured(mask, was, width, height, i, j)
                 else Source(was, width, height, i, j)
    {
      ScanMoves(width, i, j, x, y);
      if i == x && j == y {
        assert Source(now, width, height, x, y) == Source(was, width, height, x, y);
      } else {
        OtherPixelsStay(next, now, width, height, x, y, i, j);
      }
    }
  }

  method RecolourPixel(mask: array<Byte>, cbits: array<Byte>, width: nat, height: nat, x: nat, y: nat)
    requires mask != cbits && Image(cbits[..], width, height) && Inside(width, height, x, y)
    modifies cbits
    ensures Source(cbits[..], width, height, x, y) == Recoloured(mask[..], old(cbits[..]), width, height, x, y)
    ensures OnlyPixelAt(cbits[..], old(cbits[..]), width, x, y)
  {
    PlaceInside(width, x, y, height);
    var cell := Cell(Packed(width), x, y);
    var alpha := 0xFF;
    if cell < mask.Length {
      ShiftedBit(mask[cell], x % 8);
      if (mask[cell] << (x % 8)) & 0x80 == 0 {
        alpha := 0;
      }
    }
    var p := 4 * Place(width, x, y);
    var a, b, c := cbits[p + 2], cbits[p + 1], cbits[p];
    cbits[p], cbits[p + 1], cbits[p + 2], cbits[p + 3] := a, b, c, alpha;
  }

  method Recolour(mask: array<Byte>, cbits: array<Byte>, width: nat, height: nat)
    requires mask != cbits && Image(cbits[..], width, height)
    modifies cbits
    ensures RecolouredUpTo(cbits[..], mask[..], old(cbits[..]), width, height, 0, height)
  {
    ghost var was := cbits[..];
    for y := 0 to height
      invariant RecolouredUpTo(cbits[..], mask[..], was, width, height, 0, y)
    {
      for x := 0 to width
        invariant RecolouredUpTo(cbits[..], mask[..], was, width, height, x, y)
      {
        ghost var now := cbits[..];
        RecolourPixel(mask, cbits, width, height, x, y);
        RecolourOneMore(cbits[..], now, mask[..], was, width, height, x, y);
      }
      forall i: nat, j: nat
        ensures Before(width, i, j, width, y) <==> Before(width, i, j, 0, y + 1)
      {
        RowEnds(width, i, j, y);
      }
    }
  }

  /** The first alpha byte that is not zero ends the scan. */
  method AllTransparent(cbits: array<Byte>, width: nat, height: nat) returns (all: bool)
    requires Image(cbits[..], width, height)
    ensures all <==> Transparent(cbits[..], width, height)
  {
    for y := 0 to height
      invariant forall i: nat, j: nat | Inside(width, height, i, j) && Before(width, i, j, 0, y) ::
                  Source(cbits[..], width, height, i, j).c3 == 0
    {
      for x := 0 to width
        invariant forall i: nat, j: nat | Inside(width, height, i, j) && Before(width, i, j, x, y) ::
                    Source(cbits[..], width, height, i, j).c3 == 0
      {
        PlaceInside(width, x, y, height);
        assert cbits[4 * Place(width, x, y) + 3] == Source(cbits[..], width, height, x, y).c3;
        if cbits[4 * Place(width, x, y) + 3] != 0 {
          return false;
        }
      }
    }
    return true;
  }

  /**
   * Does nothing when some pixel has an alpha value. Otherwise each pixel ends
   * as `Fixed` says of the mask and colours given, provided the mask's rows
   * are no narrower than packed ones.
   */
  method FixCursorMask(mbits: array<Byte>, cbits: array<Byte>, width: nat, height: nat, rowBytes: nat)
    returns (fixed: bool)
    requires mbits != cbits && Image(cbits[..], width, height)
    modifies mbits, cbits
    ensures fixed <==> old(Transparent(cbits[..], width, height))
    ensures !fixed ==> mbits[..] == old(mbits[..]) && cbits[..] == old(cbits[..])
    ensures fixed && Packed(width) <= rowBytes ==>
              forall x: nat, y: nat | Inside(width, height, x, y) ::
                Source(cbits[..], width, height, x, y)
                == Fixed(old(mbits[..]), old(cbits[..]), width, height, rowBytes, x, y)
    ensures fixed && Packed(width) <= rowBytes ==>
              forall x: nat, y: nat | Inside(width, height, x, y) && HasBit(mbits[..], width, x, y) ::
                BitAt(mbits[..], width, x, y)
                == (old(Inverse(mbits[..], width, rowBytes, x, y))
                    || old(Source(cbits[..], width, height, x, y)) != CLEAR)
  {
    fixed := AllTransparent(cbits, width, height);
    if !fixed {
      return;
    }
    ghost var mask, col := mbits[..], cbits[..];
    Pack(mbits, Packed(width), height, rowBytes);
    ghost var packed := mbits[..];
    Blacken(mbits, cbits, width, height);
    ghost var black, blackCol := mbits[..], cbits[..];
    Recolour(mbits, cbits, width, height);
    if Packed(width) <= rowBytes {
      forall x: nat, y: nat | Inside(width, height, x, y)
        ensures Source(cbits[..], width, height, x, y) == Fixed(mask, col, width, height, rowBytes, x, y)
      {
        PassesCompose(mask, col, packed, black, blackCol, width, height, rowBytes, x, y);
      }
      forall x: nat, y: nat | Inside(width, height, x, y) && HasBit(mask, width, x, y)
        ensures BitAt(black, width, x, y)
                == (Inverse(mask, width, rowBytes, x, y) || Source(col, width, height, x, y) != CLEAR)
      {
        PassesCompose(mask, col, packed, black, blackCol, width, height, rowBytes, x, y);
      }
    }
  }

  /** What the three passes make of one pixel. */
  lemma PassesCompose(mask: seq<Byte>, col: seq<Byte>, packed: seq<Byte>, black: seq<Byte>, blackCol: seq<Byte>,
                      width: nat, height: nat, rowBytes: nat, x: nat, y: nat)
    requires |black| == |packed| == |mask| && |blackCol| == |col| && Image(col, width, height)
    requires Inside(width, height, x, y) && Packed(width) <= rowBytes
    requires Source(col, width, height, x, y).c3 == 0
    requires PackedUpTo(packed, mask, Packed(width), rowBytes, 0, height)
    requires BlackenedUpTo(black, blackCol, packed, col, width, height, 0, height)
    ensures Recoloured(black, blackCol, width, height, x, y) == Fixed(mask, col, width, height, rowBytes, x, y)
    ensures HasBit(mask, width, x, y) ==>
              BitAt(black, width, x, y)
              == (Inverse(mask, width, rowBytes, x, y) || Source(col, width, height, x, y) != CLEAR)
  {
    assert Before(Packed(width), x / 8, y, 0, height);
    PackedBit(packed, mask, width, height, rowBytes, x, y);
    assert Before(width, x, y, 0, height);
    assert Blackened(black, blackCol, packed, col, width, height, x, y);
  }

  /** With a mask for the whole image every pixel goes by its own inverted bit, and shows iff it has one or a colour. */
  lemma WholeMaskDecides(mask: seq<Byte>, cbits: seq<Byte>, width: nat, height: nat, rowBytes: nat, x: nat, y: nat)
    requires Image(cbits, width, height) && Inside(width, height, x, y)
    requires Packed(width) <= rowBytes && height * rowBytes <= |mask|
    ensures Cell(rowBytes, x, y) < |mask|
    ensures var inverse := !Bit(mask[Cell(rowBytes, x, y)], x % 8);
            var c := Source(cbits, width, height, x, y);
            Fixed(mask, cbits, width, height, rowBytes, x, y)
            == if inverse then Pixel(c.c2, c.c1, c.c0, 0xFF) else if c != CLEAR then BLACK else CLEAR
  {
    CellInside(rowBytes, x, y, height);
    PackingReadsAhead(Packed(width), rowBytes, x / 8, y);
  }
}
