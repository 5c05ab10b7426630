/** The image of a cursor that has only a mask: an AND plane above an XOR plane. */
module MaskImage {
  import opened Bits
  import opened Raster

  predicate AndBit(mask: seq<Byte>, rowBytes: nat, x: nat, y: nat)
  {
    Cell(rowBytes, x, y) < |mask| && Bit(mask[Cell(rowBytes, x, y)], x % 8)
  }

  /** The XOR plane starts after the `height` rows of the AND plane. */
  predicate XorBit(mask: seq<Byte>, rowBytes: nat, height: nat, x: nat, y: nat)
  {
    height * rowBytes + Cell(rowBytes, x, y) < |mask|
    && Bit(mask[height * rowBytes + Cell(rowBytes, x, y)], x % 8)
  }

  /** A mask with room for both planes, and rows wide enough for the image. */
  predicate Fits(mask: seq<Byte>, width: nat, height: nat, rowBytes: nat) {
    width <= 8 * rowBytes && 2 * (height * rowBytes) <= |mask|
  }

  predicate Both(mask: seq<Byte>, width: nat, height: nat, rowBytes: nat, x: nat, y: nat)
    requires Fits(mask, width, height, rowBytes) && Inside(width, height, x, y)
  {
    AndBit(mask, rowBytes, x, y) && XorBit(mask, rowBytes, height, x, y)
  }

  /** The four meanings of a pixel's pair of bits: white, black, inverting (shown black), transparent. */
  function Meaning(mask: seq<Byte>, width: nat, height: nat, rowBytes: nat, x: nat, y: nat): Pixel
    requires Fits(mask, width, height, rowBytes) && Inside(width, height, x, y)
  {
    match (AndBit(mask, rowBytes, x, y), XorBit(mask, rowBytes, height, x, y))
    case (false, true) => WHITE
    case (false, false) => BLACK
    case (true, true) => BLACK
    case (true, false) => CLEAR
  }

  lemma BitsFromBytes(mask: seq<Byte>, width: nat, height: nat, rowBytes: nat, x: nat, y: nat)
    requires Fits(mask, width, height, rowBytes) && Inside(width, height, x, y)
    ensures y * rowBytes + x / 8 < height * rowBytes
    ensures var bit := (1 as Byte) << (7 - x % 8);
            && AndBit(mask, rowBytes, x, y) == (mask[y * rowBytes + x / 8] & bit != 0)
            && XorBit(mask, rowBytes, height, x, y) == (mask[height * rowBytes + y * rowBytes + x / 8] & bit != 0)
  {
    CellInside(rowBytes, x, y, height);
    ShiftedOne(x % 8);
    hide Mask;
  }

  /** The same from the bytes of the mask: a pixel's bit is counted from the most significant one, in the
      byte x / 8 of its row, and the XOR plane lies `height` rows behind the AND plane. */
  lemma MeaningFromBytes(mask: seq<Byte>, width: nat, height: nat, rowBytes: nat, x: nat, y: nat, and: bool, xor: bool)
    requires Fits(mask, width, height, rowBytes) && Inside(width, height, x, y)
    requires y * rowBytes + x / 8 < height * rowBytes
    requires and == (mask[y * rowBytes + x / 8] & ((1 as Byte) << (7 - x % 8)) != 0)
    requires xor == (mask[height * rowBytes + y * rowBytes + x / 8] & ((1 as Byte) << (7 - x % 8)) != 0)
    ensures Meaning(mask, width, height, rowBytes, x, y)
         == if !and && xor then Pixel(0xFF, 0xFF, 0xFF, 0xFF)
            else if and && !xor then Pixel(0, 0, 0, 0)
            else Pixel(0, 0, 0, 0xFF)
    ensures Both(mask, width, height, rowBytes, x, y) <==> and && xor
  {
    BitsFromBytes(mask, width, height, rowBytes, x, y);
    hide AndBit, XorBit;
  }

  predicate HasMeaning(out: seq<Byte>, mask: seq<Byte>, width: nat, height: nat, rowBytes: nat, x: nat, y: nat)
    requires Fits(mask, width, height, rowBytes) && Image(out, width, height)
  {
    Inside(width, height, x, y)
    && Place(width, x, y) < height * width
    && Source(out, width, height, x, y) == Meaning(mask, width, height, rowBytes, x, y)
  }

  /** The pixels of the scan before (x, y) are drawn. */
  ghost predicate Drawn(out: seq<Byte>, mask: seq<Byte>, width: nat, height: nat, rowBytes: nat, x: nat, y: nat)
    requires Fits(mask, width, height, rowBytes) && Image(out, width, height)
  {
    forall i: nat, j: nat | Before(width, i, j, x, y) :: HasMeaning(out, mask, width, height, rowBytes, i, j)
  }

  /** Some pixel of the scan before (x, y) inverts what is under it. */
  ghost predicate SomeInverts(mask: seq<Byte>, width: nat, height: nat, rowBytes: nat, x: nat, y: nat)
    requires Fits(mask, width, height, rowBytes)
  {
    exists i: nat, j: nat ::
      Before(width, i, j, x, y) && Inside(width, height, i, j) && Both(mask, width, height, rowBytes, i, j)
  }

  lemma DrawOneMore(was: seq<Byte>, now: seq<Byte>, mask: seq<Byte>, width: nat, height: nat, rowBytes: nat,
                    x: nat, y: nat)
    requires Fits(mask, width, height, rowBytes) && Inside(width, height, x, y)
    requires |was| == |now| && Image(was, width, height)
    requires Drawn(was, mask, width, height, rowBytes, x, y)
    requires HasMeaning(now, mask, width, height, rowBytes, x, y)
    requires forall k | 0 <= k < 4 * Place(width, x, y) :: now[k] == was[k]
    ensures Drawn(now, mask, width, height, rowBytes, x + 1, y)
  {
    forall i: nat, j: nat | Before(width, i, j, x + 1, y)
      ensures HasMeaning(now, mask, width, height, rowBytes, i, j)
    {
      if Before(width, i, j, x, y) {
        ScanClimbs(width, width, i, j, x, y);
        assert HasMeaning(was, mask, width, height, rowBytes, i, j);
      }
    }
  }

  lemma InvertOneMore(mask: seq<Byte>, width: nat, height: nat, rowBytes: nat, x: nat, y: nat)
    requires Fits(mask, width, height, rowBytes) && Inside(width, height, x, y)
    ensures SomeInverts(mask, width, height, rowBytes, x + 1, y)
            <==> SomeInverts(mask, width, height, rowBytes, x, y) || Both(mask, width, height, rowBytes, x, y)
  {
    forall i: nat, j: nat
      ensures Before(width, i, j, x + 1, y) <==> Before(width, i, j, x, y) || (i == x && j == y)
    {
      ScanMoves(width, i, j, x, y);
    }
    assert Before(width, x, y, x + 1, y);
  }

  lemma NextRow(out: seq<Byte>, mask: seq<Byte>, width: nat, height: nat, rowBytes: nat, y: nat)
    requires Fits(mask, width, height, rowBytes) && Image(out, width, height)
    ensures Drawn(out, mask, width, height, rowBytes, width, y)
            <==> Drawn(out, mask, width, height, rowBytes, 0, y + 1)
    ensures SomeInverts(mask, width, height, rowBytes, width, y)
            <==> SomeInverts(mask, width, height, rowBytes, 0, y + 1)
  {
    forall i: nat, j: nat
      ensures Before(width, i, j, width, y) <==> Before(width, i, j, 0, y + 1)
    {
      RowEnds(width, i, j, y);
    }
  }

  /** The test of a bit by a shifted one, counting from the least significant bit. */
  predicate Tested(b: Byte, bit: nat): (isSet: bool)
    requires bit < 8
    ensures isSet == Bit(b, 7 - bit)
  {
    ShiftedOne(7 - bit);
    b & (1 << bit) != 0
  }

  /**
   * Draws one pixel and moves on by four bytes; says whether the pixel
   * inverts.
   */
  method DrawPixel(buffer: array<Byte>, mask: seq<Byte>, width: nat, height: nat, rowBytes: nat, x: nat, y: nat)
    returns (inverts: bool)
    requires Fits(mask, width, height, rowBytes) && Inside(width, height, x, y)
    requires Image(buffer[..], width, height)
    modifies buffer
    ensures HasMeaning(buffer[..], mask, width, height, rowBytes, x, y)
    ensures inverts <==> Both(mask, width, height, rowBytes, x, y)
    ensures forall k | 0 <= k < buffer.Length && !(0 <= k - 4 * Place(width, x, y) < 4) :: buffer[k] == old(buffer[k])
  {
    CellInside(rowBytes, x, y, height);
    PlaceInside(width, x, y, height);
    hide Tested, Bit;
    var offset := height * rowBytes;
    var at := 4 * Place(width, x, y);
    var byte := y * rowBytes + x / 8;
    var bit := 7 - x % 8;
    inverts := false;
    if byte < |mask| && !Tested(mask[byte], bit) {
      buffer[at + 3] := 0xFF;
      if Tested(mask[offset + byte], bit) {
        buffer[at], buffer[at + 1], buffer[at + 2] := 0xFF, 0xFF, 0xFF;
      } else {
        buffer[at], buffer[at + 1], buffer[at + 2] := 0, 0, 0;
      }
    } else if byte < |mask| - offset && Tested(mask[offset + byte], bit) {
      buffer[at], buffer[at + 1], buffer[at + 2] := 0, 0, 0;
      buffer[at + 3] := 0xFF;
      inverts := true;
    } else {
      buffer[at], buffer[at + 1], buffer[at + 2], buffer[at + 3] := 0, 0, 0, 0;
    }
  }

  /**
   * Draws the image and says whether some pixel has both bits set. Every
   * access to the mask is inside it.
   */
  method HandleMask(buffer: array<Byte>, mask: seq<Byte>, width: nat, height: nat, rowBytes: nat)
    returns (outline: bool)
    requires Fits(mask, width, height, rowBytes) && Image(buffer[..], width, height)
    modifies buffer
    ensures forall x: nat, y: nat | Inside(width, height, x, y) ::
              HasMeaning(buffer[..], mask, width, height, rowBytes, x, y)
    ensures forall k | 4 * (height * width) <= k < buffer.Length :: buffer[k] == old(buffer[k])
    ensures outline <==> exists x: nat, y: nat :: Inside(width, height, x, y)
                                                  && Both(mask, width, height, rowBytes, x, y)
  {
    outline := false;
    for y := 0 to height
      invariant Drawn(buffer[..], mask, width, height, rowBytes, 0, y)
      invariant outline <==> SomeInverts(mask, width, height, rowBytes, 0, y)
      invariant forall k | 4 * (height * width) <= k < buffer.Length :: buffer[k] == old(buffer[k])
    {
      for x := 0 to width
        invariant Drawn(buffer[..], mask, width, height, rowBytes, x, y)
        invariant outline <==> SomeInverts(mask, width, height, rowBytes, x, y)
        invariant forall k | 4 * (height * width) <= k < buffer.Length :: buffer[k] == old(buffer[k])
      {
        ghost var was := buffer[..];
        var inverts := DrawPixel(buffer, mask, width, height, rowBytes, x, y);
        outline := outline || inverts;
        DrawOneMore(was, buffer[..], mask, width, height, rowBytes, x, y);
        InvertOneMore(mask, width, height, rowBytes, x, y);
      }
      NextRow(buffer[..], mask, width, height, rowBytes, y);
    }
    assert forall i: nat, j: nat :: Inside(width, height, i, j) <==> Before(width, i, j, 0, height);
  }
}
