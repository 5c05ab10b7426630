/** Images stored row by row, four bytes a pixel, and scans over them in that order. */
module Raster {
  import opened Bits
  import Arith

  datatype Pixel = Pixel(c0: Byte, c1: Byte, c2: Byte, c3: Byte)

  const CLEAR := Pixel(0, 0, 0, 0)
  const WHITE := Pixel(0xFF, 0xFF, 0xFF, 0xFF)
  const BLACK := Pixel(0, 0, 0, 0xFF)

  function PixelAt(s: seq<Byte>, i: nat): Pixel
    requires 4 * i + 4 <= |s|
  {
    Pixel(s[4 * i], s[4 * i + 1], s[4 * i + 2], s[4 * i + 3])
  }

  /** The place of column x of row y, rows being `stride` places apart. */
  function Place(stride: nat, x: nat, y: nat): nat {
    y * stride + x
  }

  predicate Inside(width: nat, height: nat, x: nat, y: nat) {
    x < width && y < height
  }

  /** Room for an image. */
  predicate Image(s: seq<Byte>, width: nat, height: nat) {
    4 * (height * width) <= |s|
  }

  /** The pixel at column x of row y. */
  function Source(s: seq<Byte>, width: nat, height: nat, x: nat, y: nat): Pixel
    requires Image(s, width, height) && Inside(width, height, x, y)
  {
    PlaceInside(width, x, y, height);
    PixelAt(s, Place(width, x, y))
  }

  /** The scan that goes through the rows of `width` pixels is past (i, j) when it comes to (x, y). */
  predicate Before(width: nat, i: nat, j: nat, x: nat, y: nat) {
    i < width && (j < y || (j == y && i < x))
  }

  lemma ScanMoves(width: nat, i: nat, j: nat, x: nat, y: nat)
    requires x < width
    ensures Before(width, i, j, x + 1, y) <==> Before(width, i, j, x, y) || (i == x && j == y)
  {
  }

  lemma RowEnds(width: nat, i: nat, j: nat, y: nat)
    ensures Before(width, i, j, width, y) <==> Before(width, i, j, 0, y + 1)
  {
  }

  /** What comes before in the scan has the smaller place, whatever the stride. */
  lemma ScanClimbs(stride: nat, width: nat, i: nat, j: nat, x: nat, y: nat)
    requires width <= stride && Before(width, i, j, x, y)
    ensures Place(stride, i, j) < Place(stride, x, y)
  {
    if j < y {
      Arith.MulMonotone(stride, j + 1, y);
      assert stride * (j + 1) == j * stride + stride;
    }
  }

  lemma PlacesAreDistinct(stride: nat, width: nat, i: nat, j: nat, x: nat, y: nat)
    requires width <= stride && i < width && x < width
    requires Place(stride, i, j) == Place(stride, x, y)
    ensures i == x && j == y
  {
    if Before(width, i, j, x, y) {
      ScanClimbs(stride, width, i, j, x, y);
    }
    if Before(width, x, y, i, j) {
      ScanClimbs(stride, width, x, y, i, j);
    }
  }

  lemma PlaceInside(stride: nat, x: nat, y: nat, height: nat)
    requires x < stride && y < height
    ensures Place(stride, x, y) < height * stride
  {
    Arith.MulMonotone(stride, y + 1, height);
    assert stride * (y + 1) == y * stride + stride;
  }

  /** The mask byte of a pixel in rows of whole bytes, and its bit in the byte. */
  function Cell(rowBytes: nat, x: nat, y: nat): nat {
    Place(rowBytes, x / 8, y)
  }

  /** Two pixels never share a bit. */
  lemma BitsAreDistinct(rowBytes: nat, i: nat, j: nat, x: nat, y: nat)
    requires i < 8 * rowBytes && x < 8 * rowBytes
    requires Cell(rowBytes, i, j) == Cell(rowBytes, x, y) && i % 8 == x % 8
    ensures i == x && j == y
  {
    PlacesAreDistinct(rowBytes, rowBytes, i / 8, j, x / 8, y);
  }

  lemma CellInside(rowBytes: nat, x: nat, y: nat, height: nat)
    requires x < 8 * rowBytes && y < height
    ensures Cell(rowBytes, x, y) < height * rowBytes
  {
    PlaceInside(rowBytes, x / 8, y, height);
  }
}
