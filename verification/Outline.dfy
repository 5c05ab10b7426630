/** Drawing a cursor with a white outline into a buffer two pixels wider and higher. */
module Outline {
  import opened Bits
  import opened Raster
  import Arith

  /** Where the drawing puts pixel (x, y): it starts one row of the old image and one pixel in. */
  function Target(width: nat, x: nat, y: nat): nat {
    width + 1 + Place(width + 2, x, y)
  }

  /** The starts of the three runs of three pixels drawn around a pixel; the upper one can be negative. */
  function Runs(width: nat, x: nat, y: nat): (int, int, int) {
    var t := Target(width, x, y);
    (t - (width + 2) - 1, t - 1, t + (width + 2) - 1)
  }

  /** A run is drawn where all of it is inside a buffer of `size` bytes. */
  predicate RunCovers(start: int, size: nat, j: nat) {
    0 <= start <= j < start + 3 && 4 * (start + 3) <= size
  }

  predicate Covers(width: nat, size: nat, x: nat, y: nat, j: nat) {
    var (above, beside, below) := Runs(width, x, y);
    RunCovers(above, size, j) || RunCovers(beside, size, j) || RunCovers(below, size, j)
  }

  predicate Visible(src: seq<Byte>, width: nat, height: nat, x: nat, y: nat)
    requires Image(src, width, height)
  {
    Inside(width, height, x, y) && Source(src, width, height, x, y).c3 > 0
  }

  lemma VisibleIffAlpha(src: seq<Byte>, width: nat, height: nat, x: nat, y: nat)
    requires Image(src, width, height) && Inside(width, height, x, y)
    ensures 4 * (y * width + x) + 3 < |src|
    ensures Visible(src, width, height, x, y) <==> src[4 * (y * width + x) + 3] != 0
  {
    PlaceInside(width, x, y, height);
  }

  /** Pixel j is next to a visible pixel of the scan before (x, y). */
  ghost predicate Outlined(src: seq<Byte>, width: nat, height: nat, size: nat, x: nat, y: nat, j: nat)
    requires Image(src, width, height)
  {
    exists i: nat, k: nat ::
      Before(width, i, k, x, y) && Visible(src, width, height, i, k) && Covers(width, size, i, k, j)
  }

  /** Pixel j is where a visible pixel of the scan before (x, y) goes. */
  ghost predicate Filled(src: seq<Byte>, width: nat, height: nat, x: nat, y: nat, j: nat)
    requires Image(src, width, height)
  {
    exists i: nat, k: nat ::
      Before(width, i, k, x, y) && Visible(src, width, height, i, k) && Target(width, i, k) == j
  }

  predicate InBuffer(size: nat, j: nat) {
    4 * j + 4 <= size
  }

  /** After the first pass up to (x, y). */
  ghost predicate Whitened(out: seq<Byte>, was: seq<Byte>, src: seq<Byte>, width: nat, height: nat, x: nat, y: nat)
    requires Image(src, width, height) && |out| == |was|
  {
    forall j: nat | InBuffer(|out|, j) ::
      PixelAt(out, j) == if Outlined(src, width, height, |out|, x, y, j) then WHITE else PixelAt(was, j)
  }

  predicate Shows(out: seq<Byte>, src: seq<Byte>, width: nat, height: nat, x: nat, y: nat)
    requires Image(src, width, height) && Inside(width, height, x, y)
  {
    InBuffer(|out|, Target(width, x, y))
    ==> PixelAt(out, Target(width, x, y)) == Source(src, width, height, x, y)
  }

  /** After the second pass up to (x, y), which started from `mid`. */
  ghost predicate Copied(out: seq<Byte>, mid: seq<Byte>, src: seq<Byte>, width: nat, height: nat, x: nat, y: nat)
    requires Image(src, width, height) && |out| == |mid|
  {
    && (forall i: nat, k: nat | Before(width, i, k, x, y) && Visible(src, width, height, i, k) ::
          Shows(out, src, width, height, i, k))
    && forall j: nat | InBuffer(|out|, j) && !Filled(src, width, height, x, y, j) ::
         PixelAt(out, j) == PixelAt(mid, j)
  }

  lemma OutlineOneMore(src: seq<Byte>, width: nat, height: nat, size: nat, x: nat, y: nat, j: nat)
    requires Image(src, width, height) && Inside(width, height, x, y)
    ensures Outlined(src, width, height, size, x + 1, y, j)
            <==> Outlined(src, width, height, size, x, y, j)
                 || (Visible(src, width, height, x, y) && Covers(width, size, x, y, j))
  {
    assert Before(width, x, y, x + 1, y);
    if Outlined(src, width, height, size, x, y, j) {
      var i: nat, k: nat :|
        Before(width, i, k, x, y) && Visible(src, width, height, i, k) && Covers(width, size, i, k, j);
      assert Before(width, i, k, x + 1, y);
    }
  }

  lemma NextRow(src: seq<Byte>, width: nat, height: nat, size: nat, y: nat, j: nat)
    requires Image(src, width, height)
    ensures Outlined(src, width, height, size, width, y, j) <==> Outlined(src, width, height, size, 0, y + 1, j)
    ensures Filled(src, width, height, width, y, j) <==> Filled(src, width, height, 0, y + 1, j)
  {
    forall i: nat, k: nat
      ensures Before(width, i, k, width, y) <==> Before(width, i, k, 0, y + 1)
    {
      RowEnds(width, i, k, y);
    }
  }

  lemma CopyOneMore(now: seq<Byte>, was: seq<Byte>, mid: seq<Byte>, src: seq<Byte>, width: nat, height: nat,
                    x: nat, y: nat)
    requires Image(src, width, height) && Inside(width, height, x, y) && |now| == |was| == |mid|
    requires Copied(was, mid, src, width, height, x, y)
    requires Visible(src, width, height, x, y) ==> Shows(now, src, width, height, x, y)
    requires forall j: nat | InBuffer(|now|, j)
                             && !(Visible(src, width, height, x, y) && j == Target(width, x, y)) ::
               PixelAt(now, j) == PixelAt(was, j)
    ensures Copied(now, mid, src, width, height, x + 1, y)
  {
    forall i: nat, k: nat | Before(width, i, k, x + 1, y) && Visible(src, width, height, i, k)
      ensures Shows(now, src, width, height, i, k)
    {
      if Before(width, i, k, x, y) {
        ScanClimbs(width + 2, width, i, k, x, y);
        assert Shows(was, src, width, height, i, k);
      }
    }
    assert Before(width, x, y, x + 1, y);
    forall j: nat | InBuffer(|now|, j) && !Filled(src, width, height, x + 1, y, j)
      ensures PixelAt(now, j) == PixelAt(mid, j)
    {
      assert !Filled(src, width, height, x, y, j) by {
        forall i: nat, k: nat | Before(width, i, k, x, y)
          ensures Before(width, i, k, x + 1, y)
        {
        }
      }
    }
  }

  /** Sets n bytes. */
  method Memset(out: array<Byte>, p: nat, value: Byte, n: nat)
    requires p + n <= out.Length
    modifies out
    ensures forall k | 0 <= k < out.Length :: out[k] == if p <= k < p + n then value else old(out[k])
  {
    for i := 0 to n
      invariant forall k | 0 <= k < out.Length :: out[k] == if p <= k < p + i then value else old(out[k])
    {
      out[p + i] := value;
    }
  }

  /** Draws a run of three pixels if all of it is inside the buffer. */
  method DrawRun(out: array<Byte>, start: int)
    modifies out
    ensures forall j: nat | InBuffer(out.Length, j) ::
              PixelAt(out[..], j) == if RunCovers(start, out.Length, j) then WHITE else old(PixelAt(out[..], j))
  {
    var p := 4 * start;
    if p >= 0 && p + 4 * 3 <= out.Length {
      Memset(out, p, 0xFF, 4 * 3);
    }
  }

  /** The three runs around a visible pixel. */
  method DrawAround(out: array<Byte>, width: nat, x: nat, y: nat)
    modifies out
    ensures forall j: nat | InBuffer(out.Length, j) ::
              PixelAt(out[..], j) == if Covers(width, out.Length, x, y, j) then WHITE else old(PixelAt(out[..], j))
  {
    var t := Target(width, x, y);
    DrawRun(out, t - (width + 2) - 1);
    DrawRun(out, t - 1);
    DrawRun(out, t + (width + 2) - 1);
  }

  method CopyPixel(out: array<Byte>, p: nat, src: seq<Byte>, q: nat)
    requires 4 * p + 4 <= out.Length && 4 * q + 4 <= |src|
    modifies out
    ensures PixelAt(out[..], p) == PixelAt(src, q)
    ensures forall j: nat | InBuffer(out.Length, j) && j != p :: PixelAt(out[..], j) == old(PixelAt(out[..], j))
  {
    for b := 0 to 4
      invariant forall k | 0 <= k < out.Length ::
                  out[k] == if 4 * p <= k < 4 * p + b then src[4 * q + k - 4 * p] else old(out[k])
    {
      out[4 * p + b] := src[4 * q + b];
    }
  }

  /**
   * Draws the outline and then the image over it. No access is outside either
   * buffer, whatever the size of the output.
   */
  method DrawOutline(out: array<Byte>, src: seq<Byte>, width: nat, height: nat)
    requires Image(src, width, height)
    modifies out
    ensures forall x: nat, y: nat | Visible(src, width, height, x, y) :: Shows(out[..], src, width, height, x, y)
    ensures forall j: nat | InBuffer(out.Length, j) && !Filled(src, width, height, 0, height, j) ::
              PixelAt(out[..], j) == if Outlined(src, width, height, out.Length, 0, height, j) then WHITE
                                     else old(PixelAt(out[..], j))
  {
    ghost var was := out[..];
    Pass1(out, src, width, height);
    Pass2(out, src, width, height);
    assert forall i: nat, k: nat | Visible(src, width, height, i, k) :: Before(width, i, k, 0, height);
  }

  method Pass1(out: array<Byte>, src: seq<Byte>, width: nat, height: nat)
    requires Image(src, width, height)
    modifies out
    ensures Whitened(out[..], old(out[..]), src, width, height, 0, height)
  {
    for y := 0 to height
      invariant Whitened(out[..], old(out[..]), src, width, height, 0, y)
    {
      for x := 0 to width
        invariant Whitened(out[..], old(out[..]), src, width, height, x, y)
      {
        PlaceInside(width, x, y, height);
        forall j: nat
          ensures Outlined(src, width, height, out.Length, x + 1, y, j)
                  <==> Outlined(src, width, height, out.Length, x, y, j)
                       || (Visible(src, width, height, x, y) && Covers(width, out.Length, x, y, j))
        {
          OutlineOneMore(src, width, height, out.Length, x, y, j);
        }
        if src[4 * (y * width + x) + 3] > 0 {
          DrawAround(out, width, x, y);
        }
      }
      forall j: nat
        ensures Outlined(src, width, height, out.Length, width, y, j)
                <==> Outlined(src, width, height, out.Length, 0, y + 1, j)
      {
        NextRow(src, width, height, out.Length, y, j);
      }
    }
  }

  method Pass2(out: array<Byte>, src: seq<Byte>, width: nat, height: nat)
    requires Image(src, width, height)
    modifies out
    ensures Copied(out[..], old(out[..]), src, width, height, 0, height)
  {
    for y := 0 to height
      invariant Copied(out[..], old(out[..]), src, width, height, 0, y)
    {
      for x := 0 to width
        invariant Copied(out[..], old(out[..]), src, width, height, x, y)
      {
        PlaceInside(width, x, y, height);
        ghost var was := out[..];
        if src[4 * (y * width + x) + 3] > 0 && 4 * Target(width, x, y) + 4 <= out.Length {
          CopyPixel(out, Target(width, x, y), src, y * width + x);
        }
        CopyOneMore(out[..], was, old(out[..]), src, width, height, x, y);
      }
      forall j: nat
        ensures Filled(src, width, height, width, y, j) <==> Filled(src, width, height, 0, y + 1, j)
      {
        NextRow(src, width, height, out.Length, y, j);
      }
      forall i: nat, k: nat
        ensures Before(width, i, k, width, y) <==> Before(width, i, k, 0, y + 1)
      {
        RowEnds(width, i, k, y);
      }
    }
  }

  /** In the buffer that the caller makes, only upper runs of the first two pixels fall outside. */
  lemma RunsInside(width: nat, height: nat, x: nat, y: nat)
    requires Inside(width, height, x, y)
    ensures var size := 4 * ((height + 2) * (width + 2));
            var (above, beside, below) := Runs(width, x, y);
            && InBuffer(size, Target(width, x, y))
            && 0 <= beside && 4 * (beside + 3) <= size
            && 0 <= below && 4 * (below + 3) <= size
            && (0 <= above && 4 * (above + 3) <= size <==> y > 0 || x >= 2)
  {
    var row := width + 2;
    PlaceInside(row, x + 2, y, height + 1);
    assert (height + 2) * row == (height + 1) * row + row;
    assert (height + 1) * row == height * row + row;
    if y > 0 {
      Arith.MulMonotone(row, 1, y);
    } else {
      assert Place(row, x, y) == x;
    }
    PlaceInside(row, x, y, height);
  }

  /** Pixel j is dx to the right of the place of (x, y) and dy rows below it. */
  predicate IsNeighbour(width: nat, x: nat, y: nat, dx: int, dy: int, j: nat) {
    j == width + 1 + y * (width + 2) + x + dx + (if dy == -1 then -(width + 2) else if dy == 1 then width + 2 else 0)
  }

  /**
   * In the caller's buffer the runs around a pixel cover its eight neighbours
   * and itself, those of the row above only if none of them falls before the
   * start.
   */
  lemma NeighboursAreCovered(width: nat, height: nat, x: nat, y: nat, j: nat)
    requires Inside(width, height, x, y)
    ensures Covers(width, 4 * ((height + 2) * (width + 2)), x, y, j)
            <==> exists dx: int, dy: int ::
                   -1 <= dx <= 1 && -1 <= dy <= 1 && IsNeighbour(width, x, y, dx, dy, j)
                   && (dy == -1 ==> y > 0 || x >= 2)
  {
    var size := 4 * ((height + 2) * (width + 2));
    RunsInside(width, height, x, y);
    var (above, beside, below) := Runs(width, x, y);
    if RunCovers(above, size, j) {
      assert IsNeighbour(width, x, y, j - above - 1, -1, j);
    }
    if RunCovers(beside, size, j) {
      assert IsNeighbour(width, x, y, j - beside - 1, 0, j);
    }
    if RunCovers(below, size, j) {
      assert IsNeighbour(width, x, y, j - below - 1, 1, j);
    }
  }

  /**
   * The caller moves the hot spot by one pixel each way, but the drawing
   * moves the image one pixel down and one pixel to the left, so that the
   * first column goes to the end of the row above.
   */
  lemma DrawingIsOffByTwo(width: nat, x: nat, y: nat)
    ensures Target(width, x, y) + 2 == Place(width + 2, x + 1, y + 1)
  {
  }
}
