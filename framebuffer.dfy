/** The one-bit frame buffer the drivers draw into (FrameBuffer1 over the driver's
    byte buffer): pixel (x, y) is bit `y % 8` of byte `(y / 8) * width + x`, so with
    a height of 8 byte `x` holds column `x` with row 0 in its least significant bit.
    Writes outside the picture are ignored. */
module FrameBuffer {
  import opened Bits

  /** The buffer holds exactly the picture: `(height / 8) * width` bytes. */
  predicate WellFormed(buf: seq<byte>, width: nat, height: nat)
  {
    height % 8 == 0 && |buf| == (height / 8) * width
  }

  predicate InBounds(width: nat, height: nat, x: int, y: int)
  {
    0 <= x < width && 0 <= y < height
  }

  function Index(width: nat, x: nat, y: nat): nat
  {
    (y / 8) * width + x
  }

  lemma IndexInRange(buf: seq<byte>, width: nat, height: nat, x: nat, y: nat)
    requires WellFormed(buf, width, height) && InBounds(width, height, x, y)
    ensures Index(width, x, y) < |buf|
  {
    var row, rows := y / 8, height / 8;
    assert row < rows;
    assert rows * width - (row + 1) * width == (rows - row - 1) * width;
    assert (rows - row - 1) * width >= 0;
  }

  /** Two different pixels never share both byte and bit. */
  lemma {:induction false} IndexSeparates(width: nat, x: nat, y: nat, x': nat, y': nat)
    requires x < width && x' < width
    requires Index(width, x, y) == Index(width, x', y') && y % 8 == y' % 8
    ensures x == x' && y == y'
  {
    var n := Index(width, x, y);
    DivModUnique(n, width, y / 8, x);
    DivModUnique(n, width, y' / 8, x');
  }

  /** The pixel at (x, y): on or off. */
  function Pixel(buf: seq<byte>, width: nat, height: nat, x: int, y: int): bool
    requires WellFormed(buf, width, height) && InBounds(width, height, x, y)
  {
    IndexInRange(buf, width, height, x, y);
    Bit(buf[Index(width, x, y)], y % 8)
  }

  /** `pixel(x, y, color)` with a colour: sets pixel (x, y) to `on` when it lies in
      the picture, and does nothing when it does not. */
  function Plot(buf: seq<byte>, width: nat, height: nat, x: int, y: int, on: bool): (r: seq<byte>)
    requires WellFormed(buf, width, height)
    ensures WellFormed(r, width, height)
  {
    if InBounds(width, height, x, y) then
      IndexInRange(buf, width, height, x, y);
      var i := Index(width, x, y);
      buf[i := WithBit(buf[i], y % 8, on)]
    else
      buf
  }

  /** Plotting changes the one pixel plotted, if it is in the picture, and no other. */
  lemma PlotPixel(buf: seq<byte>, width: nat, height: nat, x: int, y: int, on: bool, x': int, y': int)
    requires WellFormed(buf, width, height) && InBounds(width, height, x', y')
    ensures Pixel(Plot(buf, width, height, x, y, on), width, height, x', y')
         == if x' == x && y' == y then on else Pixel(buf, width, height, x', y')
  {
    if InBounds(width, height, x, y) {
      IndexInRange(buf, width, height, x, y);
      IndexInRange(buf, width, height, x', y');
      var i, i' := Index(width, x, y), Index(width, x', y');
      var r := buf[i := WithBit(buf[i], y % 8, on)];
      assert Plot(buf, width, height, x, y, on) == r;
      if x' == x && y' == y {
        assert r[i'] == WithBit(buf[i], y % 8, on);
      } else if i == i' {
        if y % 8 == y' % 8 {
          IndexSeparates(width, x, y, x', y');
        }
        assert r[i'] == WithBit(buf[i], y % 8, on);
        assert Bit(r[i'], y' % 8) == Bit(buf[i'], y' % 8);
      } else {
        assert r[i'] == buf[i'];
      }
    }
  }

  /** `fill(color)`: every byte 0xFF for a true colour, 0x00 for a false one. */
  function Filled(length: nat, on: bool): (r: seq<byte>)
    ensures |r| == length
  {
    seq(length, _ => if on then 0xFF else 0x00)
  }

  /** After a fill every pixel of the picture shows the fill colour. */
  lemma FilledPixel(width: nat, height: nat, on: bool, x: int, y: int)
    requires height % 8 == 0 && InBounds(width, height, x, y)
    ensures Pixel(Filled((height / 8) * width, on), width, height, x, y) == on
  {
    var buf := Filled((height / 8) * width, on);
    IndexInRange(buf, width, height, x, y);
    var k := y % 8;
    assert Bit(0xFF, k) && !Bit(0x00, k) by {
      match k
      case 0 => case 1 => case 2 => case 3 => case 4 => case 5 => case 6 => case _ =>
    }
  }
}
