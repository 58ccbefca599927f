/** adafruit_max7219.py, the older single-file driver. Its `MAX7219_SPI` base class
    and its `Matrix8x8.init_display` do what `Driver.Max7219` and
    `Matrices.Matrix8x8.InitDisplay` do, except that its `write_cmd` keeps the low
    eight bits of a value outside 0 .. 255 where `Driver.Max7219.WriteCmd` raises
    ValueError; `BcdDigits.InitDisplay` below applies that truncation to the one
    such value it sends. What differs besides is its `BCDDigits`, whose digit
    positions are columns as they stand (no reversal), whose `setDot` has no range
    check, and which can show an integer right-aligned in a field of digits. It is a
    MicroPython file (bare `const`, the built-in `framebuf`), so its `bytearray` keeps
    the low eight bits of what it stores instead of raising. */
module Legacy {
  import opened Bits
  import opened Failures
  import Registers
  import FrameBuffer
  import Driver
  import Digits

  /** `setDigits(start, digits)`: `setDigit(start + k, digits[k])` for each k in turn,
      digit position `d` being column `d`. */
  function DigitsWritten(buf: seq<byte>, n: nat, start: int, values: seq<int>): (r: seq<byte>)
    requires Digits.IsDigitBuffer(buf, n)
    ensures Digits.IsDigitBuffer(r, n)
    decreases |values|
  {
    if values == [] then buf
    else DigitsWritten(Digits.WriteRows(buf, n, start, values[0], 4), n, start + 1, values[1..])
  }

  /** `v // 10 ** i`: what is left of `v` once its last `i` decimal digits are dropped. */
  function Place(v: nat, i: nat): nat
  {
    v / Pow(10, i)
  }

  /** The decode byte `init_display` stores: `2 ** nDigits - 1` itself up to eight
      digits, and 0xFF, every digit decoded, beyond. */
  lemma DecodeByteStored(n: nat)
    ensures Truncated(Digits.DecodeMode(n)) == if n <= 8 then Digits.DecodeMode(n) else 255
  {
    if n <= 8 {
      Digits.DecodeModeFits(n);
    } else {
      var q := Pow(2, n - 8);
      PowAdd(2, 8, n - 8);
      assert Pow(2, 8) == 256;
      DivModUnique(Digits.DecodeMode(n), 256, q - 1, 255);
    }
  }

  /** The field `setIntDigits` builds for `v = abs(value)`: slot `wide - 1 - i` holds
      decimal digit `i` of `v` while digits remain, the last slot holds 0 even for
      `v = 0`, and the leading slots left over hold 15 (blank). */
  function IntField(wide: nat, v: nat): (ds: seq<int>)
    ensures |ds| == wide
  {
    seq(wide, j requires 0 <= j < wide => var i := wide - 1 - j; if i == 0 || Place(v, i) != 0 then Place(v, i) % 10 else 15)
  }

  /** A slot as a decimal digit: blank reads as 0. */
  function Blank(d: int): int
  {
    if d == 15 then 0 else d
  }

  /** The number a field of decimal slots spells, most significant slot first. */
  function Decode(ds: seq<int>): int
  {
    if ds == [] then 0 else Decode(ds[..|ds| - 1]) * 10 + Blank(ds[|ds| - 1])
  }

  /** The `w` decimal digits of `v` with leading zeros. */
  function PlainDigits(w: nat, v: nat): (ds: seq<int>)
    ensures |ds| == w
  {
    seq(w, j requires 0 <= j < w => Place(v, w - 1 - j) % 10)
  }

  /** A slot is blank exactly when it lies left of the last slot and `v` has no digit
      that far left; every other slot holds a decimal digit. */
  lemma IntFieldSlots(wide: nat, v: nat, j: nat)
    requires j < wide
    ensures IntField(wide, v)[j] == 15 <==> j < wide - 1 && v < Pow(10, wide - 1 - j)
    ensures IntField(wide, v)[j] != 15 ==> 0 <= IntField(wide, v)[j] <= 9
  {
    var i := wide - 1 - j;
    assert IntField(wide, v)[j] == if i == 0 || Place(v, i) != 0 then Place(v, i) % 10 else 15;
    DivRange(v, Pow(10, i), 0);
  }

  /** For 0 the field is blank except for a 0 in the last slot. */
  lemma IntFieldOfZero(wide: nat)
    requires wide >= 1
    ensures IntField(wide, 0) == seq(wide, j => if j == wide - 1 then 0 else 15)
  {
    forall j | 0 <= j < wide
      ensures IntField(wide, 0)[j] == if j == wide - 1 then 0 else 15
    {
      IntFieldSlots(wide, 0, j);
    }
  }

  /** Read back with blanks as zeros, the field shows the last `wide` decimal digits of
      `v`: the digits that do not fit are dropped. */
  lemma IntFieldValue(wide: nat, v: nat)
    ensures Decode(IntField(wide, v)) == v % Pow(10, wide)
  {
    var a, b := IntField(wide, v), PlainDigits(wide, v);
    forall j | 0 <= j < wide
      ensures Blank(a[j]) == Blank(b[j])
    {
      IntFieldSlots(wide, v, j);
    }
    DecodeBlanks(a, b);
    PlainDecode(wide, v);
  }

  lemma {:induction false} DecodeBlanks(a: seq<int>, b: seq<int>)
    requires |a| == |b| && forall j :: 0 <= j < |a| ==> Blank(a[j]) == Blank(b[j])
    ensures Decode(a) == Decode(b)
    decreases |a|
  {
    if a != [] {
      DecodeBlanks(a[..|a| - 1], b[..|b| - 1]);
    }
  }

  lemma {:induction false} PlainDecode(w: nat, v: nat)
    ensures Decode(PlainDigits(w, v)) == v % Pow(10, w)
  {
    if w > 0 {
      var ds, p := PlainDigits(w, v), Pow(10, w - 1);
      forall j | 0 <= j < w - 1
        ensures ds[j] == PlainDigits(w - 1, v / 10)[j]
      {
        var k := w - 1 - 1 - j;
        DivDiv(v, 10, Pow(10, k));
        assert Pow(10, k + 1) == 10 * Pow(10, k);
        assert Place(v, k + 1) == Place(v / 10, k);
      }
      assert ds[..w - 1] == PlainDigits(w - 1, v / 10);
      PlainDecode(w - 1, v / 10);
      assert Place(v, 0) == v;
      ModSplit(v, 10, p);
    }
  }

  /** `setIntDigits`' construction of the field, with `v = abs(int(value))`: `wide`
      blanks, a 0 in slot `wide - 1`, then the digits of `v` from the right while any
      remain. A field narrower than one slot has no `digits[wide - 1]`: IndexError. */
  method IntDigits(wide: int, value: int) returns (r: Result<seq<int>>)
    ensures r == if wide < 1 then Err(IndexError) else Ok(IntField(wide, if value < 0 then -value else value))
  {
    var v: nat := if value < 0 then -value else value;
    var n: nat := if wide < 1 then 0 else wide;
    var digits: seq<int> := [];
    for i := 0 to n
      invariant digits == seq(i, _ => 15)
    {
      digits := digits + [15];
    }
    if n == 0 {
      return Err(IndexError);
    }
    digits := digits[n - 1 := 0];
    var rest := v;
    for i := 0 to n
      invariant rest == Place(v, i)
      invariant |digits| == n
      invariant forall j :: 0 <= j < n ==>
                  digits[j] == if n - 1 - j < i then IntField(n, v)[j] else if j == n - 1 then 0 else 15
    {
      DivDiv(v, Pow(10, i), 10);
      assert Pow(10, i + 1) == Pow(10, i) * 10;
      if rest != 0 {
        digits := digits[n - i - 1 := rest % 10];
        rest := rest / 10;
      }
    }
    assert digits == IntField(n, v);
    r := Ok(digits);
  }

  /** `setDigits` puts bit y of `values[k]` in row y < 4 of column `start + k` and
      leaves every other pixel as it was. */
  lemma {:induction false} DigitsWrittenPixel(buf: seq<byte>, n: nat, start: int, values: seq<int>, x: int, y: int)
    requires Digits.IsDigitBuffer(buf, n) && FrameBuffer.InBounds(n, 8, x, y)
    ensures Digits.Lit(DigitsWritten(buf, n, start, values), n, x, y)
         == if y < 4 && start <= x < start + |values| then IntBit(values[x - start], y)
            else Digits.Lit(buf, n, x, y)
    decreases |values|
  {
    if values != [] {
      DigitsWrittenPixel(Digits.WriteRows(buf, n, start, values[0], 4), n, start + 1, values[1..], x, y);
      Digits.WriteRowsPixel(buf, n, start, values[0], 4, x, y);
    }
  }

  /** After `setDigits`, column `start + k` shows `values[k]` modulo 16. */
  lemma DigitsReadback(buf: seq<byte>, n: nat, start: int, values: seq<int>, k: nat)
    requires Digits.IsDigitBuffer(buf, n) && k < |values| && 0 <= start + k < n
    ensures Digits.DigitAt(DigitsWritten(buf, n, start, values), n, start + k) == values[k] % 16
  {
    DigitsWrittenPixel(buf, n, start, values, start + k, 0);
    DigitsWrittenPixel(buf, n, start, values, start + k, 1);
    DigitsWrittenPixel(buf, n, start, values, start + k, 2);
    DigitsWrittenPixel(buf, n, start, values, start + k, 3);
    NibbleOfInt(values[k]);
  }

  /** `BCDDigits` of the single-file driver. */
  class BcdDigits {
    const nDigits: nat
    const dev: Driver.Max7219

    ghost predicate Valid()
      reads this, dev
    {
      dev.Valid() && dev.width == nDigits && dev.height == 8
    }

    /** Allocates the `nDigits`-byte buffer; `init_display` is `InitDisplay`. */
    constructor (nDigits: nat)
      ensures Valid() && this.nDigits == nDigits && fresh(dev) && fresh(dev.buffer)
      ensures dev.sent == [] && dev.buffer[..] == FrameBuffer.Filled(nDigits, false)
    {
      this.nDigits := nDigits;
      dev := new Driver.Max7219(nDigits, 8);
    }

    /** `init_display`: the power-on sequence with one decode bit per digit, then
        `clearAll` and `show`. The decode byte goes out as MicroPython's `bytearray`
        stores it, so more than eight digits send 0xFF (`DecodeByteStored`); fewer
        than eight make `show` raise IndexError. */
    method InitDisplay() returns (r: Outcome)
      requires Valid()
      modifies dev, dev.buffer
      ensures Valid()
      ensures r == if nDigits < 8 then Fail(IndexError) else Pass
      ensures dev.sent == old(dev.sent)
                          + Registers.Frames(Registers.InitCommands(Truncated(Digits.DecodeMode(nDigits))))
                          + Registers.Frames(Registers.RowCommands(Digits.Cleared(nDigits)))
      ensures dev.buffer[..] == Digits.Cleared(nDigits)
    {
      var cs := Registers.InitCommands(Truncated(Digits.DecodeMode(nDigits)));
      var _ := dev.WriteCommands(cs);
      assert Registers.Accepted(cs) == cs;
      ClearAll();
      r := dev.Show();
    }

    /** `setDigit(digit, digitValue)`: bit i of the value into row i of column `digit`,
        for i = 0 .. 3. */
    method SetDigit(digit: int, value: int)
      requires Valid()
      modifies dev.buffer
      ensures dev.buffer[..] == Digits.WriteRows(old(dev.buffer[..]), nDigits, digit, value, 4)
    {
      var v := value;
      for i := 0 to 4
        invariant v == Shifted(value, i)
        invariant dev.buffer[..] == Digits.WriteRows(old(dev.buffer[..]), nDigits, digit, value, i)
      {
        dev.Pixel(digit, i, Some(v % 2));
        v := v / 2;
      }
    }

    /** `setDigits(start, digits)`. */
    method SetDigits(start: int, values: seq<int>)
      requires Valid()
      modifies dev.buffer
      ensures dev.buffer[..] == DigitsWritten(old(dev.buffer[..]), nDigits, start, values)
    {
      var pos := start;
      for k := 0 to |values|
        invariant pos == start + k
        invariant DigitsWritten(dev.buffer[..], nDigits, pos, values[k..])
               == DigitsWritten(old(dev.buffer[..]), nDigits, start, values)
      {
        assert values[k..][1..] == values[k + 1..];
        SetDigit(pos, values[k]);
        pos := pos + 1;
      }
    }

    /** `setIntDigits(start, wide, value)`: the field of `abs(value)` shown from
        position `start`; a field narrower than one slot raises before any digit is
        written. */
    method SetIntDigits(start: int, wide: int, value: int) returns (r: Outcome)
      requires Valid()
      modifies dev.buffer
      ensures r == if wide < 1 then Fail(IndexError) else Pass
      ensures dev.buffer[..] == if wide < 1 then old(dev.buffer[..])
                                else DigitsWritten(old(dev.buffer[..]), nDigits, start,
                                                   IntField(wide, if value < 0 then -value else value))
    {
      var digits := IntDigits(wide, value);
      if digits.Err? {
        return Fail(digits.error);
      }
      SetDigits(start, digits.value);
      r := Pass;
    }

    /** `setDot(whichDigit, col)`: row 7 of column `whichDigit`; a column off the
        display is dropped by the frame buffer, not by a check here. */
    method SetDot(whichDigit: int, col: Option<int>)
      requires Valid()
      modifies dev.buffer
      ensures dev.buffer[..] == FrameBuffer.Plot(old(dev.buffer[..]), nDigits, 8, whichDigit, 7, Driver.Truthy(col))
    {
      dev.Pixel(whichDigit, 7, col);
    }

    /** `clearAll`: fill with 1, then clear the decimal point of every column. */
    method ClearAll()
      requires Valid()
      modifies dev.buffer
      ensures dev.buffer[..] == Digits.Cleared(nDigits)
    {
      dev.Fill(1);
      for i := 0 to nDigits
        invariant dev.buffer[..] == seq(nDigits, j => if j < i then 0x7F else 0xFF)
      {
        ghost var before := dev.buffer[..];
        SetDot(i, None);
        assert WithBit(0xFF, 7, false) == 0x7F;
        assert dev.buffer[..] == before[i := 0x7F];
      }
    }
  }
}
