/** adafruit_max7219/bcddigits.py: a row of 7-segment digits in the chip's BCD
    decode mode. Each digit is one column of the frame buffer, eight rows high:
    rows 0 .. 3 hold the 4-bit BCD code and row 7 the decimal point. Digit position
    `dpos` counts from the right-hand end, so it lives in column `nDigits - dpos - 1`. */
module Digits {
  import opened Bits
  import opened Failures
  import Registers
  import FrameBuffer
  import Driver

  /** A buffer of `n` one-byte columns, eight rows high. */
  predicate IsDigitBuffer(buf: seq<byte>, n: nat)
  {
    FrameBuffer.WellFormed(buf, n, 8)
  }

  /** Pixel (x, y) of an `n`-digit buffer. */
  function Lit(buf: seq<byte>, n: nat, x: int, y: int): bool
    requires IsDigitBuffer(buf, n) && FrameBuffer.InBounds(n, 8, x, y)
  {
    FrameBuffer.Pixel(buf, n, 8, x, y)
  }

  /** The column that shows digit position `dpos`. */
  function Column(n: nat, dpos: int): int
  {
    n - dpos - 1
  }

  /** The first `i` rounds of `set_digit`'s loop: rows 0 .. i - 1 of column `col`
      take bits 0 .. i - 1 of `value`. */
  function WriteRows(buf: seq<byte>, n: nat, col: int, value: int, i: nat): (r: seq<byte>)
    requires IsDigitBuffer(buf, n) && i <= 4
    ensures IsDigitBuffer(r, n)
  {
    if i == 0 then buf
    else FrameBuffer.Plot(WriteRows(buf, n, col, value, i - 1), n, 8, col, i - 1, IntBit(value, i - 1))
  }

  /** `set_digit(dpos, value)`. */
  function DigitWritten(buf: seq<byte>, n: nat, dpos: int, value: int): (r: seq<byte>)
    requires IsDigitBuffer(buf, n)
    ensures IsDigitBuffer(r, n)
  {
    WriteRows(buf, n, Column(n, dpos), value, 4)
  }

  /** `set_digits(start, values)`: `set_digit(start + k, values[k])` for each k in turn. */
  function DigitsWritten(buf: seq<byte>, n: nat, start: int, values: seq<int>): (r: seq<byte>)
    requires IsDigitBuffer(buf, n)
    ensures IsDigitBuffer(r, n)
    decreases |values|
  {
    if values == [] then buf
    else DigitsWritten(DigitWritten(buf, n, start, values[0]), n, start + 1, values[1..])
  }

  /** `show_dot(dpos, on)`: row 7 of the digit's column, for a position on the display. */
  function DotWritten(buf: seq<byte>, n: nat, dpos: int, on: bool): (r: seq<byte>)
    requires IsDigitBuffer(buf, n)
    ensures IsDigitBuffer(r, n)
  {
    if 0 <= dpos < n then FrameBuffer.Plot(buf, n, 8, Column(n, dpos), 7, on) else buf
  }

  /** The buffer `clear_all` leaves: rows 0 .. 6 set and row 7 clear in every column. */
  function Cleared(n: nat): (r: seq<byte>)
    ensures IsDigitBuffer(r, n)
  {
    seq(n, _ => 0x7F)
  }

  /** The number shown by rows 0 .. 3 of column `col`, row 0 the least significant bit. */
  function DigitAt(buf: seq<byte>, n: nat, col: int): int
    requires IsDigitBuffer(buf, n) && 0 <= col < n
  {
    (if Lit(buf, n, col, 0) then 1 else 0) + (if Lit(buf, n, col, 1) then 2 else 0)
    + (if Lit(buf, n, col, 2) then 4 else 0) + (if Lit(buf, n, col, 3) then 8 else 0)
  }

  /** The decode-mode byte of `init_display`: one bit per digit. */
  function DecodeMode(n: nat): int
  {
    Pow(2, n) - 1
  }

  /** The BCD code `show_str` writes for a character other than '.': the digit for
      '0' .. '9', 10 (minus sign) for '-', 15 (blank) for anything else. */
  function CharValue(c: char): (v: int)
    ensures 0 <= v < 16
    ensures v <= 9 <==> '0' <= c <= '9'
  {
    if '0' <= c <= '9' then c as int - '0' as int
    else if c == '-' then 10
    else 15
  }

  /** One effect of `show_str`: a digit written at a position, or a decimal point lit. */
  datatype Step = Digit(pos: int, value: int) | Dot(pos: int)

  /** The steps `show_str` takes from cursor `cpos`: a '.' lights the point of the
      digit before the cursor and leaves the cursor alone; every other character
      writes its code at the cursor and advances it. */
  function Plan(cpos: int, s: string): seq<Step>
    decreases |s|
  {
    if s == [] then []
    else if s[0] == '.' then [Dot(cpos - 1)] + Plan(cpos, s[1..])
    else [Digit(cpos, CharValue(s[0]))] + Plan(cpos + 1, s[1..])
  }

  function Run(buf: seq<byte>, n: nat, steps: seq<Step>): (r: seq<byte>)
    requires IsDigitBuffer(buf, n)
    ensures IsDigitBuffer(r, n)
    decreases |steps|
  {
    if steps == [] then buf
    else
      var next := match steps[0]
        case Digit(pos, value) => DigitWritten(buf, n, pos, value)
        case Dot(pos) => DotWritten(buf, n, pos, true);
      Run(next, n, steps[1..])
  }

  /** The number of characters of `s` that are not '.'. */
  function NonDots(s: string): nat
  {
    if s == [] then 0 else (if s[0] == '.' then 0 else 1) + NonDots(s[1..])
  }

  function CharValues(s: string): (vs: seq<int>)
    ensures |vs| == |s| && forall i :: 0 <= i < |s| ==> vs[i] == CharValue(s[i])
  {
    seq(|s|, i requires 0 <= i < |s| => CharValue(s[i]))
  }

  /** The codes `show_help` writes: H, E, L, P in the chip's Code B font. */
  const HELP: seq<int> := [12, 11, 13, 14]

  /** After `i` rounds of `set_digit`'s loop, rows below `i` of the digit's column
      hold the low bits of the value and every other pixel is as before. */
  lemma {:induction false} WriteRowsPixel(buf: seq<byte>, n: nat, col: int, value: int, i: nat, x: int, y: int)
    requires IsDigitBuffer(buf, n) && i <= 4 && FrameBuffer.InBounds(n, 8, x, y)
    ensures Lit(WriteRows(buf, n, col, value, i), n, x, y)
         == if x == col && y < i then IntBit(value, y) else Lit(buf, n, x, y)
  {
    if i > 0 {
      WriteRowsPixel(buf, n, col, value, i - 1, x, y);
      FrameBuffer.PlotPixel(WriteRows(buf, n, col, value, i - 1), n, 8, col, i - 1, IntBit(value, i - 1), x, y);
    }
  }

  /** The four rounds of `set_digit`'s loop on a column of the display leave the value
      modulo 16 in its rows 0 .. 3 and its decimal point as it was. */
  lemma RowsReadback(buf: seq<byte>, n: nat, col: int, value: int)
    requires IsDigitBuffer(buf, n) && 0 <= col < n
    ensures DigitAt(WriteRows(buf, n, col, value, 4), n, col) == value % 16
    ensures Lit(WriteRows(buf, n, col, value, 4), n, col, 7) == Lit(buf, n, col, 7)
  {
    WriteRowsPixel(buf, n, col, value, 4, col, 0);
    WriteRowsPixel(buf, n, col, value, 4, col, 1);
    WriteRowsPixel(buf, n, col, value, 4, col, 2);
    WriteRowsPixel(buf, n, col, value, 4, col, 3);
    WriteRowsPixel(buf, n, col, value, 4, col, 7);
    NibbleOfInt(value);
  }

  /** `set_digit` on a position of the display shows the value modulo 16 there and
      leaves its decimal point alone; a position off the display changes nothing. */
  lemma DigitReadback(buf: seq<byte>, n: nat, dpos: int, value: int)
    requires IsDigitBuffer(buf, n)
    ensures 0 <= dpos < n ==> DigitAt(DigitWritten(buf, n, dpos, value), n, Column(n, dpos)) == value % 16
    ensures 0 <= dpos < n ==>
              Lit(DigitWritten(buf, n, dpos, value), n, Column(n, dpos), 7) == Lit(buf, n, Column(n, dpos), 7)
    ensures !(0 <= dpos < n) ==> DigitWritten(buf, n, dpos, value) == buf
  {
    if 0 <= dpos < n {
      RowsReadback(buf, n, Column(n, dpos), value);
    } else {
      OffDisplayRows(buf, n, Column(n, dpos), value, 4);
    }
  }

  lemma {:induction false} OffDisplayRows(buf: seq<byte>, n: nat, col: int, value: int, i: nat)
    requires IsDigitBuffer(buf, n) && i <= 4 && !(0 <= col < n)
    ensures WriteRows(buf, n, col, value, i) == buf
  {
    if i > 0 {
      OffDisplayRows(buf, n, col, value, i - 1);
    }
  }

  /** `set_digits(start, values)` puts bit y of `values[k]` in row y < 4 of the column
      of position `start + k`, and leaves every other pixel as it was. */
  lemma {:induction false} DigitsWrittenPixel(buf: seq<byte>, n: nat, start: int, values: seq<int>, x: int, y: int)
    requires IsDigitBuffer(buf, n) && FrameBuffer.InBounds(n, 8, x, y)
    ensures Lit(DigitsWritten(buf, n, start, values), n, x, y)
         == if y < 4 && start <= Column(n, x) < start + |values| then IntBit(values[Column(n, x) - start], y)
            else Lit(buf, n, x, y)
    decreases |values|
  {
    if values != [] {
      var next := DigitWritten(buf, n, start, values[0]);
      DigitsWrittenPixel(next, n, start + 1, values[1..], x, y);
      WriteRowsPixel(buf, n, Column(n, start), values[0], 4, x, y);
    }
  }

  /** Reading the display back after `set_digits`: position `start + k` shows
      `values[k]` modulo 16. */
  lemma DigitsReadback(buf: seq<byte>, n: nat, start: int, values: seq<int>, k: nat)
    requires IsDigitBuffer(buf, n) && k < |values| && 0 <= start + k < n
    ensures DigitAt(DigitsWritten(buf, n, start, values), n, Column(n, start + k)) == values[k] % 16
  {
    var col := Column(n, start + k);
    DigitsWrittenPixel(buf, n, start, values, col, 0);
    DigitsWrittenPixel(buf, n, start, values, col, 1);
    DigitsWrittenPixel(buf, n, start, values, col, 2);
    DigitsWrittenPixel(buf, n, start, values, col, 3);
    NibbleOfInt(values[k]);
  }

  /** `show_dot` changes at most row 7 of the digit's column, and only for a position
      on the display. */
  lemma DotPixel(buf: seq<byte>, n: nat, dpos: int, on: bool, x: int, y: int)
    requires IsDigitBuffer(buf, n) && FrameBuffer.InBounds(n, 8, x, y)
    ensures Lit(DotWritten(buf, n, dpos, on), n, x, y)
         == if 0 <= dpos < n && x == Column(n, dpos) && y == 7 then on else Lit(buf, n, x, y)
  {
    if 0 <= dpos < n {
      FrameBuffer.PlotPixel(buf, n, 8, Column(n, dpos), 7, on, x, y);
    }
  }

  /** After `clear_all` the segments of every digit are lit, which blanks them in
      decode mode, and every decimal point is off. */
  lemma ClearedPixel(n: nat, x: int, y: int)
    requires FrameBuffer.InBounds(n, 8, x, y)
    ensures Lit(Cleared(n), n, x, y) == (y != 7)
  {
    FrameBuffer.IndexInRange(Cleared(n), n, 8, x, y);
    assert Cleared(n)[FrameBuffer.Index(n, x, y)] == 0x7F;
    assert Bit(0x7F, y) == (y != 7) by {
      match y
      case 0 => case 1 => case 2 => case 3 => case 4 => case 5 => case 6 => case _ =>
    }
  }

  /** The decode-mode byte fits in the command's data byte exactly when there are at
      most eight digits. */
  lemma {:induction false} DecodeModeFits(n: nat)
    ensures IsByte(DecodeMode(n)) <==> n <= 8
  {
    assert Pow(2, 8) == 256;
    if n < 8 {
      PowGrows(n, 8);
    } else if n > 8 {
      PowGrows(8, n);
    }
  }

  lemma {:induction false} PowGrows(m: nat, n: nat)
    requires m < n
    ensures Pow(2, m) < Pow(2, n)
    decreases n
  {
    if m < n - 1 {
      PowGrows(m, n - 1);
    }
  }

  /** Step `i` of `show_str`'s plan belongs to character `i`, and the cursor there is
      `cpos` plus the number of non-'.' characters before it. */
  lemma {:induction false} PlanAt(cpos: int, s: string, i: nat)
    requires i < |s|
    ensures |Plan(cpos, s)| == |s|
    ensures Plan(cpos, s)[i] == if s[i] == '.' then Dot(cpos + NonDots(s[..i]) - 1)
                                else Digit(cpos + NonDots(s[..i]), CharValue(s[i]))
    decreases |s|
  {
    var next := if s[0] == '.' then cpos else cpos + 1;
    if |s| > 1 {
      PlanAt(next, s[1..], if i > 0 then i - 1 else 0);
    } else {
      PlanLength(next, s[1..]);
    }
    if i > 0 {
      assert s[..i][1..] == s[1..][..i - 1];
      assert s[1..][i - 1] == s[i];
    }
  }

  lemma {:induction false} PlanLength(cpos: int, s: string)
    ensures |Plan(cpos, s)| == |s|
    decreases |s|
  {
    if s != [] {
      PlanLength(if s[0] == '.' then cpos else cpos + 1, s[1..]);
    }
  }

  /** A string with no '.' is shown exactly as `set_digits` of its character codes. */
  lemma {:induction false} DigitStringIsSetDigits(buf: seq<byte>, n: nat, start: int, s: string)
    requires IsDigitBuffer(buf, n) && forall i :: 0 <= i < |s| ==> s[i] != '.'
    ensures Run(buf, n, Plan(start, s)) == DigitsWritten(buf, n, start, CharValues(s))
    decreases |s|
  {
    if s != [] {
      assert CharValues(s)[1..] == CharValues(s[1..]);
      DigitStringIsSetDigits(DigitWritten(buf, n, start, CharValue(s[0])), n, start + 1, s[1..]);
    }
  }

  /** A '.' at the very start of a string shown from position 0 has no digit before
      it, and `show_dot`'s range check drops it. */
  lemma LeadingDotIgnored(buf: seq<byte>, n: nat, s: string)
    requires IsDigitBuffer(buf, n)
    ensures Run(buf, n, Plan(0, ['.'] + s)) == Run(buf, n, Plan(0, s))
  {
    assert (['.'] + s)[1..] == s;
    assert Plan(0, ['.'] + s) == [Dot(-1)] + Plan(0, s);
    assert ([Dot(-1)] + Plan(0, s))[1..] == Plan(0, s);
  }

  /** `BCDDigits`: an `nDigits`-wide, 8-high display in BCD decode mode. */
  class BcdDigits {
    const nDigits: nat
    const dev: Driver.Max7219

    ghost predicate Valid()
      reads this, dev
    {
      dev.Valid() && dev.width == nDigits && dev.height == 8
    }

    /** Allocates the `nDigits`-byte buffer; `init_display` is `InitDisplay`. */
    constructor (nDigits: nat)
      ensures Valid() && this.nDigits == nDigits && fresh(dev) && fresh(dev.buffer)
      ensures dev.sent == [] && dev.buffer[..] == FrameBuffer.Filled(nDigits, false)
    {
      this.nDigits := nDigits;
      dev := new Driver.Max7219(nDigits, 8);
    }

    /** `init_display`: the power-on sequence with one decode bit per digit, then
        `clear_all` and `show`. More than eight digits make the decode byte too big
        for `bytearray`, which raises ValueError after three commands; fewer than
        eight leave `show` short of rows, and it raises IndexError. */
    method InitDisplay() returns (r: Outcome)
      requires Valid()
      modifies dev, dev.buffer
      ensures Valid()
      ensures r == if nDigits > 8 then Fail(ValueError) else if nDigits < 8 then Fail(IndexError) else Pass
      ensures dev.sent == old(dev.sent)
                          + Registers.Frames(Registers.Accepted(Registers.InitCommands(DecodeMode(nDigits))))
                          + (if nDigits <= 8 then Registers.Frames(Registers.RowCommands(Cleared(nDigits))) else [])
      ensures dev.buffer[..] == if nDigits <= 8 then Cleared(nDigits) else old(dev.buffer[..])
    {
      var cs := Registers.InitCommands(DecodeMode(nDigits));
      DecodeModeFits(nDigits);
      assert Registers.AllSendable(cs) <==> Registers.Sendable(cs[3]);
      r := dev.WriteCommands(cs);
      if r.Fail? {
        return;
      }
      ClearAll();
      r := dev.Show();
    }

    /** `set_digit(dpos, value)`: bit i of `value` (`value & 1` after i shifts) into
        row i of the digit's column, for i = 0 .. 3. */
    method SetDigit(dpos: int, value: int)
      requires Valid()
      modifies dev.buffer
      ensures dev.buffer[..] == DigitWritten(old(dev.buffer[..]), nDigits, dpos, value)
    {
      var col := nDigits - dpos - 1;
      var v := value;
      for i := 0 to 4
        invariant v == Shifted(value, i)
        invariant dev.buffer[..] == WriteRows(old(dev.buffer[..]), nDigits, col, value, i)
      {
        dev.Pixel(col, i, Some(v % 2));
        v := v / 2;
      }
    }

    /** `set_digits(start, values)`. */
    method SetDigits(start: int, values: seq<int>)
      requires Valid()
      modifies dev.buffer
      ensures dev.buffer[..] == DigitsWritten(old(dev.buffer[..]), nDigits, start, values)
    {
      var pos := start;
      for k := 0 to |values|
        invariant pos == start + k
        invariant DigitsWritten(dev.buffer[..], nDigits, pos, values[k..])
               == DigitsWritten(old(dev.buffer[..]), nDigits, start, values)
      {
        assert values[k..][1..] == values[k + 1..];
        SetDigit(pos, values[k]);
        pos := pos + 1;
      }
    }

    /** `show_dot(dpos, bit_value)`. */
    method ShowDot(dpos: int, bitValue: Option<int>)
      requires Valid()
      modifies dev.buffer
      ensures dev.buffer[..] == DotWritten(old(dev.buffer[..]), nDigits, dpos, Driver.Truthy(bitValue))
    {
      if 0 <= dpos < nDigits {
        dev.Pixel(nDigits - dpos - 1, 7, bitValue);
      }
    }

    /** `clear_all`: fill with 1, then clear the decimal point of every position. */
    method ClearAll()
      requires Valid()
      modifies dev.buffer
      ensures dev.buffer[..] == Cleared(nDigits)
    {
      dev.Fill(1);
      for i := 0 to nDigits
        invariant dev.buffer[..] == seq(nDigits, j => if j >= nDigits - i then 0x7F else 0xFF)
      {
        ghost var before := dev.buffer[..];
        ShowDot(i, None);
        assert WithBit(0xFF, 7, false) == 0x7F;
        assert dev.buffer[..] == before[nDigits - i - 1 := 0x7F];
      }
    }

    /** `show_str(start, strg)`: follows the plan of the string from cursor `start`. */
    method ShowStr(start: int, s: string)
      requires Valid()
      modifies dev.buffer
      ensures dev.buffer[..] == Run(old(dev.buffer[..]), nDigits, Plan(start, s))
    {
      var cpos := start;
      for k := 0 to |s|
        invariant Run(dev.buffer[..], nDigits, Plan(cpos, s[k..]))
               == Run(old(dev.buffer[..]), nDigits, Plan(start, s))
      {
        assert s[k..][0] == s[k] && s[k..][1..] == s[k + 1..];
        var value := 15;
        var c := s[k];
        if '0' <= c <= '9' {
          value := c as int - '0' as int;
        } else if c == '-' {
          value := 10;
        } else if c == '.' {
          ShowDot(cpos - 1, Some(1));
          continue;
        }
        SetDigit(cpos, value);
        cpos := cpos + 1;
      }
    }

    /** `show_help(start)`: the word HELP from position `start`. */
    method ShowHelp(start: int)
      requires Valid()
      modifies dev.buffer
      ensures dev.buffer[..] == DigitsWritten(old(dev.buffer[..]), nDigits, start, HELP)
    {
      SetDigits(start, HELP);
    }
  }
}
