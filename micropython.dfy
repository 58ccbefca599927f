/** max7219.py, the MicroPython driver for one 8x8 matrix. It keeps its own 8-byte
    buffer, byte y being row y and bit x of it column x, and drives the chip-select
    pin itself around every two-byte SPI write. */
module MicroPython {
  import opened Bits
  import opened Failures
  import Registers

  /** What the driver does to the bus: chip-select driven low, bytes written, and
      chip-select driven high. */
  datatype BusEvent = Select | Transfer(bytes: seq<byte>) | Deselect

  /** `_register(command, data)` on the bus. */
  function Transaction(c: Registers.Command): seq<BusEvent>
    requires Registers.Sendable(c)
  {
    [Select, Transfer(Registers.Frame(c)), Deselect]
  }

  /** One transaction per command, in order. */
  function Transactions(cs: seq<Registers.Command>): seq<BusEvent>
    requires Registers.AllSendable(cs)
  {
    if cs == [] then [] else Transactions(cs[..|cs| - 1]) + Transaction(cs[|cs| - 1])
  }

  /** One more command adds its transaction at the end. */
  lemma TransactionsSnoc(cs: seq<Registers.Command>, i: nat)
    requires Registers.AllSendable(cs) && i < |cs|
    ensures Transactions(cs[..i + 1]) == Transactions(cs[..i]) + Transaction(cs[i])
  {
    assert cs[..i + 1][..i] == cs[..i];
  }

  /** The byte strings written on the bus, in order. Every transfer the driver makes
      sits between a select and a deselect (`TransactionsAt`), so these are what the
      chip receives. */
  function Received(events: seq<BusEvent>): seq<seq<byte>>
  {
    if events == [] then []
    else Received(events[..|events| - 1]) + (if events[|events| - 1].Transfer? then [events[|events| - 1].bytes] else [])
  }

  /** Python's index into the 8-byte buffer: a negative row counts from the end. */
  function Row(y: int): int
  {
    if y < 0 then y + 8 else y
  }

  /** `pixel(x, y)`: `bool(buffer[y] & 1 << x)`. The row index is checked first
      (IndexError), then the shift (a negative count is a ValueError); a column past
      the byte reads as off. */
  function Peek(buf: seq<byte>, x: int, y: int): (r: Result<bool>)
    requires |buf| == 8
    ensures r.Ok? <==> -8 <= y < 8 && 0 <= x
    ensures r.Err? ==> r.error == if -8 <= y < 8 then ValueError else IndexError
    ensures r == Ok(true) ==> x < 8
  {
    if !(-8 <= y < 8) then Err(IndexError)
    else if x < 0 then Err(ValueError)
    else Ok(x < 8 && Bit(buf[Row(y)], x))
  }

  /** `pixel(x, y, color)`: `buffer[y] |= 1 << x` for a truthy colour and
      `buffer[y] &= ~(1 << x)` otherwise. The row index is checked first
      (IndexError), then the shift (ValueError). MicroPython's `bytearray` keeps the
      low eight bits of what it stores, so for a column past the byte both updates
      store the byte as it was (`PokeBeyondByte`). */
  function Poke(buf: seq<byte>, x: int, y: int, color: bool): (r: Result<seq<byte>>)
    requires |buf| == 8
    ensures r.Ok? ==> |r.value| == 8
  {
    if !(-8 <= y < 8) then Err(IndexError)
    else if x < 0 then Err(ValueError)
    else if x >= 8 then Ok(buf)
    else Ok(buf[Row(y) := WithBit(buf[Row(y)], x, color)])
  }

  /** Reading a pixel right after writing it gives back the colour written; a column
      past the byte reads back as off whatever was written. */
  lemma PokeThenPeek(buf: seq<byte>, x: int, y: int, color: bool)
    requires |buf| == 8 && Poke(buf, x, y, color).Ok?
    ensures Peek(Poke(buf, x, y, color).value, x, y) == Ok(x < 8 && color)
  {
  }

  /** Writing a pixel leaves every other pixel of the buffer as it was. */
  lemma PokeFrame(buf: seq<byte>, x: int, y: int, color: bool, x': int, y': int)
    requires |buf| == 8 && Poke(buf, x, y, color).Ok?
    requires -8 <= y' < 8 && 0 <= x' && (x' != x || Row(y') != Row(y))
    ensures Peek(Poke(buf, x, y, color).value, x', y') == Peek(buf, x', y')
  {
    var r := Poke(buf, x, y, color).value;
    if x' < 8 && x < 8 && Row(y') == Row(y) {
      assert r[Row(y')] == WithBit(buf[Row(y)], x, color);
    }
  }

  /** For a column past the byte, the buffer `Poke` gives back is the one the source
      leaves: row `y` holds what the `bytearray` stores for `buffer[y] | (1 << x)` or
      `buffer[y] & ~(1 << x)`, and the other rows are untouched. */
  lemma PokeBeyondByte(buf: seq<byte>, x: int, y: int, color: bool)
    requires |buf| == 8 && -8 <= y < 8 && x >= 8
    ensures var b := buf[Row(y)] as int;
            var stored := Truncated(if color then OrBit(b, x) else AndNotBit(b, x));
            Poke(buf, x, y, color) == Ok(buf[Row(y) := stored as byte])
  {
    HighBitStored(buf[Row(y)] as int, x);
    assert buf[Row(y) := buf[Row(y)]] == buf;
  }

  /** A write is refused exactly for a row off the buffer or a negative column, the
      same inputs a read refuses, with the same error. */
  lemma PokeRefused(buf: seq<byte>, x: int, y: int, color: bool)
    requires |buf| == 8
    ensures Poke(buf, x, y, color).Err? <==> !(-8 <= y < 8) || x < 0
    ensures Poke(buf, x, y, color).Err? <==> Peek(buf, x, y).Err?
    ensures Poke(buf, x, y, color).Err? ==> Poke(buf, x, y, color).error == Peek(buf, x, y).error
  {
  }

  /** The transactions of `cs` are `3 * |cs|` events; those of command k are chip
      select, its two bytes, chip deselect, at 3k, 3k + 1 and 3k + 2. */
  lemma {:induction false} TransactionsAt(cs: seq<Registers.Command>, k: nat)
    requires Registers.AllSendable(cs) && k < |cs|
    ensures |Transactions(cs)| == 3 * |cs|
    ensures Transactions(cs)[3 * k] == Select
    ensures Transactions(cs)[3 * k + 1] == Transfer(Registers.Frame(cs[k]))
    ensures Transactions(cs)[3 * k + 2] == Deselect
  {
    var init := cs[..|cs| - 1];
    if k < |cs| - 1 {
      TransactionsAt(init, k);
    } else if |cs| > 1 {
      TransactionsAt(init, 0);
    }
  }

  lemma {:induction false} ReceivedAppend(a: seq<BusEvent>, b: seq<BusEvent>)
    ensures Received(a + b) == Received(a) + Received(b)
    decreases |b|
  {
    if b != [] {
      var ab, b' := a + b, b[..|b| - 1];
      ReceivedAppend(a, b');
      assert ab[..|ab| - 1] == a + b';
      assert ab[|ab| - 1] == b[|b| - 1];
      assert Received(ab) == Received(a + b') + Received([b[|b| - 1]]);
      assert Received(b) == Received(b') + Received([b[|b| - 1]]);
    } else {
      assert a + b == a;
    }
  }

  /** The chip receives exactly the two-byte frames of the commands, in order: the
      same writes the package's `write_cmd` makes. */
  lemma {:induction false} ReceivedTransactions(cs: seq<Registers.Command>)
    requires Registers.AllSendable(cs)
    ensures Received(Transactions(cs)) == Registers.Frames(cs)
  {
    if cs != [] {
      var init := cs[..|cs| - 1];
      ReceivedTransactions(init);
      ReceivedAppend(Transactions(init), Transaction(cs[|cs| - 1]));
      assert Received(Transaction(cs[|cs| - 1])) == [Registers.Frame(cs[|cs| - 1])] by {
        var f := Registers.Frame(cs[|cs| - 1]);
        assert Transaction(cs[|cs| - 1])[..2] == [Select, Transfer(f)];
        assert [Select, Transfer(f)][..1] == [Select];
        assert [Select][..0] == [];
      }
    }
  }

  /** `Matrix8x8` of max7219.py. */
  class Matrix8x8 {
    /** The level of the chip-select pin: true is high, the chip deselected. */
    var csHigh: bool
    /** Everything done to the bus, oldest first. */
    var bus: seq<BusEvent>
    const buffer: array<byte>

    ghost predicate Valid()
      reads this
    {
      buffer.Length == 8
    }

    /** `__init__`: chip-select an output driven high, a zeroed 8-byte buffer, then
        `init`. */
    constructor ()
      ensures Valid() && fresh(buffer) && buffer[..] == seq(8, _ => 0)
      ensures csHigh && bus == Transactions(Registers.InitCommands(0))
    {
      csHigh := true;
      bus := [];
      buffer := new byte[8](_ => 0);
      new;
      Init();
    }

    /** `_register`: chip-select low, the two bytes, chip-select high. */
    method Register(command: int, data: int)
      requires Registers.Sendable((command, data))
      modifies this
      ensures csHigh && bus == old(bus) + Transaction((command, data))
    {
      csHigh := false;
      bus := bus + [Select];
      bus := bus + [Transfer([command as byte, data as byte])];
      csHigh := true;
      bus := bus + [Deselect];
    }

    /** The command loops of `init` and `show`. */
    method RegisterAll(cs: seq<Registers.Command>)
      requires Registers.AllSendable(cs)
      modifies this
      ensures bus == old(bus) + Transactions(cs)
      ensures csHigh == (cs != [] || old(csHigh))
    {
      for i := 0 to |cs|
        invariant bus == old(bus) + Transactions(cs[..i])
        invariant csHigh == (i > 0 || old(csHigh))
      {
        Register(cs[i].0, cs[i].1);
        TransactionsSnoc(cs, i);
      }
      assert cs[..|cs|] == cs;
    }

    /** `init`: the power-on sequence with decode mode 0. */
    method Init()
      modifies this
      ensures csHigh && bus == old(bus) + Transactions(Registers.InitCommands(0))
    {
      RegisterAll(Registers.InitCommands(0));
    }

    /** `brightness`: outside 0 .. 15 raises ValueError and touches nothing; otherwise
        one INTENSITY transaction. */
    method Brightness(value: int) returns (r: Outcome)
      modifies this
      ensures r == if 0 <= value <= 15 then Pass else Fail(ValueError)
      ensures bus == if r.Pass? then old(bus) + Transaction((Registers.INTENSITY, value)) else old(bus)
      ensures csHigh == (r.Pass? || old(csHigh))
    {
      if !(0 <= value <= 15) {
        return Fail(ValueError);
      }
      Register(Registers.INTENSITY, value);
      r := Pass;
    }

    /** `fill(color)`: all eight bytes 0xFF for a truthy colour, 0x00 otherwise. */
    method Fill(color: bool)
      requires Valid()
      modifies buffer
      ensures buffer[..] == seq(8, _ => if color then 0xFF else 0x00)
    {
      var data: byte := if color then 0xFF else 0x00;
      for y := 0 to 8
        invariant forall j :: 0 <= j < y ==> buffer[j] == data
      {
        buffer[y] := data;
      }
    }

    /** `pixel(x, y)` without a colour: reads the pixel. */
    method GetPixel(x: int, y: int) returns (r: Result<bool>)
      requires Valid()
      ensures r == Peek(buffer[..], x, y)
    {
      if !(-8 <= y < 8) {
        return Err(IndexError);
      }
      var row := buffer[if y < 0 then y + 8 else y];
      if x < 0 {
        return Err(ValueError);
      }
      r := Ok(x < 8 && row & Mask(x) != 0);
    }

    /** `pixel(x, y, color)` with a colour: sets or clears the one bit. */
    method SetPixel(x: int, y: int, color: bool) returns (r: Outcome)
      requires Valid()
      modifies buffer
      ensures r == if Poke(old(buffer[..]), x, y, color).Ok? then Pass else Fail(Poke(old(buffer[..]), x, y, color).error)
      ensures buffer[..] == if r.Pass? then Poke(old(buffer[..]), x, y, color).value else old(buffer[..])
    {
      if !(-8 <= y < 8) {
        return Fail(IndexError);
      }
      if x < 0 {
        return Fail(ValueError);
      }
      var i := if y < 0 then y + 8 else y;
      if x >= 8 {
        return Pass;
      }
      UpdateRow(i, x, color);
      r := Pass;
    }

    /** The in-place update of `pixel`: `|=` the bit's mask for a truthy colour, `&=`
        its complement otherwise. */
    method UpdateRow(i: nat, x: nat, color: bool)
      requires Valid() && i < 8 && x < 8
      modifies buffer
      ensures buffer[..] == old(buffer[..])[i := WithBit(old(buffer[i]), x, color)]
    {
      MaskUpdates(buffer[i], x);
      if color {
        buffer[i] := buffer[i] | Mask(x);
      } else {
        buffer[i] := buffer[i] & !Mask(x);
      }
    }

    /** `show`: one transaction (DIGIT0 + y, buffer[y]) per row, rows in order. */
    method Show()
      requires Valid()
      modifies this
      ensures csHigh && bus == old(bus) + Transactions(Registers.RowCommands(buffer[..]))
    {
      ghost var rows := Registers.RowCommands(buffer[..]);
      for y := 0 to 8
        invariant bus == old(bus) + Transactions(rows[..y])
        invariant csHigh == (y > 0 || old(csHigh))
      {
        assert rows[y] == (Registers.DIGIT0 + y, buffer[y] as int);
        Register(Registers.DIGIT0 + y, buffer[y] as int);
        TransactionsSnoc(rows, y);
      }
      assert rows[..8] == rows;
    }
  }
}
