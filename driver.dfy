/** The driver base class of adafruit_max7219/max7219.py: a byte buffer drawn into
    through a one-bit frame buffer, and the two-byte command writes to the chip. */
module Driver {
  import opened Bits
  import opened Failures
  import Registers
  import FrameBuffer

  /** Python truthiness of an optional integer argument: `None` and 0 are false. */
  function Truthy(v: Option<int>): bool
  {
    v.Some? && v.value != 0
  }

  /** `MAX7219`: a width × height display. The chip-select pin and the SPI device are
      represented by the record of what was written through them. */
  class Max7219 {
    const width: nat
    const height: nat
    /** `_buffer`: allocated by the constructor and never resized. */
    const buffer: array<byte>
    /** The two-byte transactions written to the SPI device, oldest first. */
    var sent: seq<seq<byte>>

    ghost predicate Valid()
      reads this
    {
      height % 8 == 0 && buffer.Length == (height / 8) * width
    }

    /** Pixel (x, y) of the frame buffer. */
    function Lit(x: int, y: int): bool
      requires Valid() && FrameBuffer.InBounds(width, height, x, y)
      reads this, buffer
    {
      FrameBuffer.Pixel(buffer[..], width, height, x, y)
    }

    /** Allocates the zeroed buffer of `(height // 8) * width` bytes. The Python
        constructor then calls `init_display`, which the base class leaves empty and
        each display class models as its own `InitDisplay`. */
    constructor (width: nat, height: nat)
      requires height % 8 == 0
      ensures Valid() && this.width == width && this.height == height
      ensures fresh(buffer) && buffer[..] == FrameBuffer.Filled(buffer.Length, false)
      ensures sent == []
    {
      this.width, this.height := width, height;
      buffer := new byte[(height / 8) * width](_ => 0);
      sent := [];
    }

    /** `write_cmd`: one transaction carrying exactly the bytes `[cmd, data]`.
        `bytearray` raises ValueError before anything is sent when either is not a byte. */
    method WriteCmd(cmd: int, data: int) returns (r: Outcome)
      modifies this
      ensures r == if Registers.Sendable((cmd, data)) then Pass else Fail(ValueError)
      ensures sent == if r.Pass? then old(sent) + [Registers.Frame((cmd, data))] else old(sent)
    {
      if !(IsByte(cmd) && IsByte(data)) {
        return Fail(ValueError);
      }
      sent := sent + [[cmd as byte, data as byte]];
      r := Pass;
    }

    /** The `for cmd, data in (...): self.write_cmd(cmd, data)` loop of the display
        classes: writes the commands in order and stops at the first one that raises. */
    method WriteCommands(cs: seq<Registers.Command>) returns (r: Outcome)
      modifies this
      ensures r == if Registers.AllSendable(cs) then Pass else Fail(ValueError)
      ensures sent == old(sent) + Registers.Frames(Registers.Accepted(cs))
    {
      for i := 0 to |cs|
        invariant Registers.AllSendable(cs[..i])
        invariant sent == old(sent) + Registers.Frames(cs[..i])
      {
        r := WriteCmd(cs[i].0, cs[i].1);
        if r.Fail? {
          assert Registers.Accepted(cs) == cs[..i];
          return;
        }
        assert cs[..i + 1] == cs[..i] + [cs[i]];
        assert Registers.Frames(cs[..i + 1]) == Registers.Frames(cs[..i]) + [Registers.Frame(cs[i])];
      }
      assert cs[..|cs|] == cs;
      r := Pass;
    }

    /** `brightness`: a value outside 0..15 raises ValueError and writes nothing;
        otherwise the one command (INTENSITY, value) is written. */
    method Brightness(value: int) returns (r: Outcome)
      modifies this
      ensures r == if 0 <= value <= 15 then Pass else Fail(ValueError)
      ensures sent == if r.Pass? then old(sent) + [Registers.Frame((Registers.INTENSITY, value))] else old(sent)
    {
      if !(0 <= value <= 15) {
        return Fail(ValueError);
      }
      r := WriteCmd(Registers.INTENSITY, value);
    }

    /** `show`: writes (DIGIT0 + y, buffer[y]) for y = 0 .. 7 in that order and leaves
        the buffer alone. A buffer shorter than 8 bytes raises IndexError at the first
        missing byte, after the rows before it have been written. */
    method Show() returns (r: Outcome)
      modifies this
      ensures r == if buffer.Length >= 8 then Pass else Fail(IndexError)
      ensures sent == old(sent) + Registers.Frames(Registers.RowCommands(buffer[..]))
    {
      ghost var rows := Registers.RowCommands(buffer[..]);
      for y := 0 to 8
        invariant y <= buffer.Length
        invariant sent == old(sent) + Registers.Frames(rows[..y])
      {
        if y >= buffer.Length {
          assert rows[..y] == rows;
          return Fail(IndexError);
        }
        var _ := WriteCmd(Registers.DIGIT0 + y, buffer[y] as int);
        assert rows[..y + 1] == rows[..y] + [rows[y]];
        assert Registers.Frames(rows[..y + 1]) == Registers.Frames(rows[..y]) + [Registers.Frame(rows[y])];
      }
      assert rows[..8] == rows;
      r := Pass;
    }

    /** `fill`: every pixel set for a truthy value, cleared otherwise. */
    method Fill(bitValue: int)
      modifies buffer
      ensures buffer[..] == FrameBuffer.Filled(buffer.Length, bitValue != 0)
    {
      var b: byte := if bitValue != 0 then 0xFF else 0x00;
      forall i | 0 <= i < buffer.Length {
        buffer[i] := b;
      }
    }

    /** `pixel`: sets pixel (x, y) to 1 for a truthy value and to 0 for a falsy one or
        `None`; a pixel outside the display is ignored. */
    method Pixel(x: int, y: int, bitValue: Option<int>)
      requires Valid()
      modifies buffer
      ensures buffer[..] == FrameBuffer.Plot(old(buffer[..]), width, height, x, y, Truthy(bitValue))
    {
      var on := Truthy(bitValue);
      if 0 <= x < width && 0 <= y < height {
        FrameBuffer.IndexInRange(buffer[..], width, height, x, y);
        var i := (y / 8) * width + x;
        buffer[i] := WithBit(buffer[i], y % 8, on);
      }
    }
  }
}
