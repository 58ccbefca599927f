/** The MAX7219's register protocol as the drivers use it: the register
    addresses, the power-on command sequence, the row writes of `show`, the two
    bytes each command travels as, and the chip's register file that those
    bytes land in. */
module Registers {
  import opened Bits

  const NOOP := 0
  const DIGIT0 := 1
  const DECODEMODE := 9
  const INTENSITY := 10
  const SCANLIMIT := 11
  const SHUTDOWN := 12
  const DISPLAYTEST := 15

  /** A command as the drivers hand it over: register address, then data. */
  type Command = (int, int)

  /** `bytearray([cmd, data])` accepts the command: both parts are bytes. */
  predicate Sendable(c: Command)
  {
    IsByte(c.0) && IsByte(c.1)
  }

  predicate AllSendable(cs: seq<Command>)
  {
    forall i :: 0 <= i < |cs| ==> Sendable(cs[i])
  }

  /** The bytes one command travels as: the address byte, then the data byte. */
  function Frame(c: Command): seq<byte>
    requires Sendable(c)
  {
    [c.0 as byte, c.1 as byte]
  }

  /** One two-byte transaction per command, in order. */
  function Frames(cs: seq<Command>): (fs: seq<seq<byte>>)
    requires AllSendable(cs)
    ensures |fs| == |cs| && AllFrames(fs)
  {
    seq(|cs|, i requires 0 <= i < |cs| => Frame(cs[i]))
  }

  /** The commands a write loop gets through before the first one that raises. */
  function Accepted(cs: seq<Command>): (p: seq<Command>)
    ensures |p| <= |cs| && p == cs[..|p|]
    ensures AllSendable(p)
    ensures |p| < |cs| ==> !Sendable(cs[|p|])
  {
    if cs == [] || !Sendable(cs[0]) then [] else [cs[0]] + Accepted(cs[1..])
  }

  /** The power-on sequence: shut down, leave display test, scan all eight digits,
      set the decode mode, start up. */
  function InitCommands(decodeMode: int): (cs: seq<Command>)
    ensures |cs| == 5 && cs[0] == (SHUTDOWN, 0) && cs[4] == (SHUTDOWN, 1)
    ensures AllSendable(cs) <==> IsByte(decodeMode)
    ensures Accepted(cs) == if IsByte(decodeMode) then cs else cs[..3]
  {
    var cs := [(SHUTDOWN, 0), (DISPLAYTEST, 0), (SCANLIMIT, 7), (DECODEMODE, decodeMode), (SHUTDOWN, 1)];
    assert AllSendable(cs) ==> Sendable(cs[3]);
    cs
  }

  function Min(a: int, b: int): int
  {
    if a < b then a else b
  }

  /** `show`: row register DIGIT0 + y gets buffer byte y, for y = 0, 1, ... as far as
      eight or the end of the buffer, whichever comes first. */
  function RowCommands(rows: seq<byte>): (cs: seq<Command>)
    ensures AllSendable(cs)
  {
    seq(Min(8, |rows|), y requires 0 <= y < Min(8, |rows|) => (DIGIT0 + y, rows[y] as int))
  }

  /** The chip's sixteen registers; a command byte addresses the register named by
      its low four bits. */
  predicate IsRegisterFile(regs: seq<byte>)
  {
    |regs| == 16
  }

  predicate AllFrames(fs: seq<seq<byte>>)
  {
    forall i :: 0 <= i < |fs| ==> |fs[i]| == 2
  }

  function Address(frame: seq<byte>): nat
    requires |frame| == 2
  {
    (frame[0] & 0x0F) as nat
  }

  function Apply(regs: seq<byte>, frame: seq<byte>): (r: seq<byte>)
    requires IsRegisterFile(regs) && |frame| == 2
    ensures IsRegisterFile(r)
  {
    regs[Address(frame) := frame[1]]
  }

  /** The register file after the frames have been latched one after another. */
  function Latch(regs: seq<byte>, fs: seq<seq<byte>>): (r: seq<byte>)
    requires IsRegisterFile(regs) && AllFrames(fs)
    ensures IsRegisterFile(r)
  {
    if fs == [] then regs else Apply(Latch(regs, fs[..|fs| - 1]), fs[|fs| - 1])
  }

  /** Latching one more frame applies it to the registers latched so far. */
  lemma LatchSnoc(regs: seq<byte>, fs: seq<seq<byte>>, f: seq<byte>)
    requires IsRegisterFile(regs) && AllFrames(fs) && |f| == 2
    ensures AllFrames(fs + [f])
    ensures Latch(regs, fs + [f]) == Apply(Latch(regs, fs), f)
  {
    assert (fs + [f])[..|fs|] == fs;
  }

  /** Latching two runs of frames is latching the first run, then the second. */
  lemma {:induction false} LatchAppend(regs: seq<byte>, a: seq<seq<byte>>, b: seq<seq<byte>>)
    requires IsRegisterFile(regs) && AllFrames(a) && AllFrames(b)
    ensures AllFrames(a + b)
    ensures Latch(regs, a + b) == Latch(Latch(regs, a), b)
  {
    if b != [] {
      var b' := b[..|b| - 1];
      assert (a + b)[..|a + b| - 1] == a + b';
      LatchAppend(regs, a, b');
    } else {
      assert a + b == a;
    }
  }

  /** After `show`'s writes, register DIGIT0 + y holds buffer byte y for each of the
      first eight bytes, and the other registers hold what they held before. */
  lemma ShowLatchesRows(regs: seq<byte>, rows: seq<byte>)
    requires IsRegisterFile(regs) && |rows| >= 8
    ensures AllFrames(Frames(RowCommands(rows)))
    ensures forall r :: 0 <= r < 16 ==>
      Latch(regs, Frames(RowCommands(rows)))[r] == if 1 <= r <= 8 then rows[r - 1] else regs[r]
  {
    var fs := Frames(RowCommands(rows));
    forall i | 0 <= i < |fs|
      ensures fs[i] == [(i + 1) as byte, rows[i]]
    {
    }
    RowPrefixLatches(regs, rows, fs, 8);
    assert fs[..8] == fs;
  }

  /** The first j row writes fill row registers 1 .. j and leave the rest alone. */
  lemma {:induction false} RowPrefixLatches(regs: seq<byte>, rows: seq<byte>, fs: seq<seq<byte>>, j: nat)
    requires IsRegisterFile(regs) && |rows| >= 8 && |fs| == 8 && j <= 8
    requires forall i :: 0 <= i < 8 ==> fs[i] == [(i + 1) as byte, rows[i]]
    ensures AllFrames(fs[..j])
    ensures forall r :: 0 <= r < 16 ==>
      Latch(regs, fs[..j])[r] == if 1 <= r <= j then rows[r - 1] else regs[r]
  {
    if j > 0 {
      RowPrefixLatches(regs, rows, fs, j - 1);
      var prefix := fs[..j];
      assert prefix[..j - 1] == fs[..j - 1];
      var before := Latch(regs, fs[..j - 1]);
      var f := prefix[j - 1];
      RowAddress(j, rows[j - 1]);
      var after := Latch(regs, prefix);
      assert after == before[j := rows[j - 1]];
    }
  }

  /** Row register DIGIT0 + y is addressed by its own number. */
  lemma RowAddress(j: nat, b: byte)
    requires 1 <= j <= 8
    ensures Address([j as byte, b]) == j
  {
    assert j as byte & 0x0F == j as byte;
  }

  /** Showing an unchanged buffer twice leaves the chip as showing it once. */
  lemma ShowIdempotent(regs: seq<byte>, rows: seq<byte>)
    requires IsRegisterFile(regs) && |rows| >= 8
    ensures AllFrames(Frames(RowCommands(rows)))
    ensures var fs := Frames(RowCommands(rows));
      Latch(regs, fs + fs) == Latch(regs, fs)
  {
    var fs := Frames(RowCommands(rows));
    ShowLatchesRows(regs, rows);
    var once := Latch(regs, fs);
    ShowLatchesRows(once, rows);
    LatchAppend(regs, fs, fs);
    assert Latch(once, fs) == once;
  }

  /** The power-on sequence leaves the chip running (shutdown register 1), out of
      display test, scanning all eight digits, in the requested decode mode, with
      every other register as it was. */
  lemma InitLatches(regs: seq<byte>, decodeMode: int)
    requires IsRegisterFile(regs) && IsByte(decodeMode)
    ensures AllSendable(InitCommands(decodeMode))
    ensures AllFrames(Frames(InitCommands(decodeMode)))
    ensures forall r :: 0 <= r < 16 ==>
      Latch(regs, Frames(InitCommands(decodeMode)))[r] ==
        (if r == SHUTDOWN then 1
         else if r == DISPLAYTEST then 0
         else if r == SCANLIMIT then 7
         else if r == DECODEMODE then decodeMode as byte
         else regs[r])
  {
    var d := decodeMode as byte;
    InitFrames(decodeMode);
    var f0, f1, f2, f3, f4: seq<byte> := [12, 0], [15, 0], [11, 7], [9, d], [12, 1];
    LatchSnoc(regs, [], f0);
    assert [f0, f1] == [f0] + [f1];
    LatchSnoc(regs, [f0], f1);
    assert [f0, f1, f2] == [f0, f1] + [f2];
    LatchSnoc(regs, [f0, f1], f2);
    assert [f0, f1, f2, f3] == [f0, f1, f2] + [f3];
    LatchSnoc(regs, [f0, f1, f2], f3);
    assert [f0, f1, f2, f3, f4] == [f0, f1, f2, f3] + [f4];
    LatchSnoc(regs, [f0, f1, f2, f3], f4);
  }

  /** The five frames of the power-on sequence. */
  lemma InitFrames(decodeMode: int)
    requires IsByte(decodeMode)
    ensures AllSendable(InitCommands(decodeMode))
    ensures Frames(InitCommands(decodeMode)) == [[12, 0], [15, 0], [11, 7], [9, decodeMode as byte], [12, 1]]
  {
    var fs := Frames(InitCommands(decodeMode));
    var cs := InitCommands(decodeMode);
    assert fs[0] == Frame(cs[0]);
    assert fs[1] == Frame(cs[1]);
    assert fs[2] == Frame(cs[2]);
    assert fs[3] == Frame(cs[3]);
    assert fs[4] == Frame(cs[4]);
  }
}
