/** Bytes, bits of bytes, bits of Python integers, and the division facts the
    proofs about them rest on. */
module Bits {

  type byte = bv8

  /** What `bytearray` accepts as one element. */
  predicate IsByte(n: int)
  {
    0 <= n < 256
  }

  /** `1 << k` for a bit position of a byte. */
  function Mask(k: nat): (m: byte)
    requires k < 8
    ensures m != 0
  {
    match k
    case 0 => 0x01 case 1 => 0x02 case 2 => 0x04 case 3 => 0x08
    case 4 => 0x10 case 5 => 0x20 case 6 => 0x40 case _ => 0x80
  }

  /** Bit `k` of `b`, bit 0 being the least significant. */
  function Bit(b: byte, k: nat): bool
    requires k < 8
  {
    b & Mask(k) != 0
  }

  /** `(b & ~(1 << k)) | (on << k)`: bit `k` of `b` replaced by `on`. */
  function WithBit(b: byte, k: nat, on: bool): (r: byte)
    requires k < 8
    ensures Bit(r, k) == on
    ensures forall j :: 0 <= j < 8 && j != k ==> Bit(r, j) == Bit(b, j)
  {
    var r := (b & !Mask(k)) | (if on then Mask(k) else 0);
    MaskedBitSame(b, k, on);
    forall j | 0 <= j < 8 && j != k ensures Bit(r, j) == Bit(b, j) {
      MaskedBitOther(b, k, on, j);
    }
    r
  }

  /** `b | (1 << k)` sets bit `k` and `b & ~(1 << k)` clears it. */
  lemma MaskUpdates(b: byte, k: nat)
    requires k < 8
    ensures b | Mask(k) == WithBit(b, k, true)
    ensures b & !Mask(k) == WithBit(b, k, false)
  {
  }

  lemma MaskedBitSame(b: byte, k: nat, on: bool)
    requires k < 8
    ensures Bit((b & !Mask(k)) | (if on then Mask(k) else 0), k) == on
  {
    MaskSet(b, Mask(k), on);
  }

  lemma MaskedBitOther(b: byte, k: nat, on: bool, j: nat)
    requires k < 8 && j < 8 && j != k
    ensures Bit((b & !Mask(k)) | (if on then Mask(k) else 0), j) == Bit(b, j)
  {
    MasksDisjoint(j, k);
    MaskKeeps(b, Mask(j), Mask(k), on);
  }

  lemma MaskSet(b: byte, m: byte, on: bool)
    requires m != 0
    ensures ((b & !m) | (if on then m else 0)) & m != 0 <==> on
  {
  }

  lemma MaskKeeps(b: byte, other: byte, m: byte, on: bool)
    requires other & m == 0
    ensures ((b & !m) | (if on then m else 0)) & other == b & other
  {
  }

  /** Different bit positions have disjoint masks. */
  lemma MasksDisjoint(j: nat, k: nat)
    requires j < 8 && k < 8 && j != k
    ensures Mask(j) & Mask(k) == 0
  {
    match j
    case 0 => case 1 => case 2 => case 3 => case 4 => case 5 => case 6 => case _ =>
  }

  /** `v >> i` on a Python integer: `i` halvings, each rounding toward minus infinity
      (Dafny's `/` by a positive divisor does the same). */
  function Shifted(v: int, i: nat): int
  {
    if i == 0 then v else Shifted(v, i - 1) / 2
  }

  /** `(v >> i) & 1 != 0`: bit `i` of a Python integer in two's complement. */
  predicate IntBit(v: int, i: nat)
  {
    Shifted(v, i) % 2 == 1
  }

  /** `b ** i`. */
  function Pow(b: nat, i: nat): (r: nat)
    ensures b >= 1 ==> r >= 1
  {
    if i == 0 then 1
    else
      var p := Pow(b, i - 1);
      if b >= 1 then MulAtLeast(b, p); b * p else b * p
  }

  /** `b ** (m + n) == b ** m * b ** n`. */
  lemma {:induction false} PowAdd(b: nat, m: nat, n: nat)
    ensures Pow(b, m + n) == Pow(b, m) * Pow(b, n)
    decreases n
  {
    if n > 0 {
      PowAdd(b, m, n - 1);
      var p, q := Pow(b, m), Pow(b, n - 1);
      assert Pow(b, m + n) == b * (p * q);
      assert b * (p * q) == p * (b * q);
    }
  }

  /** What MicroPython's `bytearray` stores for an integer: its low eight bits, with
      no range check. */
  function Truncated(v: int): (r: int)
    ensures IsByte(r)
    ensures IsByte(v) ==> r == v
  {
    v % 256
  }

  /** Bit `n` of an integer, for `n` at least 8, is outside the byte the store keeps:
      `b | (1 << n)`, which is `b + 2 ** n` for a byte `b`, is stored as `b`. */
  lemma HighBitDropped(b: int, n: nat)
    requires IsByte(b) && n >= 8
    ensures Truncated(b + Pow(2, n)) == b
  {
    var q := Pow(2, n - 8);
    PowAdd(2, 8, n - 8);
    assert Pow(2, 8) == 256;
    DivModUnique(b + Pow(2, n), 256, q, b);
  }

  /** `v | (1 << n)` on a Python integer. */
  function OrBit(v: int, n: nat): int
  {
    if IntBit(v, n) then v else v + Pow(2, n)
  }

  /** `v & ~(1 << n)` on a Python integer. */
  function AndNotBit(v: int, n: nat): int
  {
    if IntBit(v, n) then v - Pow(2, n) else v
  }

  /** For a byte and a bit at 8 or above, both `b | (1 << n)` and `b & ~(1 << n)`
      are stored by the `bytearray` as `b` itself. */
  lemma HighBitStored(b: int, n: nat)
    requires IsByte(b) && n >= 8
    ensures Truncated(OrBit(b, n)) == b
    ensures Truncated(AndNotBit(b, n)) == b
  {
    PowAdd(2, 8, n - 8);
    assert Pow(2, 8) == 256;
    DivModUnique(b, Pow(2, n), 0, b);
    ShiftedIsDiv(b, n);
    assert !IntBit(b, n);
    HighBitDropped(b, n);
  }

  /** `v >> i` is `v // 2 ** i`. */
  lemma {:induction false} ShiftedIsDiv(v: int, i: nat)
    ensures Shifted(v, i) == v / Pow(2, i)
  {
    if i > 0 {
      ShiftedIsDiv(v, i - 1);
      DivDiv(v, Pow(2, i - 1), 2);
    }
  }

  /** The quotient and remainder of a division are the only ones with a remainder in range. */
  lemma DivModUnique(n: int, d: int, q: int, r: int)
    requires 0 < d && 0 <= r < d && n == q * d + r
    ensures n / d == q && n % d == r
  {
    var q', r' := n / d, n % d;
    assert (q - q') * d == r' - r;
    if q > q' {
      MulAtLeast(q - q', d);
    } else if q < q' {
      MulAtLeast(q' - q, d);
    }
  }

  /** `n / d` is `q` exactly when `n` lies in the run `q * d .. q * d + d - 1`. */
  lemma DivRange(n: int, d: int, q: int)
    requires d > 0
    ensures n / d == q <==> q * d <= n < q * d + d
  {
    if q * d <= n < q * d + d {
      DivModUnique(n, d, q, n - q * d);
    }
    if n / d == q {
      var r := n % d;
      assert n == (n / d) * d + r;
    }
  }

  lemma MulAtLeast(a: int, d: int)
    requires a >= 1 && d > 0
    ensures a * d >= d
  {
    assert a * d == (a - 1) * d + d;
  }

  /** Taking `v` modulo `b * p` keeps its last digit in base `b` and the rest modulo `p`. */
  lemma ModSplit(v: int, b: int, p: int)
    requires b > 0 && p > 0
    ensures v % (b * p) == v % b + b * ((v / b) % p)
  {
    var q, r := v / b, v % b;
    var a, c := q / p, q % p;
    assert v == b * q + r;
    assert q == a * p + c;
    MulDistrib(b, a, p, c);
    MulBelow(b, c, p);
    DivModUnique(v, b * p, a, b * c + r);
  }

  lemma MulDistrib(b: int, a: int, p: int, c: int)
    ensures b * (a * p + c) == a * (b * p) + b * c
  {
  }

  lemma MulBelow(b: int, c: int, p: int)
    requires b > 0 && 0 <= c < p
    ensures 0 <= b * c && b * c + b <= b * p
  {
    assert b * p - b * c == (p - c) * b;
    MulAtLeast(p - c, b);
    if c > 0 {
      MulAtLeast(c, b);
    }
  }

  /** Dividing by `a` and then by `b` is dividing by `a * b`. */
  lemma DivDiv(v: int, a: int, b: int)
    requires a > 0 && b > 0
    ensures v / a / b == v / (a * b)
  {
    var q, r := v / a, v % a;
    var q2, r2 := q / b, q % b;
    assert v == q2 * (a * b) + (r2 * a + r) by {
      assert v == q * a + r;
      assert q == q2 * b + r2;
      assert q * a == q2 * (a * b) + r2 * a;
    }
    assert r2 * a + r < a * b by {
      assert r2 * a <= (b - 1) * a;
      assert (b - 1) * a == a * b - a;
    }
    DivModUnique(v, a * b, q2, r2 * a + r);
  }

  /** The low four bits of a Python integer, read as a number, are the integer modulo 16. */
  lemma {:induction false} NibbleOfInt(v: int)
    ensures v % 16 == (if IntBit(v, 0) then 1 else 0) + (if IntBit(v, 1) then 2 else 0)
                    + (if IntBit(v, 2) then 4 else 0) + (if IntBit(v, 3) then 8 else 0)
  {
    ModSplit(v, 2, 8);
    ModSplit(v / 2, 2, 4);
    ModSplit(v / 2 / 2, 2, 2);
    assert Shifted(v, 1) == v / 2;
    assert Shifted(v, 2) == v / 2 / 2;
    assert Shifted(v, 3) == v / 2 / 2 / 2;
  }
}
