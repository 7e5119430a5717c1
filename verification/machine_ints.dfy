/** Fixed-width integers of C and Java, and the conversions between them that
    the source relies on (two's-complement narrowing, unsigned reading). */
module MachineInts {

  const TWO_8: int := 0x100
  const TWO_16: int := 0x1_0000
  const TWO_31: int := 0x8000_0000
  const TWO_32: int := 0x1_0000_0000

  type uint8 = x: int | 0 <= x < TWO_8
  type uint16 = x: int | 0 <= x < TWO_16
  type uint32 = x: int | 0 <= x < TWO_32

  /** Java `byte`. */
  type int8 = x: int | -0x80 <= x < 0x80

  /** Java `int`. */
  type int32 = x: int | -TWO_31 <= x < TWO_31

  /** Java's narrowing cast `(int) x`: keep the low 32 bits, read them signed. */
  function ToInt32(x: int): (r: int32)
    ensures (r - x) % TWO_32 == 0
  {
    var m := x % TWO_32;
    if m < TWO_31 then m else m - TWO_32
  }

  /** Java's narrowing cast `(byte) x`: keep the low 8 bits, read them signed. */
  function ToInt8(x: int): (r: int8)
    ensures (r - x) % TWO_8 == 0
  {
    var m := x % TWO_8;
    if m < 0x80 then m else m - TWO_8
  }

  /** The bit pattern of a Java byte read as an unsigned value. */
  function Unsigned8(b: int8): (r: uint8)
    ensures ToInt8(r) == b
  {
    if b < 0 then b + TWO_8 else b
  }

  /** Java's `x << k` on an `int`: the product wraps around to 32 bits. */
  function ShiftLeft32(x: int32, k: nat): int32
    requires k < 32
  {
    ToInt32(x * Pow2(k))
  }

  function Pow2(k: nat): (r: nat)
    ensures r >= 1
  {
    if k == 0 then 1 else 2 * Pow2(k - 1)
  }

  /** Bitwise AND of two non-negative integers, bit by bit from the lowest. */
  function BitAnd(a: nat, b: nat): nat
  {
    if a == 0 || b == 0 then 0
    else 2 * BitAnd(a / 2, b / 2) + (if a % 2 == 1 && b % 2 == 1 then 1 else 0)
  }

  /** Masking with 2^k - 1 for k = 1 and k = 4 keeps the remainder. */
  lemma BitAndLowBits(a: nat)
    ensures BitAnd(a, 1) == a % 2
    ensures BitAnd(a, 15) == a % 16
  {
    assert Pow2(1) == 2;
    assert Pow2(4) == 16 by {
      assert Pow2(2) == 4;
      assert Pow2(3) == 8;
    }
    BitAndMask(a, 1);
    BitAndMask(a, 4);
  }

  /** Masking with 2^k - 1 keeps the remainder modulo 2^k. */
  lemma {:induction false} BitAndMask(a: nat, k: nat)
    ensures BitAnd(a, Pow2(k) - 1) == a % Pow2(k)
  {
    if k > 0 {
      var m := Pow2(k - 1);
      assert Pow2(k) - 1 == 2 * (m - 1) + 1;
      BitAndMask(a / 2, k - 1);
      BitAndOddStep(a, m - 1);
      HalfMod(a, m);
    }
  }

  /** AND with an odd mask: the lowest bit, then the rest shifted down. */
  lemma BitAndOddStep(a: nat, m: nat)
    ensures BitAnd(a, 2 * m + 1) == 2 * BitAnd(a / 2, m) + a % 2
  {
  }

  /** The remainder modulo `2 * m` from the remainder of the half. */
  lemma HalfMod(a: nat, m: nat)
    requires m > 0
    ensures a % (2 * m) == 2 * ((a / 2) % m) + a % 2
  {
    var h, r := a / 2, a % 2;
    var q, t := h / m, h % m;
    assert a == 2 * h + r;
    assert h == m * q + t;
    assert 2 * (m * q) == (2 * m) * q;
    ModUnique(a, 2 * m, q, 2 * t + r);
  }

  /** A quotient and a remainder in range are the quotient and remainder. */
  lemma ModUnique(a: int, d: int, q: int, s: int)
    requires d > 0 && a == d * q + s && 0 <= s < d
    ensures a % d == s
  {
    var k := q - a / d;
    assert d * k == a % d - s by {
      assert a == d * (a / d) + a % d;
      assert d * q - d * (a / d) == d * k;
    }
    if k > 0 {
      MulAtLeast(d, k);
    } else if k < 0 {
      MulAtLeast(d, -k);
    }
  }

  lemma MulAtLeast(d: int, k: int)
    requires d > 0 && k >= 1
    ensures d * k >= d
  {
    assert d * k == d + d * (k - 1);
  }
}
