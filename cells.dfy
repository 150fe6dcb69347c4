/** 32-bit machine integers, as the C code's `int` and `unsigned` behave on
    the two's-complement hosts it was written for. Dafny integers are
    unbounded, so every wrap-around, conversion and C-style division is
    written out here once and used by the other modules. */
module Cells {

  const Two32: int := 0x1_0000_0000
  const Two31: int := 0x8000_0000
  const MinInt: int := -0x8000_0000
  const MaxInt: int := 0x7fff_ffff

  /** A value that fits a 32-bit `int`. */
  type i32 = x: int | -0x8000_0000 <= x <= 0x7fff_ffff

  /** A value that fits a 32-bit `unsigned`. */
  type u32 = x: int | 0 <= x < 0x1_0000_0000

  /** The `unsigned` value of `x` reduced modulo 2^32 (C's conversion to unsigned). */
  function ToUnsigned(x: int): (r: u32)
    ensures (r - x) % Two32 == 0
    ensures 0 <= x < Two32 ==> r == x
  {
    x % Two32
  }

  /** The `int` that has the same 32 bits as `u`. */
  function ToSigned(u: u32): (r: i32)
    ensures (r - u) % Two32 == 0
    ensures u <= MaxInt ==> r == u
    ensures u > MaxInt ==> r < 0
  {
    if u <= MaxInt then u else u - Two32
  }

  /** Two's-complement wrap of an exact result into a 32-bit `int`. */
  function Wrap(x: int): (r: i32)
    ensures (r - x) % Two32 == 0
    ensures MinInt <= x <= MaxInt ==> r == x
  {
    ToSigned(ToUnsigned(x))
  }

  lemma {:induction false} SignedUnsignedRoundTrip(x: i32)
    ensures ToSigned(ToUnsigned(x)) == x
    ensures ToUnsigned(ToSigned(ToUnsigned(x))) == ToUnsigned(x)
  {
    if x < 0 {
      assert ToUnsigned(x) == x + Two32;
    }
  }

  /** C division of `int`s: the quotient is truncated toward zero. */
  function TruncDiv(y: int, z: int): (q: int)
    requires z != 0
    ensures y >= 0 && z > 0 ==> q == y / z
  {
    var a := if y < 0 then -y else y;
    var b := if z < 0 then -z else z;
    if (y < 0) == (z < 0) then a / b else -(a / b)
  }

  /** C remainder of `int`s: it takes the sign of the dividend. */
  function TruncMod(y: int, z: int): (m: int)
    requires z != 0
    ensures y == TruncDiv(y, z) * z + m
    ensures y >= 0 ==> 0 <= m
    ensures y <= 0 ==> m <= 0
    ensures -(if z < 0 then -z else z) < m < (if z < 0 then -z else z)
  {
    y - TruncDiv(y, z) * z
  }

  /** Bits of a 32-bit pattern, through Dafny's bit-vectors. */
  function Bits(u: u32): bv32 { u as bv32 }

  function And(y: i32, z: i32): i32 { ToSigned((Bits(ToUnsigned(y)) & Bits(ToUnsigned(z))) as int) }
  function Or(y: i32, z: i32): i32 { ToSigned((Bits(ToUnsigned(y)) | Bits(ToUnsigned(z))) as int) }
  function Xor(y: i32, z: i32): i32 { ToSigned((Bits(ToUnsigned(y)) ^ Bits(ToUnsigned(z))) as int) }

  /** The shift count the hardware uses: the low five bits of `z`.
      (C leaves counts outside 0..31 undefined; x86 masks them like this.) */
  function ShiftCount(z: i32): (n: nat)
    ensures n < 32
  {
    ToUnsigned(z) % 32
  }

  /** `y << z` on a 32-bit `int`: the bits move up and the high ones are lost. */
  function ShiftLeft(y: i32, z: i32): (r: i32)
  {
    ToSigned(ShiftUp(ToUnsigned(y), ShiftCount(z)))
  }

  /** `(unsigned)y >> z`: a logical shift. */
  function ShiftRightUnsigned(y: i32, z: i32): (r: i32)
  {
    ToSigned(ShiftDown(ToUnsigned(y), ShiftCount(z)))
  }

  /** `y >> z` on an `int`: an arithmetic shift (what gcc does with signed values). */
  function ShiftRightSigned(y: i32, z: i32): (r: i32)
  {
    Halve(y, ShiftCount(z))
  }

  /** Doubling `n` times modulo 2^32. */
  function ShiftUp(u: u32, n: nat): u32
    decreases n
  {
    if n == 0 then u else ShiftUp((2 * u) % Two32, n - 1)
  }

  /** Halving `n` times, rounding down. */
  function ShiftDown(u: u32, n: nat): u32
    decreases n
  {
    if n == 0 then u else ShiftDown(u / 2, n - 1)
  }

  /** Halving a signed value `n` times, rounding toward minus infinity. */
  function Halve(y: i32, n: nat): i32
    decreases n
  {
    if n == 0 then y else Halve(y / 2, n - 1)
  }
}
