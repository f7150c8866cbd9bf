/** C# `int` arithmetic: 32-bit two's complement with wrap-around, and the
    bitwise OR the chain-id code applies to negative numbers. Bit operations
    are defined arithmetically on the unsigned 32-bit pattern. */
module Int32 {

  const Two31: int := 0x8000_0000
  const Two32: int := 0x1_0000_0000
  const MaxValue: int := 0x7fff_ffff

  /** x is a value of the C# type `int`. */
  predicate InRange(x: int) {
    -Two31 <= x < Two31
  }

  /** The C# type `int`, for values the model stores (chain ids, counters). */
  newtype I32 = x: int | -0x8000_0000 <= x < 0x8000_0000

  /** `++x` on an `int`: MaxValue steps to MinValue. */
  function Increment(x: I32): (r: I32)
    ensures x as int < MaxValue ==> r as int == x as int + 1
    ensures x as int == MaxValue ==> r as int == -Two31
  {
    Wrap(x as int + 1) as I32
  }

  /** Unchecked conversion of a mathematical integer to `int`. */
  function Wrap(x: int): (r: int)
    ensures InRange(r)
    ensures (r - x) % Two32 == 0
    ensures InRange(x) ==> r == x
  {
    if InRange(x) then x else (x + Two31) % Two32 - Two31
  }

  /** The bit pattern of an `int`, read as an unsigned number. */
  function Unsigned(x: int): (u: nat)
    requires InRange(x)
    ensures u < Two32
  {
    if x < 0 then x + Two32 else x
  }

  /** The `int` whose bit pattern, read as an unsigned number, is u. */
  function Signed(u: nat): (r: int)
    requires u < Two32
    ensures InRange(r)
    ensures Unsigned(r) == u
  {
    if u < Two31 then u else u - Two32
  }

  function Pow2(k: nat): (r: nat)
    ensures r >= 1
  {
    if k == 0 then 1 else 2 * Pow2(k - 1)
  }

  /** Bitwise OR of two unsigned numbers, one bit at a time from the bottom. */
  function OrBits(a: nat, b: nat): nat
    decreases a + b
  {
    if a == 0 then b
    else if b == 0 then a
    else 2 * OrBits(a / 2, b / 2) + (if a % 2 == 1 || b % 2 == 1 then 1 else 0)
  }

  /** OR keeps every set bit of both operands, so it is at least as large as
      each of them, and it adds no bit above the width of its operands. */
  lemma {:induction false} OrBitsBounds(a: nat, b: nat, k: nat)
    requires a < Pow2(k) && b < Pow2(k)
    ensures a <= OrBits(a, b) && b <= OrBits(a, b) < Pow2(k)
    decreases a + b
  {
    if a != 0 && b != 0 {
      assert k > 0;
      OrBitsBounds(a / 2, b / 2, k - 1);
    }
  }

  /** OR with the all-ones pattern gives all ones. */
  lemma {:induction false} OrBitsAllOnes(a: nat, k: nat)
    requires a < Pow2(k)
    ensures OrBits(a, Pow2(k) - 1) == Pow2(k) - 1
    decreases k
  {
    if a != 0 {
      var m := Pow2(k) - 1;
      assert k > 0;
      assert m / 2 == Pow2(k - 1) - 1 && m % 2 == 1;
      OrBitsAllOnes(a / 2, k - 1);
      assert OrBits(a, m) == 2 * OrBits(a / 2, m / 2) + 1;
    }
  }

  lemma {:induction false} Pow2Add(i: nat, j: nat)
    ensures Pow2(i + j) == Pow2(i) * Pow2(j)
    decreases i
  {
    if i > 0 {
      Pow2Add(i - 1, j);
    }
  }

  /** 2^k for k <= 30 is a positive C# `int`: the shifts the code performs
      with such counts do not overflow. */
  lemma {:induction false} Pow2Small(k: nat)
    requires k <= 30
    ensures Pow2(k) <= Pow2(30) < Two31
    decreases 30 - k
  {
    if k < 30 {
      Pow2Small(k + 1);
    }
    Pow2Of32();
  }

  lemma Pow2Of32()
    ensures Pow2(31) == Two31 && Pow2(32) == Two32
  {
    assert Pow2(4) == 16;
    Pow2Add(4, 4);
    Pow2Add(8, 8);
    Pow2Add(16, 15);
  }

  /** `a | b` on stored `int` values. */
  function OrI32(a: I32, b: I32): I32 {
    Or(a as int, b as int) as I32
  }

  /** `a | b` on `int`. */
  function Or(a: int, b: int): (r: int)
    requires InRange(a) && InRange(b)
    ensures InRange(r)
  {
    Pow2Of32();
    OrBitsBounds(Unsigned(a), Unsigned(b), 32);
    Signed(OrBits(Unsigned(a), Unsigned(b)))
  }

  /** OR never makes a non-negative `int` smaller, and the OR of two
      non-negative values is non-negative. */
  lemma OrNonNegative(a: int, b: int)
    requires 0 <= a < Two31 && 0 <= b < Two31
    ensures a <= Or(a, b) && b <= Or(a, b)
  {
    Pow2Of32();
    OrBitsBounds(a, b, 31);
  }

  /** OR with a negative value is negative: the sign bit survives. */
  lemma OrNegative(a: int, b: int)
    requires InRange(a) && InRange(b) && b < 0
    ensures Or(a, b) < 0
  {
    Pow2Of32();
    OrBitsBounds(Unsigned(a), Unsigned(b), 32);
  }

  /** OR with -1 (all bits set) is -1. */
  lemma OrMinusOne(a: int)
    requires InRange(a)
    ensures Or(a, -1) == -1
  {
    Pow2Of32();
    OrBitsAllOnes(Unsigned(a), 32);
  }
}
