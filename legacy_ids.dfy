/** The chain ids of the first version of the engine (`Hex.Analysis`).

    An ordinary chain id is a value of the id counter. A chain that touches
    one of its colour's edges carries instead a negative id: the sign bit,
    then bit 31 - 4 = 27 + 4 of the five-bit group `1 0 0 0 0`, and one of
    the four bits 27 .. 30 naming the side (0 .. 3), all above the 27 low
    bits that keep the counter value. The shifts, masks and ORs are C# `int`
    operations, computed here on integers with wrap-around. */
module LegacyIds {
  import opened Int32
  import opened Geometry
  import opened ChainSpec

  /** 2^27, the weight of the lowest side bit; the low bits lie below it. */
  const LowSpan: int := 0x800_0000

  /** `x << k` on `int`: the count is taken modulo 32 and bits shifted past
      bit 31 are lost. */
  function ShiftLeft(x: I32, k: int): I32 {
    Wrap(x as int * Pow2(k % 32)) as I32
  }

  /** `IsEdgeChain(id)`. */
  predicate IsEdgeChain(id: I32) {
    id < 0
  }

  /** `IdFromSide(side)`: `((1 << side) | 0b10000) << 27`. */
  function IdFromSide(side: int): I32 {
    ShiftLeft(OrI32(ShiftLeft(1, side), 16), 27)
  }

  /** `HighBitsFromId(id)`: `(id >> 27) & 0b1111`. The arithmetic shift is
      a division rounding down, and the mask of the two's-complement pattern
      is the remainder modulo 16 that is never negative. */
  function HighBitsFromId(id: I32): I32 {
    ((id as int / LowSpan) % 16) as I32
  }

  /** `LowBitsFromId(id)`: `id & 0x07ffffff`. */
  function LowBitsFromId(id: I32): I32 {
    (id as int % LowSpan) as I32
  }

  /** `SideFromId(id)`: the side whose bit is set among the high bits;
      any pattern other than 1, 2 and 4 reads as side 3. */
  function SideFromId(id: I32): int {
    var hb := HighBitsFromId(id);
    if hb == 1 then 0 else if hb == 2 then 1 else if hb == 4 then 2 else 3
  }

  /** `HighBitsFromLocation(loc)`: the edge id (without low bits) that a
      stone at loc must carry, read from the colour on the board there: a
      Black stone in column 0 or Size-1 lies on side 0 or 2, any other
      stone in row 0 or Size-1 on side 3 or 1; elsewhere 0. */
  function HighBitsFromLocation(grid: map<Loc, Color>, loc: Loc, n: int): I32 {
    var side :=
      if ColorAt(grid, loc) == Black then
        if loc.column == 0 then 0 else if loc.column == n - 1 then 2 else -1
      else
        if loc.row == 0 then 3 else if loc.row == n - 1 then 1 else -1;
    if side < 0 then 0 else IdFromSide(side)
  }

  // ----------------------------------------------------------------------
  // The encoding

  lemma Pow2Of27()
    ensures Pow2(27) == LowSpan
  {
    Pow2Of32();
    Pow2Add(27, 4);
    assert Pow2(4) == 16;
  }

  /** `1 << side` for the four sides. */
  function SideBit(side: int): int {
    if side == 0 then 1 else if side == 1 then 2 else if side == 2 then 4 else 8
  }

  /** The id of side s is (2^s - 16) * 2^27 = 2^(27 + s) - 2^31: the sign
      bit, bit 4 of the group and the side's own bit. */
  lemma IdFromSideValue(side: int)
    requires 0 <= side < 4
    ensures IdFromSide(side) as int == (SideBit(side) - 16) * LowSpan
  {
    var bit := SideBit(side) as I32;
    assert ShiftLeft(1, side) == bit by {
      assert side % 32 == side;
      assert Pow2(1) == 2 && Pow2(2) == 4 && Pow2(3) == 8;
    }
    SideGroup(bit);
    GroupShift(bit + 16);
  }

  /** A side bit joined to bit 4 of the group: `bit | 0b10000`. */
  lemma SideGroup(bit: I32)
    requires bit == 1 || bit == 2 || bit == 4 || bit == 8
    ensures OrI32(bit, 16) == bit + 16
  {
    if bit == 8 {
      assert OrBits(1, 2) == 3;
    }
    assert OrBits(bit as nat, 16) == bit as nat + 16;
  }

  /** A five-bit group with its top bit set, shifted left by 27, lands its
      top bit on the sign bit. */
  lemma GroupShift(g: I32)
    requires 16 <= g < 32
    ensures ShiftLeft(g, 27) as int == (g as int - 32) * LowSpan
  {
    Pow2Of27();
    assert 27 % 32 == 27;
    var x := g as int * LowSpan;
    assert Two31 <= x < Two32;
    assert (x + Two31) % Two32 == x - Two31;
  }

  /** OR of a multiple of 2^k with a number below 2^k is their sum: the
      two have no bit in common. */
  lemma {:induction false} OrBitsDisjoint(a: nat, b: nat, k: nat)
    requires b < Pow2(k)
    ensures OrBits(a * Pow2(k), b) == a * Pow2(k) + b
    decreases k
  {
    if k > 0 && a != 0 && b != 0 {
      var m := a * Pow2(k);
      assert m / 2 == a * Pow2(k - 1) && m % 2 == 0;
      OrBitsDisjoint(a, b / 2, k - 1);
      assert OrBits(m, b) == 2 * OrBits(m / 2, b / 2) + b % 2;
    } else if k == 0 {
      assert b == 0;
    }
  }

  /** An edge id of side s with low bits n (below 2^27): OR and addition
      give the same id, which is negative (an edge chain), keeps n as its
      low bits, has exactly the side's bit among the four high bits, and
      reads back as side s. A counter value below 2^27 has no high bits. */
  lemma EdgeIdEncoding(side: int, n: int)
    requires 0 <= side < 4 && 0 <= n < LowSpan
    ensures InRange(IdFromSide(side) as int + n)
    ensures var id := (IdFromSide(side) as int + n) as I32;
      Or(IdFromSide(side) as int, n) == id as int &&
      IsEdgeChain(id) && LowBitsFromId(id) as int == n &&
      HighBitsFromId(id) as int == SideBit(side) && SideFromId(id) == side
    ensures HighBitsFromId(n as I32) == 0 && LowBitsFromId(n as I32) as int == n
  {
    IdFromSideValue(side);
    var p := SideBit(side);
    EdgeIdOr(p, n);
    SplitId(p - 16, n);
    SplitId(0, n);
  }

  /** The OR of a side id with low bits below 2^27 is their sum. */
  lemma EdgeIdOr(p: int, n: int)
    requires 1 <= p <= 8 && 0 <= n < LowSpan
    ensures Or((p - 16) * LowSpan, n) == (p - 16) * LowSpan + n
  {
    Pow2Of27();
    Pow2Of32();
    assert Unsigned((p - 16) * LowSpan) == (16 + p) * Pow2(27);
    OrBitsDisjoint(16 + p, n, 27);
  }

  /** Division and remainder by 2^27 split an id into its high and low
      parts. */
  lemma SplitId(q: int, r: int)
    requires 0 <= r < LowSpan
    ensures (q * LowSpan + r) / LowSpan == q && (q * LowSpan + r) % LowSpan == r
  {
  }

  /** `HighBitsFromLocation` agrees with the library's edge sentinels: it
      is non-zero on exactly the cells where the library gives the stone
      there an edge id, and it then names the same side (sentinel -1 - s
      for side s) and is a negative id with no low bits. */
  lemma HighBitsMatchEdgeId(grid: map<Loc, Color>, loc: Loc, n: int)
    ensures var hb := HighBitsFromLocation(grid, loc, n);
      var edge := EdgeId(loc, ColorAt(grid, loc), n);
      (hb == 0 <==> edge == 0) &&
      (hb != 0 ==> IsEdgeChain(hb) && LowBitsFromId(hb) == 0 && SideFromId(hb) == -1 - edge as int)
  {
    var hb := HighBitsFromLocation(grid, loc, n);
    var edge := EdgeId(loc, ColorAt(grid, loc), n);
    if edge != 0 {
      var side := -1 - edge as int;
      assert hb == IdFromSide(side);
      EdgeIdEncoding(side, 0);
    }
  }
}
