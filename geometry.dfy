/** Cells of the Hex board and the geometry of the hexagonal grid.

    `GridLocation` is an immutable (row, column) pair in both the library and
    the WPF project; the two copies define the same operators, validity test,
    hash and display string, so one model serves both. The six-neighbour
    offsets and the adjacency queries, which both `Board` classes define
    identically, live here too. */
module Geometry {
  import opened Int32

  /** The colour of a cell: `PlayerColor` in the library, `Player` in the
      WPF project; both enums list Unoccupied, Black, White in that order. */
  datatype Color = Unoccupied | Black | White

  /** The colour that moves after `c`: Black hands over to White, anything
      else (White, and also Unoccupied) hands over to Black. */
  function Other(c: Color): (r: Color)
    ensures r != Unoccupied
    ensures c != Unoccupied ==> r != c
  {
    if c == Black then White else Black
  }

  /** Toggling twice gives back the player who was to move. */
  lemma OtherTwice(c: Color)
    requires c != Unoccupied
    ensures Other(Other(c)) == c
  {
  }

  datatype Loc = Loc(row: int, column: int)

  function Add(a: Loc, b: Loc): Loc {
    Loc(a.row + b.row, a.column + b.column)
  }

  function Sub(a: Loc, b: Loc): Loc {
    Loc(a.row - b.row, a.column - b.column)
  }

  /** `k * loc`, componentwise scaling. */
  function Scale(k: int, a: Loc): Loc {
    Loc(k * a.row, k * a.column)
  }

  /** Subtraction undoes addition, and addition undoes subtraction. */
  lemma AddSubInverse(a: Loc, b: Loc)
    ensures Sub(Add(a, b), b) == a
    ensures Add(Sub(a, b), b) == a
    ensures Add(a, b) == Add(b, a)
  {
  }

  function Nowhere(): Loc {
    Loc(-1, -1)
  }

  predicate IsNowhere(a: Loc) {
    a.row < 0
  }

  lemma NowhereIsNowhere()
    ensures IsNowhere(Nowhere())
    ensures forall a: Loc :: IsValid(a, 0) == false
    ensures forall a: Loc, n: int :: IsNowhere(a) ==> !IsValid(a, n)
  {
  }

  /** The cell lies on an n-by-n board. */
  predicate IsValid(a: Loc, n: int) {
    a.row >= 0 && a.column >= 0 && a.row < n && a.column < n
  }

  // ----------------------------------------------------------------------
  // Hash code: Row + (Column << 5) in 32-bit arithmetic.

  function Hash(a: Loc): (h: int)
    requires InRange(a.row) && InRange(a.column)
    ensures InRange(h)
  {
    Wrap(a.row + ShiftLeft5(a.column))
  }

  /** `column << 5` on a C# `int`: the low 27 bits move up by five places and
      the rest fall off the top. */
  function ShiftLeft5(c: int): (r: int)
    requires InRange(c)
    ensures InRange(r)
    ensures (r - 32 * c) % Two32 == 0
  {
    Wrap(32 * c)
  }

  /** For columns 0 .. 2^27 - 1 the shift loses no bit, so rows below 32 and
      such columns never share a hash code. */
  lemma HashInjective(a: Loc, b: Loc)
    requires 0 <= a.row < 32 && 0 <= b.row < 32
    requires 0 <= a.column < 0x800_0000 && 0 <= b.column < 0x800_0000
    requires Hash(a) == Hash(b)
    ensures a == b
  {
    var sa, sb := ShiftLeft5(a.column), ShiftLeft5(b.column);
    ShiftLeft5Small(a.column);
    ShiftLeft5Small(b.column);
    // The low five bits of each hash are the row.
    assert a.row + sa == b.row + sb;
    assert (a.row - b.row) % 32 == 0 by {
      assert sa % 32 == 0 && sb % 32 == 0;
    }
    assert a.row == b.row;
    assert sa == sb;
  }

  /** What the shift does to a column below 2^27: a multiple of 32 that is
      in range, equal to 32 * c when that fits and 32 * c - 2^32 when not. */
  lemma ShiftLeft5Small(c: int)
    requires 0 <= c < 0x800_0000
    ensures ShiftLeft5(c) == if c < 0x400_0000 then 32 * c else 32 * c - Two32
    ensures ShiftLeft5(c) % 32 == 0 && -Two31 <= ShiftLeft5(c) <= Two31 - 32
  {
    if c >= 0x400_0000 {
      var r := ShiftLeft5(c);
      assert (r - 32 * c) % Two32 == 0;
      assert -Two32 - Two31 < r - 32 * c < Two31;
      assert r - 32 * c == -Two32;
    }
  }

  /** The claim "different values for different locations" fails once the
      column reaches 2^27: its bits are shifted out entirely. */
  lemma HashCollision()
    ensures Loc(0, 0) != Loc(0, 0x800_0000)
    ensures Hash(Loc(0, 0)) == Hash(Loc(0, 0x800_0000))
  {
    assert ShiftLeft5(0x800_0000) == 0;
  }

  // ----------------------------------------------------------------------
  // Display string: the letter 'A' + Row followed by the decimal Column + 1.

  /** A UTF-16 code unit, the element type of a .NET string. */
  newtype CodeUnit = x: int | 0 <= x < 0x10000

  const LetterA: int := 65
  const Digit0: int := 48
  const Minus: CodeUnit := 45

  /** The decimal digits of n, most significant first, without leading zeros. */
  function Digits(n: nat): (s: seq<CodeUnit>)
    ensures 1 <= |s|
    ensures forall i :: 0 <= i < |s| ==> Digit0 as CodeUnit <= s[i] <= (Digit0 + 9) as CodeUnit
    ensures n >= 10 ==> s[0] != Digit0 as CodeUnit
    decreases n
  {
    if n < 10 then [(Digit0 + n) as CodeUnit]
    else Digits(n / 10) + [(Digit0 + n % 10) as CodeUnit]
  }

  /** C#'s formatting of an `int`: a minus sign for negative numbers. */
  function Decimal(n: int): seq<CodeUnit> {
    if n < 0 then [Minus] + Digits(-n) else Digits(n)
  }

  /** `ToString()`: the row as a single character (the `(char)` cast keeps the
      low 16 bits) followed by the column counted from 1. */
  function ToString(a: Loc): (s: seq<CodeUnit>)
    requires InRange(a.row) && InRange(a.column)
    ensures 2 <= |s|
    ensures s[0] as int == (LetterA + a.row) % 0x10000
  {
    [((LetterA + a.row) % 0x10000) as CodeUnit] + Decimal(Wrap(a.column + 1))
  }

  /** Reads a run of decimal digits back as a number. */
  function ParseDigits(s: seq<CodeUnit>): int
    decreases |s|
  {
    if s == [] then 0
    else 10 * ParseDigits(s[..|s| - 1]) + (s[|s| - 1] as int - Digit0)
  }

  lemma {:induction false} ParseDigitsOfDigits(n: nat)
    ensures ParseDigits(Digits(n)) == n
    decreases n
  {
    if n >= 10 {
      var s := Digits(n);
      assert s[..|s| - 1] == Digits(n / 10);
      ParseDigitsOfDigits(n / 10);
    }
  }

  /** Reads a display string back as a location, for strings that start with
      a letter and continue with a positive decimal number. */
  function ParseLoc(s: seq<CodeUnit>): (r: Option<Loc>)
    ensures r.Some? ==> r.value.column >= 0
  {
    if |s| < 2 || s[1] == Minus || ParseDigits(s[1..]) < 1 then None
    else Some(Loc(s[0] as int - LetterA, ParseDigits(s[1..]) - 1))
  }

  datatype Option<T> = None | Some(value: T)

  /** The display string identifies the cell: for every location whose letter
      does not wrap and whose column + 1 does not overflow, parsing the string
      gives the location back. Board cells (rows and columns below 26) are
      far inside this range. */
  lemma ToStringRoundTrip(a: Loc)
    requires 0 <= a.row < 0x10000 - LetterA
    requires 0 <= a.column < MaxValue
    ensures ParseLoc(ToString(a)) == Some(a)
  {
    var s := ToString(a);
    assert s[1..] == Digits(a.column + 1);
    ParseDigitsOfDigits(a.column + 1);
  }

  /** Two on-board cells have different display strings whenever they differ. */
  lemma ToStringInjective(a: Loc, b: Loc)
    requires 0 <= a.row < 0x10000 - LetterA && 0 <= a.column < MaxValue
    requires 0 <= b.row < 0x10000 - LetterA && 0 <= b.column < MaxValue
    requires ToString(a) == ToString(b)
    ensures a == b
  {
    ToStringRoundTrip(a);
    ToStringRoundTrip(b);
  }

  // ----------------------------------------------------------------------
  // Neighbours on the hexagonal grid.

  /** The six neighbour offsets, in the order the boards list them. */
  const Offsets: seq<Loc> :=
    [Loc(1, -1), Loc(1, 0), Loc(0, 1), Loc(-1, 1), Loc(-1, 0), Loc(0, -1)]

  /** `IsAdjacentTo(loc1, loc2)`: the difference is one of the offsets. */
  predicate IsAdjacentTo(a: Loc, b: Loc) {
    Sub(a, b) in Offsets
  }

  /** The offsets come in opposite pairs, so adjacency is symmetric. */
  lemma IsAdjacentToSymmetric(a: Loc, b: Loc)
    ensures IsAdjacentTo(a, b) <==> IsAdjacentTo(b, a)
  {
    var d := Sub(a, b);
    assert Sub(b, a) == Loc(-d.row, -d.column);
    if d in Offsets {
      var i :| 0 <= i < 6 && Offsets[i] == d;
      assert Offsets[(i + 3) % 6] == Sub(b, a);
    }
    if Sub(b, a) in Offsets {
      var i :| 0 <= i < 6 && Offsets[i] == Sub(b, a);
      assert Offsets[(i + 3) % 6] == d;
    }
  }

  /** A cell is never adjacent to itself. */
  lemma NotAdjacentToSelf(a: Loc)
    ensures !IsAdjacentTo(a, a)
  {
    assert Sub(a, a) == Loc(0, 0);
  }

  /** `Adjacent(loc)`: the neighbours `loc + Offsets[i]`, i = 0 .. 5, that lie
      on the board, in offset order. */
  function Adjacent(a: Loc, n: int): (r: seq<Loc>)
    ensures |r| <= 6
  {
    AdjacentFrom(a, n, 0)
  }

  /** The on-board neighbours among offsets i .. 5. */
  function AdjacentFrom(a: Loc, n: int, i: nat): (r: seq<Loc>)
    requires i <= 6
    ensures |r| <= 6 - i
    decreases 6 - i, a
  {
    if i == 6 then []
    else
      var cur := Add(a, Offsets[i]);
      var rest := AdjacentFrom(a, n, i + 1);
      if IsValid(cur, n) then [cur] + rest else rest
  }

  /** `Adjacent` yields exactly the cells on the board that are adjacent to
      the given one. */
  lemma AdjacentMembers(a: Loc, n: int)
    ensures forall x :: x in Adjacent(a, n) <==> IsValid(x, n) && IsAdjacentTo(x, a)
  {
    AdjacentFromMembers(a, n, 0);
  }

  lemma {:induction false} AdjacentFromMembers(a: Loc, n: int, i: nat)
    requires i <= 6
    ensures forall x :: x in AdjacentFrom(a, n, i) <==> IsValid(x, n) && Sub(x, a) in Offsets[i..]
    decreases 6 - i
  {
    if i < 6 {
      AdjacentFromMembers(a, n, i + 1);
      var cur := Add(a, Offsets[i]);
      assert Offsets[i..] == [Offsets[i]] + Offsets[i + 1..];
      assert Sub(cur, a) == Offsets[i];
      assert forall x :: Sub(x, a) == Offsets[i] ==> x == cur;
    }
  }

  /** Every neighbour of a cell is distinct, so no cell is listed twice. */
  lemma AdjacentDistinct(a: Loc, n: int)
    ensures forall i, j :: 0 <= i < j < |Adjacent(a, n)| ==> Adjacent(a, n)[i] != Adjacent(a, n)[j]
  {
    AdjacentFromDistinct(a, n, 0);
  }

  lemma {:induction false} AdjacentFromDistinct(a: Loc, n: int, k: nat)
    requires k <= 6
    ensures forall i, j :: 0 <= i < j < |AdjacentFrom(a, n, k)| ==>
      AdjacentFrom(a, n, k)[i] != AdjacentFrom(a, n, k)[j]
    decreases 6 - k
  {
    if k < 6 {
      AdjacentFromDistinct(a, n, k + 1);
      var cur := Add(a, Offsets[k]);
      var rest := AdjacentFrom(a, n, k + 1);
      if IsValid(cur, n) {
        // cur is not among the later neighbours: its offset is Offsets[k] only.
        assert cur !in rest by {
          AdjacentFromMembers(a, n, k + 1);
          assert Sub(cur, a) == Offsets[k];
          assert Offsets[k] !in Offsets[k + 1..];
        }
        assert AdjacentFrom(a, n, k) == [cur] + rest;
      }
    }
  }

  /** The board test: on an 11 by 11 board the corner (0,0) has exactly the
      two neighbours (1,0) and (0,1), and the corner (10,10) the two
      neighbours (10,9) and (9,10). */
  lemma AdjacentOfCorners()
    ensures Adjacent(Loc(0, 0), 11) == [Loc(1, 0), Loc(0, 1)]
    ensures Adjacent(Loc(10, 10), 11) == [Loc(9, 10), Loc(10, 9)]
  {
    var a, b := Loc(0, 0), Loc(10, 10);
    assert Offsets[0] == Loc(1, -1) && Offsets[1] == Loc(1, 0) && Offsets[2] == Loc(0, 1);
    assert Offsets[3] == Loc(-1, 1) && Offsets[4] == Loc(-1, 0) && Offsets[5] == Loc(0, -1);
    assert AdjacentFrom(a, 11, 6) == [];
    assert AdjacentFrom(a, 11, 5) == [];
    assert AdjacentFrom(a, 11, 4) == [];
    assert AdjacentFrom(a, 11, 3) == [];
    assert AdjacentFrom(a, 11, 2) == [Loc(0, 1)];
    assert AdjacentFrom(a, 11, 1) == [Loc(1, 0), Loc(0, 1)];
    assert AdjacentFrom(b, 11, 6) == [];
    assert AdjacentFrom(b, 11, 5) == [Loc(10, 9)];
    assert AdjacentFrom(b, 11, 4) == [Loc(9, 10), Loc(10, 9)];
    assert AdjacentFrom(b, 11, 3) == [Loc(9, 10), Loc(10, 9)];
    assert AdjacentFrom(b, 11, 2) == [Loc(9, 10), Loc(10, 9)];
    assert AdjacentFrom(b, 11, 1) == [Loc(9, 10), Loc(10, 9)];
  }
}
