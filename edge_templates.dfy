/** The edge-template catalog and the bit tables the edge scanner keeps
    beside it.

    An edge template is a shape of empty cells next to a board edge,
    with one friendly "connecting" stone in it, that connects the stone to
    the edge. A template is given by the height of each of its columns,
    counted inwards from the edge. It also names the column of its
    connecting stone, whose height minus one is the stone's depth, and its
    single "don't care" cell, if it has one. The scanner keeps one bit per
    template in a 16-bit `short`; here that is a `bv16`. */
module EdgeTemplates {
  import opened Errors
  import opened Geometry

  // ----------------------------------------------------------------------
  // Template indices, named after the templates of the book the library
  // follows, and their one-bit masks.

  const I: nat := 0
  const II: nat := 1
  const IIIa: nat := 2
  const IIIb: nat := 3
  const IIIc: nat := 4
  const IVa: nat := 5
  const IVb: nat := 6
  const IVc: nat := 7
  const Va: nat := 8
  const Vb: nat := 9

  /** The number of templates. */
  const TemplateCount: nat := 10

  /** `1 << t`, the mask bit of template `t`. */
  function Bit(t: nat): bv16
    requires t < 16
  {
    (1 as bv16) << t
  }

  const IM: bv16 := Bit(I)
  const IIM: bv16 := Bit(II)
  const IIIaM: bv16 := Bit(IIIa)
  const IIIbM: bv16 := Bit(IIIb)
  const IIIcM: bv16 := Bit(IIIc)
  const IVaM: bv16 := Bit(IVa)
  const IVbM: bv16 := Bit(IVb)
  const IVcM: bv16 := Bit(IVc)
  const VaM: bv16 := Bit(Va)
  const VbM: bv16 := Bit(Vb)

  // ----------------------------------------------------------------------
  // The catalog.

  datatype EdgeTemplate = EdgeTemplate(columnHeights: seq<int>, connectStoneColumn: int, dontCare: Loc)

  /** The two-argument constructor: a template without a don't-care cell. */
  function Template(columnHeights: seq<int>, connectStoneColumn: int): (t: EdgeTemplate)
    ensures t.columnHeights == columnHeights && t.connectStoneColumn == connectStoneColumn
    ensures IsNowhere(t.dontCare)
  {
    EdgeTemplate(columnHeights, connectStoneColumn, Nowhere())
  }

  /** `EdgeTemplates`, indexed by I .. Vb. */
  const Templates: seq<EdgeTemplate> := [
    Template([1], 0),
    Template([2, 1], 0),
    Template([3, 3, 2, 1], 0),
    Template([3, 3, 2, 1], 1),
    EdgeTemplate([3, 3, 3, 2, 1], 1, Loc(0, 2)),
    Template([3, 4, 4, 3, 3, 2, 1], 1),
    Template([3, 4, 4, 3, 3, 2, 1], 2),
    EdgeTemplate([3, 4, 4, 4, 3, 3, 2, 1], 2, Loc(1, 3)),
    Template([3, 5, 5, 5, 4, 4, 3, 3, 2, 1], 2),
    Template([3, 4, 5, 5, 5, 4, 3, 3, 2, 1], 3)
  ]

  /** The number of columns of template `t`. */
  function Length(t: nat): int
    requires t < |Templates|
  {
    |Templates[t].columnHeights|
  }

  /** The depth of the connecting stone of template `t`: the height of its
      column minus one. */
  function Depth(t: nat): int
    requires t < |Templates|
    requires 0 <= Templates[t].connectStoneColumn < |Templates[t].columnHeights|
  {
    Templates[t].columnHeights[Templates[t].connectStoneColumn] - 1
  }

  /** Every template ends in a column of height one, its connecting stone
      lies in one of its columns, and no column is taller than five. */
  lemma CatalogShape()
    ensures |Templates| == TemplateCount
    ensures forall t | 0 <= t < |Templates| ::
      var h := Templates[t].columnHeights;
      0 < |h| && h[|h| - 1] == 1 && 0 <= Templates[t].connectStoneColumn < |h|
    ensures forall t, j | 0 <= t < |Templates| && 0 <= j < |Templates[t].columnHeights| ::
      1 <= Templates[t].columnHeights[j] <= 5
  {
  }

  /** The lengths and connecting-stone depths across the catalog. */
  lemma CatalogLengthsAndDepths()
    ensures seq(10, t requires 0 <= t < 10 => Length(t)) == [1, 2, 4, 4, 5, 7, 7, 8, 10, 10]
    ensures seq(10, t requires 0 <= t < 10 => Depth(t)) == [0, 1, 2, 2, 2, 3, 3, 3, 4, 4]
  {
  }

  /** Only IIIc, at (0, 2), and IVc, at (1, 3), have a don't-care cell. */
  lemma CatalogDontCares()
    ensures forall t | 0 <= t < |Templates| ::
      Templates[t].dontCare == if t == IIIc then Loc(0, 2) else if t == IVc then Loc(1, 3) else Nowhere()
  {
  }

  // ----------------------------------------------------------------------
  // Masks by length.

  /** `LengthMasks[len - 1]`: the templates of length `len`. */
  const LengthMasks: seq<bv16> := [0x1, 0x2, 0x0, 0xC, 0x10, 0x0, 0x60, 0x80, 0x0, 0x300]

  /** Bit `t` of `LengthMasks[len - 1]` is set exactly when template `t` has
      `len` columns. */
  lemma LengthMasksAgree(t: nat, len: int)
    requires t < TemplateCount && 1 <= len <= |LengthMasks|
    ensures LengthMasks[len - 1] & Bit(t) != 0 <==> Length(t) == len
  {
    if t == 0 {
    } else if t == 1 {
    } else if t == 2 {
    } else if t == 3 {
    } else if t == 4 {
    } else if t == 5 {
    } else if t == 6 {
    } else if t == 7 {
    } else if t == 8 {
    } else {
    }
  }

  /** The OR of `LengthMasks[1..i]`, the value the static constructor
      stores in `TmpsByLength[i]`. */
  function TmpsUpTo(i: nat): bv16
    requires i < |LengthMasks|
  {
    if i == 0 then 0 else TmpsUpTo(i - 1) | LengthMasks[i]
  }

  /** `TmpsByLength`. */
  const TmpsByLength: seq<bv16> :=
    [TmpsUpTo(0), TmpsUpTo(1), TmpsUpTo(2), TmpsUpTo(3), TmpsUpTo(4),
     TmpsUpTo(5), TmpsUpTo(6), TmpsUpTo(7), TmpsUpTo(8), TmpsUpTo(9)]

  /** The static constructor's loop. */
  method BuildTmpsByLength() returns (tmps: array<bv16>)
    ensures fresh(tmps) && tmps.Length == |TmpsByLength|
    ensures forall j | 0 <= j < tmps.Length :: tmps[j] == TmpsByLength[j]
  {
    var curMask: bv16 := 0;
    tmps := new bv16[|LengthMasks|](_ => 0);
    var i := 1;
    while i < |LengthMasks|
      invariant 1 <= i <= |LengthMasks|
      invariant curMask == TmpsUpTo(i - 1)
      invariant forall j | 0 <= j < i :: tmps[j] == TmpsUpTo(j)
    {
      curMask := curMask | LengthMasks[i];
      tmps[i] := curMask;
      i := i + 1;
    }
  }

  /** `TmpsByLength[i]` holds exactly the templates of 2 to `i + 1` columns
      (the comment on the table says "lengths <= i"; the table is built
      from `LengthMasks[1..i]`, which are lengths 2 to `i + 1`). */
  lemma {:induction false} TmpsByLengthMembers(i: nat, t: nat)
    requires i < |LengthMasks| && t < TemplateCount
    ensures TmpsUpTo(i) & Bit(t) != 0 <==> 2 <= Length(t) <= i + 1
  {
    if i > 0 {
      TmpsByLengthMembers(i - 1, t);
      LengthMasksAgree(t, i + 1);
      var prev, bit := TmpsUpTo(i - 1), Bit(t);
      assert TmpsUpTo(i) == prev | LengthMasks[i];
      assert (prev | LengthMasks[i]) & bit == (prev & bit) | (LengthMasks[i] & bit);
    }
  }

  /** The table only grows, never holds template I, and its last entry is
      `0x3fe`, the mask every slot starts with. */
  lemma TmpsByLengthShape(i: nat, j: nat)
    requires i <= j < |LengthMasks|
    ensures TmpsUpTo(i) & !TmpsUpTo(j) == 0
    ensures TmpsUpTo(i) & IM == 0
    ensures TmpsByLength[|LengthMasks| - 1] == 0x3fe
  {
    TmpsMonotone(i, j);
    TmpsNoSingleton(i);
    TmpsLast();
  }

  lemma TmpsLast()
    ensures TmpsByLength[|LengthMasks| - 1] == 0x3fe
  {
    assert TmpsUpTo(1) == 0x2;
    assert TmpsUpTo(2) == 0x2;
    assert TmpsUpTo(3) == 0xE;
    assert TmpsUpTo(4) == 0x1E;
    assert TmpsUpTo(5) == 0x1E;
    assert TmpsUpTo(6) == 0x7E;
    assert TmpsUpTo(7) == 0xFE;
    assert TmpsUpTo(8) == 0xFE;
    assert TmpsUpTo(9) == 0x3FE;
  }

  lemma {:induction false} TmpsMonotone(i: nat, j: nat)
    requires i <= j < |LengthMasks|
    ensures TmpsUpTo(i) & !TmpsUpTo(j) == 0
    decreases j
  {
    if i < j {
      TmpsMonotone(i, j - 1);
    }
  }

  lemma {:induction false} TmpsNoSingleton(i: nat)
    requires i < |LengthMasks|
    ensures TmpsUpTo(i) & IM == 0
  {
    if i > 0 {
      TmpsNoSingleton(i - 1);
    }
  }

  // ----------------------------------------------------------------------
  // From masks to template indices.

  /** `IndexFromMask`: the index of a single-bit mask; any other mask
      throws `ArgumentException`. The mask is given as the set of its
      bits. */
  function IndexFromMask(mask: set<nat>): (r: Result<nat>)
    ensures r.Ok? ==> r.value < TemplateCount && mask == {r.value}
    ensures r.Fail? ==> r.error == ArgumentException
    ensures forall t | 0 <= t < TemplateCount :: mask == {t} ==> r == Ok(t)
  {
    if mask == {0} then Ok(0)
    else if mask == {1} then Ok(1)
    else if mask == {2} then Ok(2)
    else if mask == {3} then Ok(3)
    else if mask == {4} then Ok(4)
    else if mask == {5} then Ok(5)
    else if mask == {6} then Ok(6)
    else if mask == {7} then Ok(7)
    else if mask == {8} then Ok(8)
    else if mask == {9} then Ok(9)
    else Fail(ArgumentException)
  }

  /** The templates whose bits are set in `m`: the ten bits the scanner
      looks at, read as a set of template indices. */
  function TemplatesOf(m: bv16): set<nat> {
    set t | 0 <= t < TemplateCount && m & Bit(t) != 0
  }

  /** `IndicesFromMask`, from template `i` on, for the set of templates the
      mask stands for: its members from `i` up, in increasing order. */
  function IndicesFrom(templates: set<nat>, i: nat): (r: seq<nat>)
    requires i <= TemplateCount
    ensures forall k | 0 <= k < |r| :: i <= r[k] < TemplateCount && r[k] in templates
    ensures forall t | i <= t < TemplateCount && t in templates :: t in r
    ensures forall k, l | 0 <= k < l < |r| :: r[k] < r[l]
    decreases TemplateCount - i, templates
  {
    if i == TemplateCount then []
    else (if i in templates then [i] else []) + IndicesFrom(templates, i + 1)
  }

  /** `IndicesFromMask(templates)`: the indices of the bits of `templates`
      among the first ten, in increasing order. */
  function IndicesFromMask(templates: bv16): (r: seq<nat>)
    ensures forall k | 0 <= k < |r| :: r[k] < TemplateCount && templates & Bit(r[k]) != 0
    ensures forall t | 0 <= t < TemplateCount && templates & Bit(t) != 0 :: t in r
    ensures forall k, l | 0 <= k < l < |r| :: r[k] < r[l]
  {
    IndicesFrom(TemplatesOf(templates), 0)
  }

  /** The templates of `len` columns. */
  function OfLength(len: int): set<nat> {
    set t | 0 <= t < TemplateCount && Length(t) == len
  }

  /** The members of `LengthMasks[len - 1]` are the templates of length
      `len`. */
  lemma LengthMembers(len: int)
    requires 1 <= len <= |LengthMasks|
    ensures TemplatesOf(LengthMasks[len - 1]) == OfLength(len)
  {
    forall t | 0 <= t < TemplateCount
      ensures t in TemplatesOf(LengthMasks[len - 1]) <==> Length(t) == len
    {
      LengthMasksAgree(t, len);
    }
  }

  /** The members of `TmpsByLength[i]` are the templates of 2 to `i + 1`
      columns. */
  lemma TmpsMembers(i: nat)
    requires i < |TmpsByLength|
    ensures TemplatesOf(TmpsByLength[i]) == set t | 0 <= t < TemplateCount && 2 <= Length(t) <= i + 1
  {
    forall t | 0 <= t < TemplateCount
      ensures t in TemplatesOf(TmpsByLength[i]) <==> 2 <= Length(t) <= i + 1
    {
      TmpsByLengthMembers(i, t);
    }
  }

  // ----------------------------------------------------------------------
  // Column heights of a set of templates.

  function Max(a: int, b: int): int {
    if a < b then b else a
  }

  /** `acc[j]`, or the 0 the loop appends when `acc` is too short. */
  function EntryOr0(acc: seq<int>, j: nat): int {
    if j < |acc| then acc[j] else 0
  }

  /** One pass of the inner loop of `ColumnHeight`: widen `acc` to the
      length of `heights` with zeros, and raise each entry to the height
      of that column. */
  function RaiseTo(acc: seq<int>, heights: seq<int>): (r: seq<int>)
    ensures |r| == if |acc| < |heights| then |heights| else |acc|
    ensures forall j | 0 <= j < |r| ::
      r[j] == if j < |heights| then Max(EntryOr0(acc, j), heights[j]) else acc[j]
    decreases |heights|, acc
  {
    if heights == [] then acc
    else
      var head := if acc == [] then 0 else acc[0];
      var rest := if acc == [] then [] else acc[1..];
      [Max(head, heights[0])] + RaiseTo(rest, heights[1..])
  }

  /** The column heights of template `t`: one to five rows in each of its
      columns. */
  function Heights(t: nat): (h: seq<int>)
    requires t < TemplateCount
    ensures |h| == Length(t)
    ensures forall j | 0 <= j < |h| :: 1 <= h[j] <= 5
  {
    CatalogShape();
    Templates[t].columnHeights
  }

  /** The list of column heights the memo table holds for a set of
      templates: for each column, the tallest of those templates there. */
  function HeightList(templates: set<nat>): (r: seq<int>)
    ensures forall j | 0 <= j < |r| :: 0 <= r[j] <= 5
  {
    HeightsOf(IndicesFrom(templates, 0), [])
  }

  function HeightsOf(indices: seq<nat>, acc: seq<int>): (r: seq<int>)
    requires forall k | 0 <= k < |indices| :: indices[k] < TemplateCount
    requires forall j | 0 <= j < |acc| :: 0 <= acc[j] <= 5
    ensures forall j | 0 <= j < |r| :: 0 <= r[j] <= 5
  {
    if indices == [] then acc
    else
      HeightsOf(indices[1..], RaiseTo(acc, Heights(indices[0])))
  }

  /** Folding templates into `acc` only ever raises its entries. */
  lemma {:induction false} HeightsOfKeeps(indices: seq<nat>, acc: seq<int>, j: nat)
    requires forall k | 0 <= k < |indices| :: indices[k] < TemplateCount
    requires forall i | 0 <= i < |acc| :: 0 <= acc[i] <= 5
    requires j < |acc|
    ensures j < |HeightsOf(indices, acc)| && acc[j] <= HeightsOf(indices, acc)[j]
  {
    if indices != [] {
      var acc' := RaiseTo(acc, Heights(indices[0]));
      HeightsOfKeeps(indices[1..], acc', j);
      assert HeightsOf(indices, acc) == HeightsOf(indices[1..], acc');
    }
  }

  /** The first template listed is no taller than the result. */
  lemma HeightsOfHead(indices: seq<nat>, acc: seq<int>, j: nat)
    requires forall k | 0 <= k < |indices| :: indices[k] < TemplateCount
    requires forall i | 0 <= i < |acc| :: 0 <= acc[i] <= 5
    requires indices != [] && j < Length(indices[0])
    ensures j < |HeightsOf(indices, acc)| && HeightAt(indices[0], j) <= HeightsOf(indices, acc)[j]
  {
    var h := Heights(indices[0]);
    var acc' := RaiseTo(acc, h);
    assert HeightAt(indices[0], j) == h[j] <= acc'[j];
    HeightsOfKeeps(indices[1..], acc', j);
    assert HeightsOf(indices, acc) == HeightsOf(indices[1..], acc');
  }

  /** No template listed in `indices` is taller, at any of its columns,
      than the result. */
  lemma {:induction false} HeightsOfBound(indices: seq<nat>, acc: seq<int>, j: nat)
    requires forall k | 0 <= k < |indices| :: indices[k] < TemplateCount
    requires forall i | 0 <= i < |acc| :: 0 <= acc[i] <= 5
    ensures forall k | 0 <= k < |indices| && j < Length(indices[k]) ::
      j < |HeightsOf(indices, acc)| && HeightAt(indices[k], j) <= HeightsOf(indices, acc)[j]
  {
    if indices != [] {
      var acc' := RaiseTo(acc, Heights(indices[0]));
      var r := HeightsOf(indices[1..], acc');
      assert HeightsOf(indices, acc) == r;
      HeightsOfBound(indices[1..], acc', j);
      if j < Length(indices[0]) {
        HeightsOfHead(indices, acc, j);
      }
      forall k | 0 < k < |indices| && j < Length(indices[k])
        ensures j < |r| && HeightAt(indices[k], j) <= r[j]
      {
        assert indices[k] == indices[1..][k - 1];
      }
    }
  }

  /** Every height in the result is either what `acc` held or the height
      of one of the templates listed at that column. */
  lemma {:induction false} HeightsOfAttained(indices: seq<nat>, acc: seq<int>, j: nat)
    requires forall k | 0 <= k < |indices| :: indices[k] < TemplateCount
    requires forall i | 0 <= i < |acc| :: 0 <= acc[i] <= 5
    requires j < |HeightsOf(indices, acc)|
    ensures (j < |acc| && HeightsOf(indices, acc)[j] == acc[j]) ||
      exists k | 0 <= k < |indices| :: HeightAt(indices[k], j) == HeightsOf(indices, acc)[j]
  {
    if indices != [] {
      var h := Heights(indices[0]);
      var acc' := RaiseTo(acc, h);
      var r := HeightsOf(indices[1..], acc');
      assert HeightsOf(indices, acc) == r;
      HeightsOfAttained(indices[1..], acc', j);
      if j < |acc'| && r[j] == acc'[j] {
        if j < |h| && acc'[j] == h[j] {
          assert HeightAt(indices[0], j) == r[j];
        }
      } else {
        var k :| 0 <= k < |indices[1..]| && HeightAt(indices[1..][k], j) == r[j];
        assert indices[1..][k] == indices[k + 1];
      }
    }
  }

  /** The height of template `t` at column `j`, or 0 past its end. */
  function HeightAt(t: nat, j: nat): (h: int)
    requires t < TemplateCount
    ensures 0 <= h <= 5
  {
    if j < Length(t) then Heights(t)[j] else 0
  }

  /** `HeightList` of a set of templates is, column by column, the height
      of the tallest template of the set that reaches that column, and it
      reaches as far as the longest of them. */
  lemma HeightListIsMax(templates: set<nat>, j: nat)
    ensures forall t | t in templates && t < TemplateCount ::
      (j < Length(t) ==> j < |HeightList(templates)|) && HeightAt(t, j) <= EntryOr0(HeightList(templates), j)
    ensures j < |HeightList(templates)| ==> exists t | t in templates && t < TemplateCount ::
      HeightAt(t, j) == HeightList(templates)[j]
  {
    var indices := IndicesFrom(templates, 0);
    HeightsOfBound(indices, [], j);
    forall t | t in templates && t < TemplateCount
      ensures (j < Length(t) ==> j < |HeightList(templates)|) && HeightAt(t, j) <= EntryOr0(HeightList(templates), j)
    {
      var k :| 0 <= k < |indices| && indices[k] == t;
      if j >= Length(t) {
        assert HeightAt(t, j) == 0;
      }
    }
    if j < |HeightList(templates)| {
      HeightsOfAttained(indices, [], j);
    }
  }

  /** What a slot holding `templates` says about column `j` of the
      current column: the height of the tallest of them there, or 0. */
  function SlotHeight(templates: set<nat>, j: nat): (h: int)
    ensures 0 <= h <= 5
  {
    TallestFrom(templates, j, 0)
  }

  /** The tallest, at column `j`, of the templates of `templates` from
      template `i` on, or 0. */
  function TallestFrom(templates: set<nat>, j: nat, i: nat): (h: int)
    requires i <= TemplateCount
    ensures 0 <= h <= 5
    decreases TemplateCount - i, templates
  {
    if i == TemplateCount then 0
    else Max(if i in templates then HeightAt(i, j) else 0, TallestFrom(templates, j, i + 1))
  }

  lemma {:induction false} TallestFromIsMax(templates: set<nat>, j: nat, i: nat)
    requires i <= TemplateCount
    ensures forall t | t in templates && i <= t < TemplateCount :: HeightAt(t, j) <= TallestFrom(templates, j, i)
    ensures TallestFrom(templates, j, i) == 0 || exists t | t in templates && i <= t < TemplateCount ::
      HeightAt(t, j) == TallestFrom(templates, j, i)
    decreases TemplateCount - i
  {
    if i < TemplateCount {
      TallestFromIsMax(templates, j, i + 1);
    }
  }

  /** A slot's height at column `j` is that of its tallest template there,
      and 0 when none of them reaches column `j`. */
  lemma SlotHeightIsMax(templates: set<nat>, j: nat)
    ensures forall t | t in templates && t < TemplateCount :: HeightAt(t, j) <= SlotHeight(templates, j)
    ensures SlotHeight(templates, j) == 0 || exists t | t in templates && t < TemplateCount ::
      HeightAt(t, j) == SlotHeight(templates, j)
  {
    TallestFromIsMax(templates, j, 0);
  }

  /** The height list `ColumnHeight` builds and memoizes for a mask gives,
      at every column, the slot's height there: reading past its end gives
      0, as does an empty mask, which the loop skips. */
  lemma HeightListGivesSlotHeight(templates: set<nat>, j: nat)
    ensures EntryOr0(HeightList(templates), j) == SlotHeight(templates, j)
  {
    HeightListIsMax(templates, j);
    SlotHeightIsMax(templates, j);
    var hl := HeightList(templates);
    if j < |hl| {
      var t :| t in templates && t < TemplateCount && HeightAt(t, j) == hl[j];
      if SlotHeight(templates, j) != 0 {
        var u :| u in templates && u < TemplateCount && HeightAt(u, j) == SlotHeight(templates, j);
      }
    } else {
      forall t | t in templates && t < TemplateCount
        ensures HeightAt(t, j) == 0
      {
      }
    }
  }
}
