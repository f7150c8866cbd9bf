/** `HexLibrary.EdgeTemplateOld`: the earlier description of the edge
    templates, as plies of cells parallel to the edge, and `Fit`, which
    checks one template against the board cell by cell.

    Ply `iRow` is `iRow` rows in from the edge. It is `PlyWidths[iRow]`
    cells wide and begins `PlyOffsets[iRow]` cells further along the edge
    than the ply before it. Every cell must be empty, except the
    connecting stone (the cell `ConnectStoneOffset` of the last ply), which
    must hold the owner of the side, and the one don't-care cell, which is
    not looked at. */
module TemplateFits {
  import opened Errors
  import opened Geometry
  import opened ChainSpec
  import opened EdgeTemplates

  datatype OldTemplate = OldTemplate(depth: int, plyWidths: seq<int>, plyOffsets: seq<int>,
                                     connectStoneOffset: int, dontCare: Loc)

  /** The four-argument constructor: no don't-care cell. */
  function Plain(depth: int, plyWidths: seq<int>, plyOffsets: seq<int>, connectStoneOffset: int): (t: OldTemplate)
    ensures t.depth == depth && t.plyWidths == plyWidths && t.plyOffsets == plyOffsets
    ensures t.connectStoneOffset == connectStoneOffset && IsNowhere(t.dontCare)
  {
    OldTemplate(depth, plyWidths, plyOffsets, connectStoneOffset, Nowhere())
  }

  /** `EdgeTemplatesOld`, in the order I, II, IIIa, IIIb, IIIc, IVa, IVb,
      IVc, Va, Vb. */
  const OldTemplates: seq<OldTemplate> := [
    Plain(1, [1], [0], 0),
    Plain(2, [2, 1], [0, 0], 0),
    Plain(3, [4, 3, 2], [0, 0, 0], 0),
    Plain(3, [4, 3, 2], [0, 0, 0], 1),
    OldTemplate(3, [5, 4, 3], [0, 0, 0], 1, Loc(0, 2)),
    Plain(4, [7, 6, 5, 2], [0, 0, 0, 1], 0),
    Plain(4, [7, 6, 5, 2], [0, 0, 0, 1], 1),
    OldTemplate(4, [8, 7, 6, 3], [0, 0, 0, 1], 1, Loc(1, 3)),
    Plain(5, [10, 9, 8, 5, 3], [0, 0, 1, 0], 1),
    Plain(5, [10, 9, 8, 5, 3], [0, 0, 1, 1], 1)
  ]

  /** `SideStarts[side]`: the corner a side starts from, in units of
      `size - 1`. */
  function FitSideStart(side: int): Loc
    requires 0 <= side < 4
  {
    if side == 1 then Loc(1, 0) else if side == 2 then Loc(0, 1) else Loc(0, 0)
  }

  /** `ColIncs[side]`: the step along a side. */
  function FitColInc(side: int): Loc
    requires 0 <= side < 4
  {
    if side == 0 || side == 2 then Loc(1, 0) else Loc(0, 1)
  }

  /** Where `Fit` starts, the steps it takes along the edge and inwards,
      and the colour it looks for. */
  datatype Frame = Frame(start: Loc, colInc: Loc, rowInc: Loc, player: Color)

  /** The first cell `Fit` looks at: `offset` cells along side `side`. */
  function FitStart(size: int, side: int, offset: int): Loc
    requires 0 <= side < 4
  {
    Add(Scale(size - 1, FitSideStart(side)), Scale(offset, FitColInc(side)))
  }

  /** The step from one ply to the next: `(1, 1)` less the step along
      the side, negated for sides 2 and 3. */
  function FitRowInc(side: int): Loc
    requires 0 <= side < 4
  {
    var across := Sub(Loc(1, 1), FitColInc(side));
    if side == 2 || side == 3 then Scale(-1, across) else across
  }

  /** The frame `Fit(side, offset, board)` sets up for a side 0 to 3. */
  function FrameOf(size: int, side: int, offset: int): Frame
    requires 0 <= side < 4
  {
    Frame(FitStart(size, side, offset), FitColInc(side), FitRowInc(side),
          if side == 0 || side == 2 then Black else White)
  }

  /** The sum of the first `n` ply offsets. */
  function OffsetSum(offsets: seq<int>, n: nat): int
    requires n <= |offsets|
  {
    if n == 0 then 0 else OffsetSum(offsets, n - 1) + offsets[n - 1]
  }

  /** The first cell of ply `iRow`. */
  function PlyStart(t: OldTemplate, f: Frame, iRow: nat): Loc
    requires iRow < |t.plyOffsets|
  {
    Add(Add(f.start, Scale(OffsetSum(t.plyOffsets, iRow + 1), f.colInc)), Scale(iRow, f.rowInc))
  }

  /** Cell `iCol` of ply `iRow`. */
  function CellAt(t: OldTemplate, f: Frame, iRow: nat, iCol: nat): Loc
    requires iRow < |t.plyOffsets|
  {
    Add(PlyStart(t, f, iRow), Scale(iCol, f.colInc))
  }

  /** What cell `iCol` of ply `iRow` must hold: the owner at the
      connecting stone, nothing elsewhere. */
  function Expected(t: OldTemplate, f: Frame, iRow: int, iCol: int): (c: Color)
    ensures c == f.player <==> iRow == t.depth - 1 && iCol == t.connectStoneOffset
    ensures c != f.player ==> c == Unoccupied
    requires f.player != Unoccupied
  {
    if iRow == t.depth - 1 && iCol == t.connectStoneOffset then f.player else Unoccupied
  }

  /** The tables reach as deep as the template. */
  predicate Shaped(t: OldTemplate) {
    t.depth <= |t.plyWidths| && t.depth <= |t.plyOffsets|
  }

  /** Cell `iCol` of ply `iRow` is the don't-care cell or is on the board
      holding what it must. */
  predicate CellFits(t: OldTemplate, f: Frame, size: int, cells: map<Loc, Color>, iRow: nat, iCol: nat)
    requires iRow < |t.plyOffsets| && f.player != Unoccupied
  {
    Loc(iRow, iCol) == t.dontCare ||
    (IsValid(CellAt(t, f, iRow, iCol), size) && ColorAt(cells, CellAt(t, f, iRow, iCol)) == Expected(t, f, iRow, iCol))
  }

  /** Every cell of the template fits. */
  predicate AllFit(t: OldTemplate, f: Frame, size: int, cells: map<Loc, Color>)
    requires Shaped(t) && f.player != Unoccupied
  {
    forall iRow: nat, iCol: nat | iRow < t.depth && iCol < t.plyWidths[iRow] :: CellFits(t, f, size, cells, iRow, iCol)
  }

  /** Every cell the template looks at is on the board. */
  predicate OnBoard(t: OldTemplate, f: Frame, size: int)
    requires Shaped(t)
  {
    forall iRow: nat, iCol: nat | iRow < t.depth && iCol < t.plyWidths[iRow] && Loc(iRow, iCol) != t.dontCare ::
      IsValid(CellAt(t, f, iRow, iCol), size)
  }

  /** A cell on the board that does not hold what it must. */
  predicate Mismatch(t: OldTemplate, f: Frame, size: int, cells: map<Loc, Color>, iRow: nat, iCol: nat)
    requires iRow < |t.plyOffsets| && f.player != Unoccupied
  {
    iRow < t.depth && iRow < |t.plyWidths| && iCol < t.plyWidths[iRow] && Loc(iRow, iCol) != t.dontCare &&
    IsValid(CellAt(t, f, iRow, iCol), size) && ColorAt(cells, CellAt(t, f, iRow, iCol)) != Expected(t, f, iRow, iCol)
  }

  /** `EdgeTemplateOld.Fit(side, offset, board)`, with the board given by
      its size and stones. It answers true exactly when every cell of the
      template fits; false only for a cell on the board that holds the
      wrong thing; and it throws for a side outside 0 to 3, for a ply its
      tables do not have, or for a cell off the board. */
  method Fit(t: OldTemplate, side: int, offset: int, size: int, cells: map<Loc, Color>) returns (r: Result<bool>)
    ensures !(0 <= side < 4) ==> r == Fail(IndexOutOfRangeException)
    ensures 0 <= side < 4 ==> (r == Ok(true) <==> Shaped(t) && AllFit(t, FrameOf(size, side, offset), size, cells))
    ensures 0 <= side < 4 && r == Ok(false) ==>
      exists iRow: nat, iCol: nat | iRow < |t.plyOffsets| :: Mismatch(t, FrameOf(size, side, offset), size, cells, iRow, iCol)
    ensures 0 <= side < 4 && r.Fail? ==>
      r.error == IndexOutOfRangeException && !(Shaped(t) && OnBoard(t, FrameOf(size, side, offset), size))
  {
    if !(0 <= side < 4) {
      return Fail(IndexOutOfRangeException);
    }
    var f := FrameOf(size, side, offset);
    r := FitFrame(t, f, size, cells);
  }

  /** The plies of `Fit`, walked from the frame it has set up. */
  method FitFrame(t: OldTemplate, f: Frame, size: int, cells: map<Loc, Color>) returns (r: Result<bool>)
    requires f.player != Unoccupied
    ensures r == Ok(true) <==> Shaped(t) && AllFit(t, f, size, cells)
    ensures r == Ok(false) ==> exists iRow: nat, iCol: nat | iRow < |t.plyOffsets| :: Mismatch(t, f, size, cells, iRow, iCol)
    ensures r.Fail? ==> r.error == IndexOutOfRangeException && !(Shaped(t) && OnBoard(t, f, size))
  {
    var start := f.start;
    var iRow := 0;
    while iRow < t.depth
      invariant iRow <= |t.plyOffsets| && iRow <= |t.plyWidths| && (iRow == 0 || iRow <= t.depth)
      invariant start == RowStart(t, f, iRow)
      invariant forall r: nat, c: nat | r < iRow && c < t.plyWidths[r] :: CellFits(t, f, size, cells, r, c)
    {
      if iRow >= |t.plyOffsets| || iRow >= |t.plyWidths| {
        return Fail(IndexOutOfRangeException);
      }
      start := Add(start, Scale(t.plyOffsets[iRow], f.colInc));
      PlyStartStep(t, f, iRow);
      r := FitPly(t, f, size, cells, iRow, start);
      if r != Ok(true) {
        return;
      }
      start := Add(start, f.rowInc);
      iRow := iRow + 1;
    }
    r := Ok(true);
  }

  /** Where ply `iRow` would begin before its own offset is added. */
  function RowStart(t: OldTemplate, f: Frame, iRow: nat): Loc
    requires iRow <= |t.plyOffsets|
  {
    Add(Add(f.start, Scale(OffsetSum(t.plyOffsets, iRow), f.colInc)), Scale(iRow, f.rowInc))
  }

  /** Adding ply `iRow`'s offset gives its first cell; stepping inwards
      from there gives where ply `iRow + 1` would begin. */
  lemma PlyStartStep(t: OldTemplate, f: Frame, iRow: nat)
    requires iRow < |t.plyOffsets|
    ensures Add(RowStart(t, f, iRow), Scale(t.plyOffsets[iRow], f.colInc)) == PlyStart(t, f, iRow)
    ensures Add(PlyStart(t, f, iRow), f.rowInc) == RowStart(t, f, iRow + 1)
  {
    var n := OffsetSum(t.plyOffsets, iRow);
    var o := t.plyOffsets[iRow];
    assert (n + o) * f.colInc.row == n * f.colInc.row + o * f.colInc.row;
    assert (n + o) * f.colInc.column == n * f.colInc.column + o * f.colInc.column;
    assert (iRow + 1) * f.rowInc.row == iRow * f.rowInc.row + f.rowInc.row;
    assert (iRow + 1) * f.rowInc.column == iRow * f.rowInc.column + f.rowInc.column;
  }

  /** One step along a ply. */
  lemma CellStep(t: OldTemplate, f: Frame, iRow: nat, iCol: nat)
    requires iRow < |t.plyOffsets|
    ensures Add(CellAt(t, f, iRow, iCol), f.colInc) == CellAt(t, f, iRow, iCol + 1)
  {
    assert (iCol + 1) * f.colInc.row == iCol * f.colInc.row + f.colInc.row;
    assert (iCol + 1) * f.colInc.column == iCol * f.colInc.column + f.colInc.column;
  }

  /** The inner loop of `Fit`, over the cells of ply `iRow`. */
  method FitPly(t: OldTemplate, f: Frame, size: int, cells: map<Loc, Color>, iRow: nat, start: Loc)
      returns (r: Result<bool>)
    requires iRow < t.depth && iRow < |t.plyOffsets| && iRow < |t.plyWidths| && f.player != Unoccupied
    requires start == PlyStart(t, f, iRow)
    ensures r == Ok(true) <==> forall c: nat | c < t.plyWidths[iRow] :: CellFits(t, f, size, cells, iRow, c)
    ensures r == Ok(false) ==> exists c: nat :: Mismatch(t, f, size, cells, iRow, c)
    ensures r.Fail? ==> (r.error == IndexOutOfRangeException &&
      exists c: nat | c < t.plyWidths[iRow] :: Loc(iRow, c) != t.dontCare && !IsValid(CellAt(t, f, iRow, c), size))
  {
    var cur := start;
    var iCol := 0;
    while iCol < t.plyWidths[iRow]
      invariant iCol == 0 || iCol <= t.plyWidths[iRow]
      invariant cur == CellAt(t, f, iRow, iCol)
      invariant forall c: nat | c < iCol :: CellFits(t, f, size, cells, iRow, c)
    {
      if Loc(iRow, iCol) != t.dontCare {
        var expected := if iRow == t.depth - 1 && iCol == t.connectStoneOffset then f.player else Unoccupied;
        assert expected == Expected(t, f, iRow, iCol);
        if !IsValid(cur, size) {
          assert !CellFits(t, f, size, cells, iRow, iCol);
          return Fail(IndexOutOfRangeException);
        }
        if ColorAt(cells, cur) != expected {
          assert Mismatch(t, f, size, cells, iRow, iCol) && !CellFits(t, f, size, cells, iRow, iCol);
          return Ok(false);
        }
      }
      CellStep(t, f, iRow, iCol);
      cur := Add(cur, f.colInc);
      iCol := iCol + 1;
    }
    r := Ok(true);
  }

  // ----------------------------------------------------------------------
  // The catalog against the current one.

  /** The first column of ply `iRow`, counted from the template's start. */
  function PlyFirst(t: OldTemplate, iRow: nat): int
    requires iRow < |t.plyOffsets|
  {
    OffsetSum(t.plyOffsets, iRow + 1)
  }

  /** How many of the plies `iRow` onwards cover column `col`: the column's
      height in rows. */
  function CoveredFrom(t: OldTemplate, col: int, iRow: nat): nat
    requires t.depth <= |t.plyOffsets| && t.depth <= |t.plyWidths|
    decreases t.depth - iRow
  {
    if iRow >= t.depth then 0
    else
      (if PlyFirst(t, iRow) <= col < PlyFirst(t, iRow) + t.plyWidths[iRow] then 1 else 0) +
      CoveredFrom(t, col, iRow + 1)
  }

  /** The column heights the plies of `t` give, over the width of its
      first ply. */
  function OldHeights(t: OldTemplate): (h: seq<nat>)
    requires Shaped(t) && 1 <= t.depth
    ensures |h| == if t.plyWidths[0] < 0 then 0 else t.plyWidths[0]
  {
    seq(if t.plyWidths[0] < 0 then 0 else t.plyWidths[0], col => CoveredFrom(t, col, 0))
  }

  /** The column of the connecting stone, counted from the template's
      start. */
  function OldConnectColumn(t: OldTemplate): int
    requires Shaped(t) && 1 <= t.depth
  {
    PlyFirst(t, t.depth - 1) + t.connectStoneOffset
  }

  /** `o` describes the same shape as `n`: its plies give `n`'s column
      heights, its connecting stone is in `n`'s connecting column at the
      top of that column, and the don't-care cell is the same. */
  predicate Agrees(o: OldTemplate, n: EdgeTemplate) {
    Shaped(o) && 1 <= o.depth &&
    OldHeights(o) == n.columnHeights &&
    OldConnectColumn(o) == n.connectStoneColumn &&
    0 <= n.connectStoneColumn < |n.columnHeights| && o.depth == n.columnHeights[n.connectStoneColumn] &&
    o.dontCare == n.dontCare
  }

  /** Templates I to IIIb of the old catalog agree with the current one. */
  lemma ShortTemplatesAgree(k: nat)
    requires k < 4
    ensures Agrees(OldTemplates[k], Templates[k])
  {
    if k == 0 {
      assert OldHeights(OldTemplates[0]) == [1];
    } else if k == 1 {
      assert OldHeights(OldTemplates[1]) == [2, 1];
    } else if k == 2 {
      assert OldHeights(OldTemplates[2]) == [3, 3, 2, 1];
    } else {
      assert OldHeights(OldTemplates[3]) == [3, 3, 2, 1];
    }
  }

  /** Templates IIIc and IVa of the old catalog agree with the current
      one. */
  lemma MiddleTemplatesAgree(k: nat)
    requires k == IIIc || k == IVa
    ensures Agrees(OldTemplates[k], Templates[k])
  {
    if k == IIIc {
      assert OldHeights(OldTemplates[4]) == [3, 3, 3, 2, 1];
    } else {
      assert OldHeights(OldTemplates[5]) == [3, 4, 4, 3, 3, 2, 1];
    }
  }

  /** Templates IVb and IVc of the old catalog agree with the current
      one. */
  lemma LongTemplatesAgree(k: nat)
    requires k == IVb || k == IVc
    ensures Agrees(OldTemplates[k], Templates[k])
  {
    if k == IVb {
      assert OldHeights(OldTemplates[6]) == [3, 4, 4, 3, 3, 2, 1];
    } else {
      assert OldHeights(OldTemplates[7]) == [3, 4, 4, 4, 3, 3, 2, 1];
    }
  }

  /** The old catalog has the ten templates of the current one, in the same
      order, and I to IVc agree. The tables of Va and Vb give five plies but
      only four ply offsets, so `Fit` never answers true for them. */
  lemma OldCatalogAgrees()
    ensures |OldTemplates| == |Templates|
    ensures forall k | 0 <= k < 8 :: Agrees(OldTemplates[k], Templates[k])
    ensures !Shaped(OldTemplates[Va]) && !Shaped(OldTemplates[Vb])
  {
    forall k | 0 <= k < 8
      ensures Agrees(OldTemplates[k], Templates[k])
    {
      if k < 4 {
        ShortTemplatesAgree(k);
      } else if k < 6 {
        MiddleTemplatesAgree(k);
      } else {
        LongTemplatesAgree(k);
      }
    }
  }

  // ----------------------------------------------------------------------
  // Where the cells lie.

  /** The frame of side 0 or 2, written out. */
  lemma BlackFrame(size: int, side: int, offset: int)
    requires side == 0 || side == 2
    ensures FrameOf(size, side, offset) ==
      if side == 0 then Frame(Loc(offset, 0), Loc(1, 0), Loc(0, 1), Black)
      else Frame(Loc(offset, size - 1), Loc(1, 0), Loc(0, -1), Black)
  {
    var colInc := FitColInc(side);
    assert colInc == Loc(1, 0);
    assert Scale(offset, colInc) == Loc(offset, 0);
    if side == 0 {
      assert Scale(size - 1, FitSideStart(side)) == Loc(0, 0);
      assert Scale(1, Sub(Loc(1, 1), colInc)) == Loc(0, 1);
    } else {
      assert Scale(size - 1, FitSideStart(side)) == Loc(0, size - 1);
      assert Scale(-1, Sub(Loc(1, 1), colInc)) == Loc(0, -1);
    }
  }

  /** The frame of side 1 or 3, written out. */
  lemma WhiteFrame(size: int, side: int, offset: int)
    requires side == 1 || side == 3
    ensures FrameOf(size, side, offset) ==
      if side == 1 then Frame(Loc(size - 1, offset), Loc(0, 1), Loc(1, 0), White)
      else Frame(Loc(0, offset), Loc(0, 1), Loc(-1, 0), White)
  {
    var colInc := FitColInc(side);
    assert colInc == Loc(0, 1);
    assert Scale(offset, colInc) == Loc(0, offset);
    if side == 1 {
      assert Scale(size - 1, FitSideStart(side)) == Loc(size - 1, 0);
      assert Scale(1, Sub(Loc(1, 1), colInc)) == Loc(1, 0);
    } else {
      assert Scale(size - 1, FitSideStart(side)) == Loc(0, 0);
      assert Scale(-1, Sub(Loc(1, 1), colInc)) == Loc(-1, 0);
    }
  }

  /** A cell of a frame that steps down a column and one column across,
      as the frames of the two Black sides do (BlackFrame): ply `iRow`
      lies `iRow` columns in from the start column, and its cell `iCol`
      is `iCol` rows past the ply's start. */
  lemma ColumnCell(t: OldTemplate, f: Frame, iRow: nat, iCol: nat)
    requires iRow < |t.plyOffsets|
    requires f.colInc == Loc(1, 0) && (f.rowInc == Loc(0, 1) || f.rowInc == Loc(0, -1))
    ensures CellAt(t, f, iRow, iCol) ==
      Loc(f.start.row + OffsetSum(t.plyOffsets, iRow + 1) + iCol,
          if f.rowInc.column == 1 then f.start.column + iRow else f.start.column - iRow)
  {
  }

  /** In a frame that steps along a row, every cell of ply `iRow` is on
      the same row. */
  lemma CellRowAcross(t: OldTemplate, f: Frame, iRow: nat, iCol: nat)
    requires iRow < |t.plyOffsets| && f.colInc.row == 0
    ensures CellAt(t, f, iRow, iCol).row == f.start.row + iRow * f.rowInc.row
  {
    assert OffsetSum(t.plyOffsets, iRow + 1) * f.colInc.row == 0;
    assert iCol * f.colInc.row == 0;
  }

  /** On the two White sides the step inwards points away from the board:
      from ply 1 on, side 1 is below the last row and side 3 above row 0.
      Every cell there is off the board. */
  lemma CellsOffWhiteSides(t: OldTemplate, size: int, side: int, offset: int, iRow: nat, iCol: nat)
    requires side == 1 || side == 3
    requires 1 <= iRow < |t.plyOffsets|
    ensures side == 1 ==> CellAt(t, FrameOf(size, side, offset), iRow, iCol).row == size - 1 + iRow
    ensures side == 3 ==> CellAt(t, FrameOf(size, side, offset), iRow, iCol).row == -(iRow as int)
    ensures !IsValid(CellAt(t, FrameOf(size, side, offset), iRow, iCol), size)
  {
    var f := FrameOf(size, side, offset);
    WhiteFrame(size, side, offset);
    CellRowAcross(t, f, iRow, iCol);
    if side == 1 {
      assert iRow * f.rowInc.row == iRow;
    } else {
      assert iRow * f.rowInc.row == -(iRow as int);
    }
  }

  /** A looked-at cell off the board keeps a template from fitting. */
  lemma OffBoardCellSpoils(t: OldTemplate, f: Frame, size: int, cells: map<Loc, Color>, iRow: nat, iCol: nat)
    requires Shaped(t) && f.player != Unoccupied
    requires iRow < t.depth && iCol < t.plyWidths[iRow] && Loc(iRow, iCol) != t.dontCare
    requires !IsValid(CellAt(t, f, iRow, iCol), size)
    ensures !AllFit(t, f, size, cells) && !OnBoard(t, f, size)
  {
    assert !CellFits(t, f, size, cells, iRow, iCol);
  }

  /** So on sides 1 and 3 no template with a looked-at cell in its second
      ply fits, whatever the board: `Fit` answers false or throws. */
  lemma NoFitOnWhiteSides(t: OldTemplate, size: int, side: int, offset: int, cells: map<Loc, Color>)
    requires side == 1 || side == 3
    requires Shaped(t) && 2 <= t.depth && 1 <= t.plyWidths[1] && t.dontCare != Loc(1, 0)
    ensures !AllFit(t, FrameOf(size, side, offset), size, cells)
  {
    CellsOffWhiteSides(t, size, side, offset, 1, 0);
    OffBoardCellSpoils(t, FrameOf(size, side, offset), size, cells, 1, 0);
  }
}
