/** `HexLibrary.CheckState`: the edge scanner's state, updated in place.
    `_masks` is a fixed-size array of template sets and the cursor is the
    three fields `_tCol`, `_pCol` and `_row`. Every method is proved to do
    exactly what the matching function of ScanSpec does to the abstract
    state `Abs()`, so the lemmas proved there about those functions hold of
    the class. A method that can throw returns the exception instead; the
    state it leaves behind then does not matter, since the exception ends
    the scan. */
module CheckStates {
  import opened Errors
  import opened Geometry
  import opened ChainSpec
  import opened EdgeTemplates
  import opened ScanSpec

  /** A method's outcome and the state it leaves, read as the result of
      the function that specifies it. */
  function AsResult(o: Outcome, s: Scan): Result<Scan> {
    if o.Pass? then Ok(s) else Fail(o.error)
  }

  /** The same for the transitions that also extend the list of found
      connections. */
  function AsStep(r: Result<seq<Connection>>, s: Scan): Result<Step> {
    if r.Ok? then Ok(Step(s, r.value)) else Fail(r.error)
  }

  /** The heights the first `i` rounds of the loop of `ColumnHeight` look
      at. */
  function HeightsSoFar(ms: seq<set<nat>>, pCol: nat, tCol: nat, i: nat): (hs: seq<int>)
    requires i <= tCol + 1 && (i == 0 || pCol + i <= |ms|)
    ensures |hs| == i
  {
    seq(i, k requires 0 <= k < i => SlotHeight(ms[pCol + k], tCol - k))
  }

  /** One more round of that loop. */
  lemma HeightsSoFarStep(ms: seq<set<nat>>, pCol: nat, tCol: nat, i: nat)
    requires i <= tCol && pCol + i < |ms|
    ensures HeightsSoFar(ms, pCol, tCol, i + 1)
         == HeightsSoFar(ms, pCol, tCol, i) + [SlotHeight(ms[pCol + i], tCol - i)]
    ensures MaxOf(HeightsSoFar(ms, pCol, tCol, i + 1))
         == Max(MaxOf(HeightsSoFar(ms, pCol, tCol, i)), SlotHeight(ms[pCol + i], tCol - i))
  {
    var hs := HeightsSoFar(ms, pCol, tCol, i + 1);
    assert hs[..i] == HeightsSoFar(ms, pCol, tCol, i);
  }

  /** The inner loop of `ColumnHeight`: raise `acc` column by column to the
      heights of one template, adding a zero entry first wherever `acc`
      is too short. */
  method RaiseEach(acc: seq<int>, heights: seq<int>) returns (htList: seq<int>)
    ensures htList == RaiseTo(acc, heights)
  {
    htList := acc;
    var iCol := 0;
    while iCol < |heights|
      invariant 0 <= iCol <= |heights|
      invariant |htList| == if |acc| < iCol then iCol else |acc|
      invariant forall j | 0 <= j < |htList| ::
        htList[j] == if j < iCol then Max(EntryOr0(acc, j), heights[j]) else acc[j]
    {
      if iCol >= |htList| {
        htList := htList + [0];
      }
      if heights[iCol] > htList[iCol] {
        htList := htList[iCol := heights[iCol]];
      }
      iCol := iCol + 1;
    }
    var r := RaiseTo(acc, heights);
    assert forall j | 0 <= j < |r| :: htList[j] == r[j];
  }

  /** The height list `ColumnHeight` builds for a mask: the templates that
      `IndicesFromMask` yields, in index order, each folded in by the inner
      loop. */
  method HeightListOf(mask: set<nat>) returns (htList: seq<int>)
    ensures htList == HeightList(mask)
  {
    htList := [];
    var itmp := 0;
    while itmp < TemplateCount
      invariant 0 <= itmp <= TemplateCount
      invariant forall j | 0 <= j < |htList| :: 0 <= htList[j] <= 5
      invariant HeightsOf(IndicesFrom(mask, itmp), htList) == HeightList(mask)
    {
      htList := FoldTemplate(mask, itmp, htList);
      itmp := itmp + 1;
    }
  }

  /** The body of that loop for template `itmp`, which is folded in when
      the mask holds it. */
  method FoldTemplate(mask: set<nat>, itmp: nat, htList: seq<int>) returns (r: seq<int>)
    requires itmp < TemplateCount
    requires forall j | 0 <= j < |htList| :: 0 <= htList[j] <= 5
    ensures forall j | 0 <= j < |r| :: 0 <= r[j] <= 5
    ensures HeightsOf(IndicesFrom(mask, itmp + 1), r) == HeightsOf(IndicesFrom(mask, itmp), htList)
  {
    HeightsOfFrom(mask, itmp, htList);
    r := htList;
    if itmp in mask {
      var heights := Heights(itmp);
      r := RaiseEach(htList, heights);
      forall j | 0 <= j < |r|
        ensures 0 <= r[j] <= 5
      {
        assert r[j] == if j < |heights| then Max(EntryOr0(htList, j), heights[j]) else htList[j];
      }
    }
  }

  /** One round of the generator `IndicesFromMask` and the loop over what
      it yields. */
  lemma HeightsOfFrom(mask: set<nat>, i: nat, acc: seq<int>)
    requires i < TemplateCount
    requires forall j | 0 <= j < |acc| :: 0 <= acc[j] <= 5
    ensures HeightsOf(IndicesFrom(mask, i), acc)
         == HeightsOf(IndicesFrom(mask, i + 1), if i in mask then RaiseTo(acc, Heights(i)) else acc)
  {
    var rest := IndicesFrom(mask, i + 1);
    if i in mask {
      assert IndicesFrom(mask, i) == [i] + rest;
      assert ([i] + rest)[1..] == rest;
    } else {
      assert IndicesFrom(mask, i) == rest;
    }
  }

  /** The body of the loop of `ColumnHeight` for one slot `m`, whose
      templates began `index` columns before the current one: an empty
      slot is skipped, and otherwise its height list raises `ret` to the
      height it gives at `index`, if it reaches that far. */
  method TallerOf(ret: int, m: set<nat>, index: nat) returns (r: int)
    requires 0 <= ret
    ensures r == Max(ret, SlotHeight(m, index))
  {
    SlotHeightIsMax(m, index);
    r := ret;
    if m == {} {
      return;
    }
    var list := HeightListOf(m);
    HeightListGivesSlotHeight(m, index);
    if |list| > index && list[index] > ret {
      r := list[index];
    }
  }

  class CheckState {
    /** The board size and the side's start cell and increments. */
    const edge: Edge
    const masks: array<set<nat>>
    var tCol: nat
    var pCol: nat
    var row: nat

    ghost function Abs(): Scan
      reads this, masks
    {
      Scan(masks[..], tCol, pCol, row)
    }

    /** `new CheckState(board, side)` for a side 0 to 3: every slot holds
        every template but I, and the cursor is at the start. */
    constructor (size: nat, side: nat)
      requires side < 4
      ensures edge == EdgeOf(size, side) && Abs() == Initial(size) && fresh(masks)
    {
      edge := Edge(size, Scale(size - 1, SideStarts[side]), ColIncs[side], RowIncs[side]);
      masks := new set<nat>[size](k => AllButI);
      tCol, pCol, row := 0, 0, 0;
      new;
      assert masks[..] == Initial(size).masks;
    }

    /** `Done`. */
    function Done(): (r: bool)
      reads this, masks
      ensures r == ScanSpec.Done(edge, Abs())
    {
      pCol >= edge.size - 1
    }

    /** `Position`. */
    function Position(): (l: Loc)
      reads this, masks
      ensures l == ScanSpec.Position(edge, Abs())
    {
      Add(Add(edge.sideStart, Scale(pCol + tCol, edge.colInc)), Scale(row, edge.rowInc))
    }

    /** `Stone()`: the board's colour at `Position`. */
    method Stone(cells: map<Loc, Color>) returns (r: Result<Color>)
      ensures r == ScanSpec.Stone(edge, cells, Abs())
    {
      var l := Position();
      if !IsValid(l, edge.size) {
        return Fail(IndexOutOfRangeException);
      }
      r := Ok(ColorAt(cells, l));
    }

    method AllowOnly(relIndex: int, mask: set<nat>) returns (o: Outcome)
      modifies masks
      ensures AsResult(o, Abs()) == ScanSpec.AllowOnly(old(Abs()), relIndex, mask)
    {
      if tCol >= -relIndex {
        var k := tCol + relIndex + pCol;
        if k >= masks.Length {
          return Throw(IndexOutOfRangeException);
        }
        masks[k] := masks[k] * mask;
      }
      o := Pass;
    }

    /** `Eliminate`, without its log line. */
    method Eliminate(relIndex: int, mask: set<nat>) returns (o: Outcome)
      modifies masks
      ensures AsResult(o, Abs()) == ScanSpec.Eliminate(old(Abs()), relIndex, mask)
    {
      if tCol < -relIndex {
        return Pass;
      }
      var k := tCol + relIndex + pCol;
      if k >= masks.Length {
        return Throw(IndexOutOfRangeException);
      }
      masks[k] := masks[k] - mask;
      o := Pass;
    }

    method AdvanceColumn()
      modifies this
      ensures Abs() == ScanSpec.AdvanceColumn(old(Abs()))
    {
      tCol := tCol + 1;
      row := 0;
    }

    method AdvanceQueue()
      requires tCol > 0
      modifies this
      ensures Abs() == ScanSpec.AdvanceQueue(old(Abs()))
    {
      tCol := tCol - 1;
      pCol := pCol + 1;
    }

    method CheckMask() returns (o: Outcome)
      modifies this
      ensures AsResult(o, Abs()) == ScanSpec.CheckMask(old(Abs()))
    {
      while true
        invariant ScanSpec.CheckMask(Abs()) == ScanSpec.CheckMask(old(Abs()))
        decreases tCol
      {
        if pCol >= masks.Length {
          return Throw(IndexOutOfRangeException);
        }
        if !(masks[pCol] == {} && tCol > 0) {
          return Pass;
        }
        AdvanceQueue();
      }
    }

    method AdvanceTo(relIndex: int)
      requires relIndex <= 0
      modifies this
      ensures Abs() == ScanSpec.AdvanceTo(old(Abs()), relIndex)
    {
      if tCol <= -relIndex {
        return;
      }
      while tCol > -relIndex
        invariant ScanSpec.AdvanceTo(Abs(), relIndex) == ScanSpec.AdvanceTo(old(Abs()), relIndex)
        decreases tCol
      {
        AdvanceQueue();
      }
    }

    /** The `switch` of `EliminateConnectingStone`. */
    method ConnectingStone(d: int) returns (o: Outcome)
      modifies masks
      ensures AsResult(o, Abs()) == ScanSpec.ConnectingStone(old(Abs()), d)
    {
      if d == 0 {
        o := Pass;
      } else if d == 1 {
        o := Eliminate(0, {II});
      } else if d == 2 {
        o := Eliminate(0, {IIIa});
        if o.Pass? {
          o := Eliminate(-1, {IIIb});
          if o.Pass? {
            o := Eliminate(-1, {IIIc});
          }
        }
      } else if d == 3 {
        o := Eliminate(-1, {IVa});
        if o.Pass? {
          o := Eliminate(-2, {IVb});
          if o.Pass? {
            o := Eliminate(-2, {IVc});
          }
        }
      } else if d == 4 {
        o := Eliminate(-2, {Va});
        if o.Pass? {
          o := Eliminate(-3, {Vb});
        }
      } else {
        o := Throw(InvalidOperationException);
      }
    }

    /** `EliminateConnectingStone(row)`; a negative `row` means the current
        row. */
    method EliminateConnectingStone(r: int) returns (o: Outcome)
      modifies this, masks
      ensures AsResult(o, Abs()) == ScanSpec.EliminateConnectingStone(old(Abs()), r)
    {
      var d := if r < 0 then row else r;
      o := ConnectingStone(d);
      if o.Pass? {
        o := CheckMask();
      }
    }

    /** `ColumnHeight()`, computing each slot's height list afresh. */
    method ColumnHeight() returns (r: Result<int>)
      ensures r == ScanSpec.ColumnHeight(Abs())
    {
      var ret := 0;
      var i := 0;
      while i <= tCol
        invariant 0 <= i <= tCol + 1 && (i == 0 || pCol + i <= masks.Length)
        invariant ret == MaxOf(HeightsSoFar(masks[..], pCol, tCol, i)) && 0 <= ret
      {
        if i + pCol >= masks.Length {
          return Fail(IndexOutOfRangeException);
        }
        HeightsSoFarStep(masks[..], pCol, tCol, i);
        ret := TallerOf(ret, masks[i + pCol], tCol - i);
        i := i + 1;
      }
      assert HeightsSoFar(masks[..], pCol, tCol, i) == LiveHeights(Abs());
      r := Ok(ret);
    }

    // ------------------------------------------------------------------
    // An empty cell.

    /** The report of the one template left in `mask`, which is dropped
        from slot `pCol`. */
    method Report(found: seq<Connection>, mask: set<nat>) returns (r: Result<seq<Connection>>)
      requires 0 <= pCol < masks.Length && mask <= masks[pCol] && mask != {} && |mask| < 2
      requires forall t | t in mask :: t < TemplateCount
      modifies this, masks
      ensures AsStep(r, Abs()) == ScanSpec.Report(edge, old(Abs()), found, mask)
    {
      SingleMask(mask);
      var t := IndexFromMask(mask).value;
      var connection := Connection(t, HitLocation(edge, pCol, t));
      masks[pCol] := masks[pCol] - mask;
      var o := CheckMask();
      if o.Throw? {
        return Fail(o.error);
      }
      r := Ok(found + [connection]);
    }

    /** Row 0 of `ProcessUnoccupied`. */
    method EdgeHit(found: seq<Connection>) returns (r: Result<seq<Connection>>)
      modifies this, masks
      ensures AsStep(r, Abs()) == ScanSpec.EdgeHit(edge, old(Abs()), found)
    {
      var o := Eliminate(-2, {IIIc});
      if o.Throw? {
        return Fail(o.error);
      }
      if tCol == 0 {
        return Ok(found);
      }
      if tCol >= |LengthMasks| || pCol >= masks.Length {
        return Fail(IndexOutOfRangeException);
      }
      var mask := TemplatesOf(LengthMasks[tCol]) * masks[pCol];
      if mask == {} {
        return Ok(found);
      }
      if |mask| >= 2 {
        return Fail(InvalidOperationException);
      }
      r := Report(found, mask);
    }

    /** `++_row`, and the move to the next column once the row reaches the
        column height. */
    method MoveDown(found: seq<Connection>) returns (r: Result<seq<Connection>>)
      modifies this, masks
      ensures AsStep(r, Abs()) == ScanSpec.MoveDown(edge, old(Abs()), found)
    {
      row := row + 1;
      var h := ColumnHeight();
      if h.Fail? {
        return Fail(h.error);
      }
      if row >= h.value {
        var o := NextColumn();
        if o.Throw? {
          return Fail(o.error);
        }
      }
      r := Ok(found);
    }

    /** The move to the next column in `ProcessUnoccupied`, which opens
        that column's slot. */
    method NextColumn() returns (o: Outcome)
      modifies this, masks
      ensures AsResult(o, Abs()) == ScanSpec.NextColumn(edge, old(Abs()))
    {
      tCol := tCol + 1;
      row := 0;
      var idx := Min(|TmpsByLength| - 1, edge.size - pCol - tCol);
      if idx < 0 || pCol + tCol >= masks.Length {
        return Throw(IndexOutOfRangeException);
      }
      masks[pCol + tCol] := TemplatesOf(TmpsByLength[idx]);
      o := Pass;
    }

    method ProcessUnoccupied(found: seq<Connection>) returns (r: Result<seq<Connection>>)
      modifies this, masks
      ensures AsStep(r, Abs()) == ScanSpec.ProcessUnoccupied(edge, old(Abs()), found)
    {
      var ret := found;
      if row == 0 {
        r := EdgeHit(found);
        if r.Fail? {
          return;
        }
        ret := r.value;
      }
      if row == 1 {
        var o := Eliminate(-3, {IVc});
        if o.Throw? {
          return Fail(o.error);
        }
      }
      var o := EliminateConnectingStone(-1);
      if o.Throw? {
        return Fail(o.error);
      }
      r := MoveDown(ret);
    }

    // ------------------------------------------------------------------
    // An enemy stone.

    /** The loop of `ProcessUnfriendly`, which reads the column height
        again every round. */
    method UnfriendlyRows() returns (o: Outcome)
      modifies this, masks
      ensures AsResult(o, Abs()) == ScanSpec.UnfriendlyRows(old(Abs()), old(row))
    {
      var iRow := row;
      while true
        invariant ScanSpec.UnfriendlyRows(Abs(), iRow) == ScanSpec.UnfriendlyRows(old(Abs()), old(row))
        decreases 5 - iRow
      {
        var h := ColumnHeight();
        if h.Fail? {
          return Throw(h.error);
        }
        if iRow >= h.value {
          return Pass;
        }
        o := EliminateConnectingStone(iRow);
        if o.Throw? {
          return;
        }
        iRow := iRow + 1;
      }
    }

    /** The don't-care cell of IIIc (`back` 2) or IVc (`back` 3). */
    method PinDontCare(back: nat, t: nat) returns (o: Outcome)
      requires back == 2 || back == 3
      requires tCol >= back
      modifies this, masks
      ensures AsResult(o, Abs()) == ScanSpec.PinDontCare(old(Abs()), back, t)
    {
      AdvanceTo(-(back as int));
      if pCol + back >= masks.Length {
        return Throw(IndexOutOfRangeException);
      }
      ghost var n := ScanSpec.PinDontCare(old(Abs()), back, t).value;
      masks[pCol] := {t};
      masks[pCol + 1] := {};
      masks[pCol + 2] := {};
      if back == 3 {
        masks[pCol + 3] := {};
      }
      row := row + 1;
      o := Pass;
      assert pCol == n.pCol;
      assert forall k | 0 <= k < masks.Length :: masks[k] == n.masks[k];
      assert masks[..] == n.masks;
    }

    /** The second `switch` of `ProcessUnfriendly`. */
    method Enemy() returns (o: Outcome)
      modifies this, masks
      ensures AsResult(o, Abs()) == ScanSpec.Enemy(old(Abs()))
    {
      if row <= 1 {
        pCol := pCol + tCol + 1;
        tCol := 0;
        row := 0;
        return Pass;
      } else if row == 2 {
        o := EnemyAt2();
      } else if row == 3 {
        o := EnemyAt3();
      } else if row == 4 {
        o := EnemyAt4();
      } else {
        o := Pass;
      }
    }

    /** Row 2 of that `switch`: only the templates that may have their
        don't-care or empty cells here stay where they can. */
    method EnemyAt2() returns (o: Outcome)
      requires row == 2
      modifies this, masks
      ensures AsResult(o, Abs()) == ScanSpec.Enemy(old(Abs()))
    {
      o := AllowOnly(-2, {IIIa, IIIb});
      if o.Throw? { return; }
      o := AllowOnly(-3, {IIIc});
      if o.Throw? { return; }
      o := AllowOnly(-5, {IVa, IVb});
      if o.Throw? { return; }
      o := AllowOnly(-6, {IVc});
      if o.Throw? { return; }
      o := AllowOnly(-9, {Va, Vb});
      if o.Throw? { return; }
      o := FinishColumn();
    }

    /** Row 3 of that `switch`. */
    method EnemyAt3() returns (o: Outcome)
      requires row == 3
      modifies this, masks
      ensures AsResult(o, Abs()) == ScanSpec.Enemy(old(Abs()))
    {
      o := AllowOnly(-3, {IVa, IVb});
      if o.Throw? { return; }
      o := AllowOnly(-4, {IVc});
      if o.Throw? { return; }
      o := AllowOnly(-6, {Va, Vb});
      if o.Throw? { return; }
      o := FinishColumn();
    }

    /** Row 4 of that `switch`: Va and Vb are ruled out in the slots from
        which this cell would be one of theirs. */
    method EnemyAt4() returns (o: Outcome)
      requires row == 4
      modifies this, masks
      ensures AsResult(o, Abs()) == ScanSpec.Enemy(old(Abs()))
    {
      ghost var s0 := Abs();
      var index := tCol as int - 4;
      o := Drop(index, {Vb});
      if o.Throw? { return; }
      ghost var s1 := Abs();
      assert ScanSpec.Eliminate(s0, -4, {Vb}) == Ok(s1);
      index := index + 1;
      o := Drop(index, {Va, Vb});
      if o.Throw? { return; }
      ghost var s2 := Abs();
      assert ScanSpec.Eliminate(s1, -3, {Va, Vb}) == Ok(s2);
      index := index + 1;
      o := Drop(index, {Va, Vb});
      if o.Throw? { return; }
      ghost var s3 := Abs();
      assert ScanSpec.Eliminate(s2, -2, {Va, Vb}) == Ok(s3);
      index := index + 1;
      o := Drop(index, {Va});
      if o.Throw? { return; }
      assert ScanSpec.Eliminate(s3, -1, {Va}) == Ok(Abs());
      o := FinishColumn();
    }

    /** A step of row 4 of that `switch`, which writes the slots itself:
        `if (index >= 0) _masks[_pCol + index] &= ~mask`. That is
        `Eliminate` at offset `index - tCol`. */
    method Drop(index: int, mask: set<nat>) returns (o: Outcome)
      modifies masks
      ensures AsResult(o, Abs()) == ScanSpec.Eliminate(old(Abs()), index - tCol, mask)
    {
      if index >= 0 {
        if pCol + index >= masks.Length {
          return Throw(IndexOutOfRangeException);
        }
        masks[pCol + index] := masks[pCol + index] - mask;
      }
      o := Pass;
    }

    /** `CheckMask()` and then `AdvanceColumn()`. */
    method FinishColumn() returns (o: Outcome)
      modifies this
      ensures AsResult(o, Abs()) == ScanSpec.FinishColumn(old(Abs()))
    {
      o := CheckMask();
      if o.Pass? {
        AdvanceColumn();
      }
    }

    /** The first `switch` of `ProcessUnfriendly`, falling through to the
        second. */
    method DontCare() returns (o: Outcome)
      modifies this, masks
      ensures AsResult(o, Abs()) == ScanSpec.DontCare(old(Abs()))
    {
      if row == 0 && tCol >= 2 {
        if pCol + tCol - 2 >= masks.Length {
          return Throw(IndexOutOfRangeException);
        }
        if IIIc in masks[pCol + tCol - 2] {
          o := PinDontCare(2, IIIc);
          return;
        }
      } else if row == 1 && tCol >= 3 {
        if pCol + tCol - 3 >= masks.Length {
          return Throw(IndexOutOfRangeException);
        }
        if IVc in masks[pCol + tCol - 3] {
          o := PinDontCare(3, IVc);
          return;
        }
      }
      o := Enemy();
    }

    method ProcessUnfriendly() returns (o: Outcome)
      modifies this, masks
      ensures AsResult(o, Abs()) == ScanSpec.ProcessUnfriendly(old(Abs()))
    {
      o := UnfriendlyRows();
      if o.Pass? {
        o := DontCare();
      }
    }

    // ------------------------------------------------------------------
    // A friendly stone.

    method ProcessFriendly(found: seq<Connection>) returns (r: Result<seq<Connection>>)
      modifies this, masks
      ensures AsStep(r, Abs()) == ScanSpec.ProcessFriendly(edge, old(Abs()), found)
    {
      var ret := found;
      if row == 0 {
        ret := found + [Connection(I, Position())];
        pCol := pCol + tCol;
        tCol := 0;
        if pCol >= masks.Length {
          return Fail(IndexOutOfRangeException);
        }
        masks[pCol] := {};
      } else if row == 1 {
        AdvanceTo(0);
        if pCol >= masks.Length {
          return Fail(IndexOutOfRangeException);
        }
        masks[pCol] := {II};
      } else if row <= 4 {
        var o := FriendlyDeep();
        if o.Throw? {
          return Fail(o.error);
        }
        return Ok(found);
      } else {
        return Fail(InvalidOperationException);
      }
      AdvanceColumn();
      r := Ok(ret);
    }

    /** Rows 2 to 4 of `ProcessFriendly`, with its final `AdvanceColumn`. */
    method FriendlyDeep() returns (o: Outcome)
      requires 2 <= row <= 4
      modifies this, masks
      ensures AsResult(o, Abs()) == ScanSpec.FriendlyDeep(old(Abs()))
    {
      if row == 2 {
        o := AllowOnly(-1, {IIIb, IIIc});
        if o.Throw? { return; }
        o := AllowOnly(0, {IIIa});
        if o.Throw? { return; }
      } else if row == 3 {
        o := AllowOnly(-1, {IVa});
        if o.Throw? { return; }
        o := AllowOnly(-2, {IVb, IVc});
        if o.Throw? { return; }
      } else {
        o := AllowOnly(-2, {Va});
        if o.Throw? { return; }
        o := AllowOnly(-3, {Vb});
        if o.Throw? { return; }
      }
      o := FinishColumn();
    }
  }
}
