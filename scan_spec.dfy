/** The edge scanner of `CheckState`, as functions on a value of its state.

    The scanner walks one side of the board column by column along the
    edge. In each column it walks inwards row by row, and it stops in a
    column once no template still alive reaches that row. `masks[k]` holds
    the templates that may still be laid down with their first column at
    position `k` along the edge. `pCol` is the first position that may
    still start a template, `tCol` the current column relative to `pCol`,
    and `row` the depth of the current cell.

    A mask of the source (one bit per template) is the set of template
    indices whose bits are set; `EdgeTemplates.TemplatesOf` reads a mask of the
    tables that way.

    Every C# step that can throw returns a `Result`. An out-of-range index
    into `_masks` or a table is `IndexOutOfRangeException`. The exception
    ends the whole scan, so the state after a failure is never looked at. */
module ScanSpec {
  import opened Errors
  import opened Geometry
  import opened ChainSpec
  import opened EdgeTemplates

  /** `EdgeTemplateConnection`: a template found, and where. */
  datatype Connection = Connection(templateType: int, location: Loc)

  /** The fixed part of a scan: the board size, the cell the side starts
      at, and the steps along the edge and inwards. */
  datatype Edge = Edge(size: int, sideStart: Loc, colInc: Loc, rowInc: Loc)

  const SideStarts: seq<Loc> := [Loc(0, 0), Loc(1, 0), Loc(0, 1), Loc(0, 0)]
  const RowIncs: seq<Loc> := [Loc(0, 1), Loc(-1, 0), Loc(0, -1), Loc(1, 0)]
  const ColIncs: seq<Loc> := [Loc(1, 0), Loc(0, 1), Loc(1, 0), Loc(0, 1)]

  /** The frame the constructor sets up for side `side`. */
  function EdgeOf(size: int, side: nat): Edge
    requires side < 4
  {
    Edge(size, Scale(size - 1, SideStarts[side]), ColIncs[side], RowIncs[side])
  }

  /** The colour whose edge side `side` is: Black for sides 0 and 2, White
      for sides 1 and 3. */
  function Owner(side: int): (c: Color)
    ensures c == Black <==> side == 0 || side == 2
    ensures c != Unoccupied
  {
    if side == 0 || side == 2 then Black else White
  }

  /** The scanner's state: the slots of `_masks`, and the cursor. */
  datatype Scan = Scan(masks: seq<set<nat>>, tCol: nat, pCol: nat, row: nat)

  /** The mask every slot starts with. */
  const AllButI: set<nat> := TemplatesOf(0x3fe)

  /** The state the constructor builds: every slot `0x3fe`, which is the
      last entry of `TmpsByLength` and holds every template but I, and the
      cursor at the start. */
  function Initial(size: nat): (s: Scan)
    ensures |s.masks| == size && s.tCol == 0 && s.pCol == 0 && s.row == 0
    ensures forall k | 0 <= k < size :: s.masks[k] == AllButI
    ensures AllButI == TemplatesOf(TmpsByLength[|TmpsByLength| - 1])
    ensures forall t :: t in AllButI <==> 1 <= t < TemplateCount
  {
    TmpsLast();
    AllButIMembers();
    Scan(seq(size, k => AllButI), 0, 0, 0)
  }

  lemma AllButIMembers()
    ensures forall t :: t in AllButI <==> 1 <= t < TemplateCount
  {
    forall t | 0 <= t < TemplateCount
      ensures t in AllButI <==> 1 <= t
    {
      if t == 0 {
      } else if t == 1 {
      } else if t == 2 {
      } else if t == 3 {
      } else if t == 4 {
      } else if t == 5 {
      } else if t == 6 {
      } else if t == 7 {
      } else if t == 8 {
      } else {
      }
    }
  }

  /** `Done`: the scan is over once `pCol` reaches the last column. */
  predicate Done(e: Edge, s: Scan) {
    s.pCol >= e.size - 1
  }

  /** `Position`: the cell being examined. */
  function Position(e: Edge, s: Scan): Loc {
    Add(Add(e.sideStart, Scale(s.pCol + s.tCol, e.colInc)), Scale(s.row, e.rowInc))
  }

  /** On each side the scan runs along the owner's edge: position `c` along
      it and depth `r` into the board is the cell below. Row 0 of side 0 is
      column 0 and of side 2 column `size - 1`, the two Black edges; row 0
      of side 3 is row 0 and of side 1 row `size - 1`, the two White
      edges. */
  lemma PositionOnSide(size: int, side: nat, s: Scan)
    requires side < 4
    ensures var c, r := s.pCol + s.tCol, s.row;
      Position(EdgeOf(size, side), s) ==
        [Loc(c, r), Loc(size - 1 - r, c), Loc(c, size - 1 - r), Loc(r, c)][side]
  {
  }

  // ----------------------------------------------------------------------
  // Slots.

  function Slot(s: Scan, k: int): (r: Result<set<nat>>)
    ensures r.Ok? <==> 0 <= k < |s.masks|
    ensures r.Ok? ==> r.value == s.masks[k]
    ensures r.Fail? ==> r.error == IndexOutOfRangeException
  {
    if 0 <= k < |s.masks| then Ok(s.masks[k]) else Fail(IndexOutOfRangeException)
  }

  function Store(s: Scan, k: int, m: set<nat>): (r: Result<Scan>)
    ensures r.Ok? <==> 0 <= k < |s.masks|
    ensures r.Ok? ==> r.value == s.(masks := s.masks[k := m])
    ensures r.Fail? ==> r.error == IndexOutOfRangeException
  {
    if 0 <= k < |s.masks| then Ok(s.(masks := s.masks[k := m])) else Fail(IndexOutOfRangeException)
  }

  /** Every slot of `b` holds a subset of the same slot of `a`. */
  predicate Narrower(a: seq<set<nat>>, b: seq<set<nat>>) {
    |a| == |b| && forall j | 0 <= j < |a| :: b[j] <= a[j]
  }

  predicate SameCursor(s: Scan, t: Scan) {
    t.tCol == s.tCol && t.pCol == s.pCol && t.row == s.row
  }

  /** The cursor moved forward along the edge but still points at the same
      cell. */
  predicate SameCell(s: Scan, t: Scan) {
    t.pCol + t.tCol == s.pCol + s.tCol && t.row == s.row && s.pCol <= t.pCol
  }

  // ----------------------------------------------------------------------
  // Narrowing one slot.

  /** `AllowOnly(relIndex, mask)`: keep only the templates of `mask` in slot
      `pCol + tCol + relIndex`, if that slot is not before `pCol`. */
  function AllowOnly(s: Scan, relIndex: int, mask: set<nat>): (r: Result<Scan>)
    ensures s.tCol < -relIndex ==> r == Ok(s)
    ensures r.Fail? <==> s.tCol >= -relIndex && s.pCol + s.tCol + relIndex >= |s.masks|
    ensures r.Fail? ==> r.error == IndexOutOfRangeException
    ensures r.Ok? ==> SameCursor(s, r.value) && Narrower(s.masks, r.value.masks)
    ensures r.Ok? ==> forall j | 0 <= j < |s.masks| ::
      r.value.masks[j] == if s.tCol >= -relIndex && j == s.pCol + s.tCol + relIndex
        then s.masks[j] * mask else s.masks[j]
  {
    if s.tCol >= -relIndex then
      var k := s.tCol + relIndex + s.pCol;
      var m :- Slot(s, k);
      Store(s, k, m * mask)
    else
      Ok(s)
  }

  /** `Eliminate(relIndex, mask)`: drop the templates of `mask` from slot
      `pCol + tCol + relIndex`, if that slot is not before `pCol`. */
  function Eliminate(s: Scan, relIndex: int, mask: set<nat>): (r: Result<Scan>)
    ensures s.tCol < -relIndex ==> r == Ok(s)
    ensures r.Fail? <==> s.tCol >= -relIndex && s.pCol + s.tCol + relIndex >= |s.masks|
    ensures r.Fail? ==> r.error == IndexOutOfRangeException
    ensures r.Ok? ==> SameCursor(s, r.value) && Narrower(s.masks, r.value.masks)
    ensures r.Ok? ==> forall j | 0 <= j < |s.masks| ::
      r.value.masks[j] == if s.tCol >= -relIndex && j == s.pCol + s.tCol + relIndex
        then s.masks[j] - mask else s.masks[j]
  {
    if s.tCol >= -relIndex then
      var k := s.tCol + relIndex + s.pCol;
      var m :- Slot(s, k);
      Store(s, k, m - mask)
    else
      Ok(s)
  }

  // ----------------------------------------------------------------------
  // Moving the cursor.

  /** `AdvanceColumn`: on to the edge cell of the next column. */
  function AdvanceColumn(s: Scan): (r: Scan)
    ensures r.pCol + r.tCol == s.pCol + s.tCol + 1 && r.row == 0
    ensures r.masks == s.masks && r.pCol == s.pCol
  {
    s.(tCol := s.tCol + 1, row := 0)
  }

  /** `AdvanceQueue`: give up the first slot. */
  function AdvanceQueue(s: Scan): (r: Scan)
    requires s.tCol > 0
    ensures SameCell(s, r) && r.masks == s.masks && r.pCol == s.pCol + 1
  {
    s.(tCol := s.tCol - 1, pCol := s.pCol + 1)
  }

  /** `CheckMask`: give up leading slots that hold no template, as long as
      the current column stays ahead of `pCol`. */
  function CheckMask(s: Scan): (r: Result<Scan>)
    ensures r.Ok? ==> SameCell(s, r.value) && r.value.masks == s.masks && r.value.pCol < |s.masks|
    ensures r.Ok? ==> r.value.tCol == 0 || r.value.masks[r.value.pCol] != {}
    ensures r.Ok? ==> forall j | s.pCol <= j < r.value.pCol :: s.masks[j] == {}
    ensures s.pCol + s.tCol < |s.masks| ==> r.Ok?
    ensures r.Fail? ==> r.error == IndexOutOfRangeException
    decreases s.tCol
  {
    var m :- Slot(s, s.pCol);
    if m == {} && s.tCol > 0 then CheckMask(AdvanceQueue(s)) else Ok(s)
  }

  /** `AdvanceTo(relIndex)`: give up leading slots until the current column
      is at most `-relIndex` ahead of `pCol`. */
  function AdvanceTo(s: Scan, relIndex: int): (r: Scan)
    requires relIndex <= 0
    ensures SameCell(s, r) && r.masks == s.masks
    ensures r.tCol == if s.tCol <= -relIndex then s.tCol else -relIndex
    decreases s.tCol
  {
    if s.tCol <= -relIndex then s else AdvanceTo(AdvanceQueue(s), relIndex)
  }

  // ----------------------------------------------------------------------
  // Templates that need a connecting stone at the current cell.

  /** The `switch` of `EliminateConnectingStone`: at depth `row`, an empty
      or enemy cell rules out every template whose connecting stone would
      be there. Depths above 4 throw. */
  function ConnectingStone(s: Scan, row: int): (r: Result<Scan>)
    ensures r.Ok? ==> SameCursor(s, r.value) && Narrower(s.masks, r.value.masks)
    ensures r.Fail? && 0 <= row <= 4 ==> r.error == IndexOutOfRangeException
    ensures !(0 <= row <= 4) ==> r == Fail(InvalidOperationException)
  {
    if row == 0 then Ok(s)
    else if row == 1 then Eliminate(s, 0, {II})
    else if row == 2 then
      match Eliminate(s, 0, {IIIa})
      case Fail(e) => Fail(e)
      case Ok(a) =>
        match Eliminate(a, -1, {IIIb})
        case Fail(e) => Fail(e)
        case Ok(b) => Eliminate(b, -1, {IIIc})
    else if row == 3 then
      match Eliminate(s, -1, {IVa})
      case Fail(e) => Fail(e)
      case Ok(a) =>
        match Eliminate(a, -2, {IVb})
        case Fail(e) => Fail(e)
        case Ok(b) => Eliminate(b, -2, {IVc})
    else if row == 4 then
      match Eliminate(s, -2, {Va})
      case Fail(e) => Fail(e)
      case Ok(a) => Eliminate(a, -3, {Vb})
    else
      Fail(InvalidOperationException)
  }

  /** `EliminateConnectingStone(row)`; a negative `row` means the current
      row. */
  function EliminateConnectingStone(s: Scan, row: int): (r: Result<Scan>)
    ensures r.Ok? ==> SameCell(s, r.value) && Narrower(s.masks, r.value.masks)
    ensures r.Ok? ==> r.value.pCol < |r.value.masks|
    ensures r.Ok? ==> r.value.tCol == 0 || r.value.masks[r.value.pCol] != {}
    ensures var d := if row < 0 then s.row else row;
      !(0 <= d <= 4) ==> r == Fail(InvalidOperationException)
  {
    var s1 :- ConnectingStone(s, if row < 0 then s.row else row);
    CheckMask(s1)
  }

  /** Template `t`, laid down from slot `j`, has its connecting stone at
      depth `row` of the current column. Template I is left to the edge
      case of `ProcessFriendly`. */
  predicate ConnectsHere(s: Scan, row: int, t: nat, j: int)
    requires t < TemplateCount
  {
    CatalogShape();
    t != I && Depth(t) == row && s.pCol <= j && j + Templates[t].connectStoneColumn == s.pCol + s.tCol
  }

  /** What one `Eliminate` of a single template `u` does to template `t`
      in slot `j`. */
  predicate KeptBy(s: Scan, relIndex: int, u: nat, t: nat, j: int) {
    !(s.tCol >= -relIndex && j == s.pCol + s.tCol + relIndex && t == u)
  }

  /** The `switch` agrees with the catalog: it removes template `t` from
      slot `j` exactly when `t` laid down from `j` would have its
      connecting stone at depth `row` of the current column. */
  lemma ConnectingStoneRemoves(s: Scan, row: int, r: Scan, t: nat, j: int)
    requires ConnectingStone(s, row) == Ok(r)
    requires t < TemplateCount && 0 <= j < |s.masks|
    ensures t in r.masks[j] <==> t in s.masks[j] && !ConnectsHere(s, row, t, j)
  {
    if row == 0 {
      assert r == s;
      ConnectsNowhere(s, t, j);
    } else if row == 1 {
      assert t in r.masks[j] <==> t in s.masks[j] && KeptBy(s, 0, II, t, j);
      ConnectsAt1(s, t, j);
    } else if row == 2 {
      var a := Eliminate(s, 0, {IIIa}).value;
      var b := Eliminate(a, -1, {IIIb}).value;
      assert r == Eliminate(b, -1, {IIIc}).value;
      assert t in r.masks[j] <==> (t in s.masks[j] &&
        KeptBy(s, 0, IIIa, t, j) && KeptBy(s, -1, IIIb, t, j) && KeptBy(s, -1, IIIc, t, j));
      ConnectsAt2(s, t, j);
    } else if row == 3 {
      var a := Eliminate(s, -1, {IVa}).value;
      var b := Eliminate(a, -2, {IVb}).value;
      assert r == Eliminate(b, -2, {IVc}).value;
      assert t in r.masks[j] <==> (t in s.masks[j] &&
        KeptBy(s, -1, IVa, t, j) && KeptBy(s, -2, IVb, t, j) && KeptBy(s, -2, IVc, t, j));
      ConnectsAt3(s, t, j);
    } else {
      var a := Eliminate(s, -2, {Va}).value;
      assert r == Eliminate(a, -3, {Vb}).value;
      assert t in r.masks[j] <==> t in s.masks[j] && KeptBy(s, -2, Va, t, j) && KeptBy(s, -3, Vb, t, j);
      ConnectsAt4(s, t, j);
    }
  }

  lemma ConnectsNowhere(s: Scan, t: nat, j: int)
    requires t < TemplateCount
    ensures !ConnectsHere(s, 0, t, j)
  {
    CatalogShape();
    CatalogLengthsAndDepths();
    assert Depth(t) == [0, 1, 2, 2, 2, 3, 3, 3, 4, 4][t];
  }

  lemma ConnectsAt1(s: Scan, t: nat, j: int)
    requires t < TemplateCount
    ensures ConnectsHere(s, 1, t, j) <==> !KeptBy(s, 0, II, t, j)
  {
    CatalogShape();
    CatalogLengthsAndDepths();
    assert Depth(t) == [0, 1, 2, 2, 2, 3, 3, 3, 4, 4][t];
  }

  lemma ConnectsAt2(s: Scan, t: nat, j: int)
    requires t < TemplateCount
    ensures ConnectsHere(s, 2, t, j) <==>
      !(KeptBy(s, 0, IIIa, t, j) && KeptBy(s, -1, IIIb, t, j) && KeptBy(s, -1, IIIc, t, j))
  {
    CatalogShape();
    CatalogLengthsAndDepths();
    assert Depth(t) == [0, 1, 2, 2, 2, 3, 3, 3, 4, 4][t];
  }

  lemma ConnectsAt3(s: Scan, t: nat, j: int)
    requires t < TemplateCount
    ensures ConnectsHere(s, 3, t, j) <==>
      !(KeptBy(s, -1, IVa, t, j) && KeptBy(s, -2, IVb, t, j) && KeptBy(s, -2, IVc, t, j))
  {
    CatalogShape();
    CatalogLengthsAndDepths();
    assert Depth(t) == [0, 1, 2, 2, 2, 3, 3, 3, 4, 4][t];
  }

  lemma ConnectsAt4(s: Scan, t: nat, j: int)
    requires t < TemplateCount
    ensures ConnectsHere(s, 4, t, j) <==> !(KeptBy(s, -2, Va, t, j) && KeptBy(s, -3, Vb, t, j))
  {
    CatalogShape();
    CatalogLengthsAndDepths();
    assert Depth(t) == [0, 1, 2, 2, 2, 3, 3, 3, 4, 4][t];
  }

  // ----------------------------------------------------------------------
  // Column height.

  /** The heights slots `pCol` to `pCol + tCol` give the current column,
      in the order the loop of `ColumnHeight` visits them: slot `pCol + i`
      began `tCol - i` columns back, so the current column lies that far
      into its templates. */
  function LiveHeights(s: Scan): (hs: seq<int>)
    requires s.pCol + s.tCol < |s.masks|
    ensures |hs| == s.tCol + 1
    ensures forall i | 0 <= i < |hs| :: hs[i] == SlotHeight(s.masks[s.pCol + i], s.tCol - i)
  {
    seq(s.tCol + 1, i requires 0 <= i <= s.tCol => SlotHeight(s.masks[s.pCol + i], s.tCol - i))
  }

  /** What the loop of `ColumnHeight` computes from a list of heights: the
      largest, or 0 for none. */
  function MaxOf(hs: seq<int>): int {
    if hs == [] then 0 else Max(MaxOf(hs[..|hs| - 1]), hs[|hs| - 1])
  }

  /** No height exceeds the loop's result. */
  lemma {:induction false} MaxOfBound(hs: seq<int>, k: nat)
    requires k < |hs|
    ensures hs[k] <= MaxOf(hs)
  {
    if k < |hs| - 1 {
      MaxOfBound(hs[..|hs| - 1], k);
    }
  }

  /** A result other than 0 is one of the heights. */
  lemma {:induction false} MaxOfAttained(hs: seq<int>) returns (k: nat)
    requires MaxOf(hs) != 0
    ensures k < |hs| && hs[k] == MaxOf(hs)
  {
    var init := hs[..|hs| - 1];
    if MaxOf(init) != 0 && MaxOf(hs) == MaxOf(init) {
      k := MaxOfAttained(init);
    } else {
      k := |hs| - 1;
    }
  }

  /** Heights from 0 to 5 give a result from 0 to 5. */
  lemma {:induction false} MaxOfRange(hs: seq<int>)
    requires forall i | 0 <= i < |hs| :: 0 <= hs[i] <= 5
    ensures 0 <= MaxOf(hs) <= 5
  {
    if hs != [] {
      MaxOfRange(hs[..|hs| - 1]);
    }
  }

  /** `ColumnHeight`: how deep the current column still matters. The loop
      reads slots `pCol` to `pCol + tCol`, so it throws when the current
      column is past the end of `_masks`. */
  function ColumnHeight(s: Scan): (r: Result<int>)
    ensures r.Ok? <==> s.pCol + s.tCol < |s.masks|
    ensures r.Fail? ==> r.error == IndexOutOfRangeException
    ensures r.Ok? ==> 0 <= r.value <= 5
  {
    if s.pCol + s.tCol < |s.masks| then
      MaxOfRange(LiveHeights(s));
      Ok(MaxOf(LiveHeights(s)))
    else
      Fail(IndexOutOfRangeException)
  }

  /** The column height is the largest height a live slot `k` (one of
      `pCol` to `pCol + tCol`) gives the current column, which lies
      `pCol + tCol - k` columns into its templates, and 0 when none gives
      any. */
  lemma ColumnHeightIsMax(s: Scan)
    requires s.pCol + s.tCol < |s.masks|
    ensures forall k | s.pCol <= k <= s.pCol + s.tCol ::
      SlotHeight(s.masks[k], s.pCol + s.tCol - k) <= ColumnHeight(s).value
    ensures ColumnHeight(s).value == 0 || exists k | s.pCol <= k <= s.pCol + s.tCol ::
      ColumnHeight(s).value == SlotHeight(s.masks[k], s.pCol + s.tCol - k)
  {
    var hs := LiveHeights(s);
    forall k | s.pCol <= k <= s.pCol + s.tCol
      ensures SlotHeight(s.masks[k], s.pCol + s.tCol - k) <= ColumnHeight(s).value
    {
      MaxOfBound(hs, k - s.pCol);
    }
    if ColumnHeight(s).value != 0 {
      var i := MaxOfAttained(hs);
      assert ColumnHeight(s).value == SlotHeight(s.masks[s.pCol + i], s.pCol + s.tCol - (s.pCol + i));
    }
  }

  // ----------------------------------------------------------------------
  // An empty cell.

  /** The scan state and the connections found so far. */
  datatype Step = Step(scan: Scan, found: seq<Connection>)

  /** The location reported for template `t` found from slot `pCol`: its
      connecting stone's cell, taken from the corner of the board rather
      than from `sideStart`. */
  function HitLocation(e: Edge, pCol: int, t: nat): Loc
    requires t < TemplateCount
  {
    CatalogShape();
    Add(Scale(pCol + Templates[t].connectStoneColumn, e.colInc), Scale(Depth(t), e.rowInc))
  }

  /** The reported location is the connecting stone's cell shifted back by
      `sideStart`: on sides 1 and 2, whose `sideStart` is not the corner,
      it is not the stone's cell. */
  lemma HitLocationShifted(e: Edge, s: Scan, t: nat)
    requires t < TemplateCount
    ensures Add(e.sideStart, HitLocation(e, s.pCol, t)) == Position(e, StoneOf(s, t))
  {
  }

  /** The cursor on the connecting stone of template `t` laid down from
      `pCol`. */
  function StoneOf(s: Scan, t: nat): (r: Scan)
    requires t < TemplateCount
    ensures r.pCol == s.pCol && r.tCol == Templates[t].connectStoneColumn && r.row == Depth(t)
  {
    CatalogShape();
    Scan(s.masks, Templates[t].connectStoneColumn, s.pCol, Depth(t))
  }

  /** Row 0 of `ProcessUnoccupied`: no IIIc two columns back, then, past
      the first column, a template of `tCol + 1` columns still alive at
      `pCol` ends here and is reported. */
  function EdgeHit(e: Edge, s: Scan, found: seq<Connection>): (r: Result<Step>)
    ensures r.Ok? ==> SameCell(s, r.value.scan) && Narrower(s.masks, r.value.scan.masks)
    ensures r.Ok? ==> r.value.found == found || FoundOne(e, s, found, r.value.found)
    ensures r.Fail? ==> r.error in {IndexOutOfRangeException, InvalidOperationException}
  {
    match Eliminate(s, -2, {IIIc})
    case Fail(err) => Fail(err)
    case Ok(a) =>
      if a.tCol == 0 then Ok(Step(a, found))
      else if a.tCol >= |LengthMasks| then Fail(IndexOutOfRangeException)
      else
        match Slot(a, a.pCol)
        case Fail(err) => Fail(err)
        case Ok(m) =>
          var mask := TemplatesOf(LengthMasks[a.tCol]) * m;
          if mask == {} then Ok(Step(a, found))
          else if |mask| >= 2 then Fail(InvalidOperationException)
          else
            assert a.pCol == s.pCol && a.tCol == s.tCol && (s.tCol == 2 ==> m == s.masks[s.pCol] - {IIIc});
            LengthMembers(a.tCol + 1);
            Report(e, a, found, mask)
  }

  /** The report of the one template `mask` holds, the template dropped
      from slot `pCol`, and `CheckMask`. */
  function Report(e: Edge, a: Scan, found: seq<Connection>, mask: set<nat>): (r: Result<Step>)
    requires 0 <= a.pCol < |a.masks| && mask <= a.masks[a.pCol] && mask != {} && |mask| < 2
    requires forall t | t in mask :: t < TemplateCount
    ensures r.Ok? ==> SameCell(a, r.value.scan) && Narrower(a.masks, r.value.scan.masks)
    ensures r.Ok? ==> |r.value.found| == |found| + 1 && r.value.found[..|found|] == found
    ensures r.Ok? ==> var c := r.value.found[|found|];
      0 <= c.templateType < TemplateCount && mask == {c.templateType} &&
      c.location == HitLocation(e, a.pCol, c.templateType) &&
      c.templateType !in r.value.scan.masks[a.pCol]
    ensures r.Fail? ==> r.error == IndexOutOfRangeException
    ensures a.pCol + a.tCol < |a.masks| ==> r.Ok?
  {
    SingleMask(mask);
    match IndexFromMask(mask)
    case Fail(err) => Fail(err)
    case Ok(t) =>
      var b := a.(masks := a.masks[a.pCol := a.masks[a.pCol] - mask]);
      match CheckMask(b)
      case Fail(err) => Fail(err)
      case Ok(c) => Ok(Step(c, found + [Connection(t, HitLocation(e, a.pCol, t))]))
  }

  /** Row 0 past the first column reports the template of `tCol + 1`
      columns alive at `pCol` when there is exactly one, throws when there
      are several, and reports nothing when there is none. */
  lemma EdgeHitCases(e: Edge, s: Scan, found: seq<Connection>)
    requires 1 <= s.tCol < |LengthMasks| && s.pCol + s.tCol < |s.masks|
    ensures var ending := s.masks[s.pCol] * OfLength(s.tCol + 1);
      var r := EdgeHit(e, s, found);
      (ending == {} ==> r.Ok? && r.value.found == found) &&
      (|ending| >= 2 ==> r == Fail(InvalidOperationException)) &&
      (forall t | t in ending && |ending| == 1 ::
        r.Ok? && r.value.found == found + [Connection(t, HitLocation(e, s.pCol, t))])
  {
    var ending := s.masks[s.pCol] * OfLength(s.tCol + 1);
    var a := Eliminate(s, -2, {IIIc}).value;
    EdgeHitSees(s);
    var mask := TemplatesOf(LengthMasks[a.tCol]) * a.masks[a.pCol];
    var r := EdgeHit(e, s, found);
    assert r == if mask == {} then Ok(Step(a, found))
      else if |mask| >= 2 then Fail(InvalidOperationException)
      else Report(e, a, found, mask);
    forall t | t in ending && |ending| == 1
      ensures r.Ok? && r.value.found == found + [Connection(t, HitLocation(e, s.pCol, t))]
    {
      assert |ending - {t}| == 0;
      EdgeHitReports(e, a, found, mask, t);
    }
  }

  lemma EdgeHitReports(e: Edge, a: Scan, found: seq<Connection>, mask: set<nat>, t: nat)
    requires 0 <= a.pCol && a.pCol + a.tCol < |a.masks| && mask <= a.masks[a.pCol]
    requires mask == {t} && t < TemplateCount
    ensures var r := Report(e, a, found, mask);
      r.Ok? && r.value.found == found + [Connection(t, HitLocation(e, a.pCol, t))]
  {
    SingleMask(mask);
    var r := Report(e, a, found, mask);
    var c := r.value.found[|found|];
    assert mask == {c.templateType};
    assert r.value.found == found + [c];
  }

  /** Ruling out IIIc two columns back does not change which templates
      end in the current column: IIIc is four columns long. */
  lemma EdgeHitSees(s: Scan)
    requires 1 <= s.tCol < |LengthMasks| && s.pCol + s.tCol < |s.masks|
    ensures Eliminate(s, -2, {IIIc}).Ok?
    ensures var a := Eliminate(s, -2, {IIIc}).value;
      a.tCol == s.tCol && a.pCol == s.pCol &&
      TemplatesOf(LengthMasks[a.tCol]) * a.masks[a.pCol] == s.masks[s.pCol] * OfLength(s.tCol + 1)
  {
    CatalogLengthsAndDepths();
    assert Length(IIIc) == [1, 2, 4, 4, 5, 7, 7, 8, 10, 10][IIIc];
    LengthMembers(s.tCol + 1);
  }

  /** A mask of templates with exactly one member is a single bit. */
  lemma SingleMask(mask: set<nat>)
    requires mask != {} && |mask| < 2 && forall t | t in mask :: t < TemplateCount
    ensures IndexFromMask(mask).Ok?
  {
    var t :| t in mask;
    assert |mask - {t}| == |mask| - 1 == 0;
    assert mask == {t};
  }

  /** `found` grew by one connection: a template of `tCol + 1` columns that
      was alive at `pCol`, reported at its connecting stone. */
  ghost predicate FoundOne(e: Edge, s: Scan, found: seq<Connection>, found': seq<Connection>) {
    |found'| == |found| + 1 && found'[..|found|] == found &&
    var c := found'[|found|];
    0 <= c.templateType < TemplateCount && Length(c.templateType) == s.tCol + 1 &&
    0 <= s.pCol < |s.masks| && c.templateType in s.masks[s.pCol] &&
    c.location == HitLocation(e, s.pCol, c.templateType)
  }

  /** The slot the scan opens for a new column `k`: every template of 2 to
      `min(9, size - k) + 1` columns. */
  function Opened(size: int, k: int): Result<set<nat>> {
    var idx := Min(|TmpsByLength| - 1, size - k);
    if idx < 0 then Fail(IndexOutOfRangeException) else Ok(TemplatesOf(TmpsByLength[idx]))
  }

  function Min(a: int, b: int): int {
    if a < b then a else b
  }

  /** `ProcessUnoccupied`: an empty cell. Past the row-0 and row-1 checks
      it rules out the templates whose connecting stone would be here, and
      then moves down the column, or on to the next column once the column
      height is reached, opening a slot for templates that start there. */
  function ProcessUnoccupied(e: Edge, s: Scan, found: seq<Connection>): (r: Result<Step>)
    ensures r.Ok? ==> r.value.found == found || FoundOne(e, s, found, r.value.found)
    ensures r.Ok? ==> s.pCol <= r.value.scan.pCol && NextCell(s, r.value.scan) && r.value.scan.row <= 4
    ensures r.Ok? && r.value.scan.row == 0 ==> Opens(e, r.value.scan)
    ensures s.row > 4 ==> r == Fail(InvalidOperationException)
  {
    match (if s.row == 0 then EdgeHit(e, s, found) else Ok(Step(s, found)))
    case Fail(err) => Fail(err)
    case Ok(st) =>
      match (if st.scan.row == 1 then Eliminate(st.scan, -3, {IVc}) else Ok(st.scan))
      case Fail(err) => Fail(err)
      case Ok(a) =>
        match EliminateConnectingStone(a, -1)
        case Fail(err) => Fail(err)
        case Ok(b) => MoveDown(e, b, st.found)
  }

  /** The new column's slot holds what `Opened` gives for it. */
  predicate Opens(e: Edge, n: Scan) {
    n.pCol + n.tCol < |n.masks| && Opened(e.size, n.pCol + n.tCol) == Ok(n.masks[n.pCol + n.tCol])
  }

  /** The end of `ProcessUnoccupied`: `++_row`, and the move to the next
      column once the row reaches the column height. */
  function MoveDown(e: Edge, b: Scan, found: seq<Connection>): (r: Result<Step>)
    ensures r.Ok? ==> r.value.found == found && r.value.scan.pCol == b.pCol && NextCell(b, r.value.scan)
    ensures r.Ok? && r.value.scan.row == 0 ==> Opens(e, r.value.scan)
    ensures r.Ok? && r.value.scan.row != 0 ==> r.value.scan == b.(row := b.row + 1)
    ensures r.Ok? ==> r.value.scan.row <= 4
  {
    var c := b.(row := b.row + 1);
    match ColumnHeight(c)
    case Fail(err) => Fail(err)
    case Ok(h) =>
      if c.row >= h then
        match NextColumn(e, c)
        case Fail(err) => Fail(err)
        case Ok(d) => Ok(Step(d, found))
      else
        Ok(Step(c, found))
  }

  /** The move to the top of the next column, whose slot is opened. */
  function NextColumn(e: Edge, c: Scan): (r: Result<Scan>)
    ensures r.Ok? ==> r.value.pCol == c.pCol && r.value.tCol == c.tCol + 1 && r.value.row == 0
    ensures r.Ok? ==> Opens(e, r.value)
    ensures r.Fail? ==> r.error == IndexOutOfRangeException
  {
    var next := c.(tCol := c.tCol + 1, row := 0);
    match Opened(e.size, next.pCol + next.tCol)
    case Fail(err) => Fail(err)
    case Ok(m) => Store(next, next.pCol + next.tCol, m)
  }

  /** The cursor went one cell down the column, or to the top of the next
      column. */
  predicate NextCell(s: Scan, n: Scan) {
    (n.pCol + n.tCol == s.pCol + s.tCol && n.row == s.row + 1) ||
    (n.pCol + n.tCol == s.pCol + s.tCol + 1 && n.row == 0)
  }

  // ----------------------------------------------------------------------
  // An enemy stone.

  /** `EliminateConnectingStone` keeps the catalog's meaning: it removes
      template `t` from slot `j` exactly when `t` laid down from `j` would
      have its connecting stone at depth `row` of the current column. */
  lemma EliminateConnectingStoneRemoves(s: Scan, row: nat, r: Scan, t: nat, j: int)
    requires EliminateConnectingStone(s, row) == Ok(r)
    requires t < TemplateCount && 0 <= j < |s.masks|
    ensures t in r.masks[j] <==> t in s.masks[j] && !ConnectsHere(s, row, t, j)
  {
    var a := ConnectingStone(s, row).value;
    assert CheckMask(a) == Ok(r);
    ConnectingStoneRemoves(s, row, a, t, j);
  }

  /** The loop of `ProcessUnfriendly`: from depth `iRow` down to the column
      height, which it reads again every round, rule out the templates
      whose connecting stone would be at each depth. */
  function UnfriendlyRows(s: Scan, iRow: nat): (r: Result<Scan>)
    ensures r.Ok? ==> SameCell(s, r.value) && Narrower(s.masks, r.value.masks)
    ensures r.Ok? ==> r.value.pCol + r.value.tCol < |r.value.masks|
    ensures r.Fail? ==> r.error == IndexOutOfRangeException
    ensures s.pCol + s.tCol < |s.masks| ==> r.Ok?
    decreases 5 - iRow
  {
    match ColumnHeight(s)
    case Fail(err) => Fail(err)
    case Ok(h) =>
      if iRow < h then
        match EliminateConnectingStone(s, iRow)
        case Fail(err) => Fail(err)
        case Ok(a) => UnfriendlyRows(a, iRow + 1)
      else
        Ok(s)
  }

  /** The first round of the loop rules out, for good, every template
      whose connecting stone would be at depth `iRow` of the current
      column. */
  lemma UnfriendlyRowsRemoves(s: Scan, iRow: nat, r: Scan, t: nat, j: int)
    requires UnfriendlyRows(s, iRow) == Ok(r) && ColumnHeight(s).Ok? && iRow < ColumnHeight(s).value
    requires t < TemplateCount && 0 <= j < |s.masks| && ConnectsHere(s, iRow, t, j)
    ensures t !in r.masks[j]
  {
    var a := EliminateConnectingStone(s, iRow).value;
    EliminateConnectingStoneRemoves(s, iRow, a, t, j);
  }

  /** A don't-care cell of IIIc (at row 0, `back` 2) or IVc (at row 1,
      `back` 3): the cursor goes back to the column the template would
      start in, that slot keeps template `t` alone, the next `back` slots
      are emptied, and the scan goes one row down. */
  function PinDontCare(s: Scan, back: nat, t: nat): (r: Result<Scan>)
    requires s.tCol >= back
    ensures r.Ok? <==> s.pCol + s.tCol < |s.masks|
    ensures r.Fail? ==> r.error == IndexOutOfRangeException
    ensures r.Ok? ==> var n := r.value;
      n.pCol + n.tCol == s.pCol + s.tCol && n.tCol == back && n.row == s.row + 1 &&
      |n.masks| == |s.masks| && n.masks[n.pCol] == {t} &&
      (forall k | n.pCol < k <= n.pCol + back :: n.masks[k] == {}) &&
      (forall k | 0 <= k < |s.masks| && !(n.pCol <= k <= n.pCol + back) :: n.masks[k] == s.masks[k])
  {
    var a := AdvanceTo(s, -(back as int));
    if a.pCol + back < |a.masks| then
      var masks := seq(|a.masks|, k requires 0 <= k < |a.masks| =>
        if k == a.pCol then {t} else if a.pCol < k <= a.pCol + back then {} else a.masks[k]);
      Ok(a.(masks := masks, row := a.row + 1))
    else
      Fail(IndexOutOfRangeException)
  }

  /** The second `switch` of `ProcessUnfriendly`. At depth 0 or 1 the enemy
      stone cuts off every template begun so far; deeper, it leaves only
      the templates that may have their don't-care or empty cells here, and
      the column is finished. */
  function Enemy(s: Scan): (r: Result<Scan>)
    ensures s.row <= 1 ==> r == Ok(Scan(s.masks, 0, s.pCol + s.tCol + 1, 0))
    ensures s.row > 4 ==> r == Ok(s)
    ensures 2 <= s.row <= 4 && r.Ok? ==> var n := r.value;
      Narrower(s.masks, n.masks) && s.pCol <= n.pCol && n.pCol + n.tCol == s.pCol + s.tCol + 1 && n.row == 0
    ensures r.Fail? ==> r.error == IndexOutOfRangeException
  {
    if s.row <= 1 then
      Ok(Scan(s.masks, 0, s.pCol + s.tCol + 1, 0))
    else if s.row == 2 then
      match AllowOnly(s, -2, {IIIa, IIIb})
      case Fail(err) => Fail(err)
      case Ok(a) =>
        match AllowOnly(a, -3, {IIIc})
        case Fail(err) => Fail(err)
        case Ok(b) =>
          match AllowOnly(b, -5, {IVa, IVb})
          case Fail(err) => Fail(err)
          case Ok(c) =>
            match AllowOnly(c, -6, {IVc})
            case Fail(err) => Fail(err)
            case Ok(d) =>
              match AllowOnly(d, -9, {Va, Vb})
              case Fail(err) => Fail(err)
              case Ok(f) => FinishColumn(f)
    else if s.row == 3 then
      match AllowOnly(s, -3, {IVa, IVb})
      case Fail(err) => Fail(err)
      case Ok(a) =>
        match AllowOnly(a, -4, {IVc})
        case Fail(err) => Fail(err)
        case Ok(b) =>
          match AllowOnly(b, -6, {Va, Vb})
          case Fail(err) => Fail(err)
          case Ok(c) => FinishColumn(c)
    else if s.row == 4 then
      match Eliminate(s, -4, {Vb})
      case Fail(err) => Fail(err)
      case Ok(a) =>
        match Eliminate(a, -3, {Va, Vb})
        case Fail(err) => Fail(err)
        case Ok(b) =>
          match Eliminate(b, -2, {Va, Vb})
          case Fail(err) => Fail(err)
          case Ok(c) =>
            match Eliminate(c, -1, {Va})
            case Fail(err) => Fail(err)
            case Ok(d) => FinishColumn(d)
    else
      Ok(s)
  }

  /** `CheckMask` and then `AdvanceColumn`. */
  function FinishColumn(s: Scan): (r: Result<Scan>)
    ensures r.Ok? ==> r.value.masks == s.masks && s.pCol <= r.value.pCol
    ensures r.Ok? ==> r.value.pCol + r.value.tCol == s.pCol + s.tCol + 1 && r.value.row == 0
    ensures r.Fail? ==> r.error == IndexOutOfRangeException
  {
    match CheckMask(s)
    case Fail(err) => Fail(err)
    case Ok(a) => Ok(AdvanceColumn(a))
  }

  /** `ProcessUnfriendly`: an enemy stone. It is nobody's connecting stone
      at this depth or below; then a don't-care cell of IIIc or IVc pins
      the window to that template, and otherwise the second `switch`
      applies. */
  function ProcessUnfriendly(s: Scan): (r: Result<Scan>)
    ensures r.Ok? ==> s.pCol <= r.value.pCol
    ensures r.Ok? && s.row <= 4 ==> NextCell(s, r.value) && r.value.row <= 4
    ensures r.Fail? ==> r.error == IndexOutOfRangeException
    ensures r.Ok? && s.row <= 1 ==> ResetOrPinned(s, r.value)
  {
    match UnfriendlyRows(s, s.row)
    case Fail(err) => Fail(err)
    case Ok(a) => DontCare(a)
  }

  /** After an enemy stone at depth 0 or 1: either every template begun so
      far is cut off and the scan restarts past the stone, or the stone is
      the don't-care cell of IIIc (depth 0) or IVc (depth 1), and the
      window holds that template alone. */
  predicate ResetOrPinned(s: Scan, n: Scan) {
    (n.tCol == 0 && n.pCol == s.pCol + s.tCol + 1 && n.row == 0) ||
    (n.pCol + n.tCol == s.pCol + s.tCol && n.row == s.row + 1 && n.tCol == s.row + 2 &&
     n.pCol < |n.masks| && n.masks[n.pCol] == (if s.row == 0 then {IIIc} else {IVc}) &&
     forall k | n.pCol < k <= n.pCol + n.tCol && k < |n.masks| :: n.masks[k] == {})
  }

  /** The first `switch` of `ProcessUnfriendly`, falling through to the
      second. */
  function DontCare(a: Scan): (r: Result<Scan>)
    ensures r.Ok? ==> a.pCol <= r.value.pCol
    ensures r.Ok? && a.row <= 4 ==> NextCell(a, r.value) && r.value.row <= 4
    ensures r.Fail? ==> r.error == IndexOutOfRangeException
    ensures r.Ok? && a.row <= 1 ==> ResetOrPinned(a, r.value)
  {
    if a.row == 0 && a.tCol >= 2 then
      match Slot(a, a.pCol + a.tCol - 2)
      case Fail(err) => Fail(err)
      case Ok(m) => if IIIc in m then PinDontCare(a, 2, IIIc) else Enemy(a)
    else if a.row == 1 && a.tCol >= 3 then
      match Slot(a, a.pCol + a.tCol - 3)
      case Fail(err) => Fail(err)
      case Ok(m) => if IVc in m then PinDontCare(a, 3, IVc) else Enemy(a)
    else
      Enemy(a)
  }

  // ----------------------------------------------------------------------
  // A friendly stone.

  /** `ProcessFriendly`: a stone of the side's owner. On the edge it is
      template I by itself; one deeper it is II's connecting stone; deeper
      still it is the connecting stone of the templates of that depth,
      which then keep only the slots they can start in. The column is
      finished in every case. */
  function ProcessFriendly(e: Edge, s: Scan, found: seq<Connection>): (r: Result<Step>)
    ensures s.row == 0 && r.Ok? ==> var n := r.value.scan;
      r.value.found == found + [Connection(I, Position(e, s))] &&
      n.pCol == s.pCol + s.tCol && n.tCol == 1 && n.row == 0 && n.pCol < |s.masks| && n.masks == s.masks[n.pCol := {}]
    ensures s.row == 1 && r.Ok? ==> var n := r.value.scan;
      r.value.found == found && n.pCol == s.pCol + s.tCol && n.tCol == 1 && n.row == 0 &&
      n.pCol < |s.masks| && n.masks == s.masks[n.pCol := {II}]
    ensures s.row <= 1 ==> (r.Ok? <==> s.pCol + s.tCol < |s.masks|)
    ensures 2 <= s.row <= 4 && r.Ok? ==>
      r.value.found == found && Narrower(s.masks, r.value.scan.masks) && s.pCol <= r.value.scan.pCol
    ensures r.Ok? ==> r.value.scan.pCol + r.value.scan.tCol == s.pCol + s.tCol + 1 && r.value.scan.row == 0
    ensures r.Fail? && s.row <= 4 ==> r.error == IndexOutOfRangeException
    ensures s.row > 4 ==> r == Fail(InvalidOperationException)
  {
    if s.row == 0 then
      match FriendlyEdge(s)
      case Fail(err) => Fail(err)
      case Ok(a) => Ok(Step(a, found + [Connection(I, Position(e, s))]))
    else if s.row == 1 then
      match FriendlyII(s)
      case Fail(err) => Fail(err)
      case Ok(a) => Ok(Step(a, found))
    else if s.row <= 4 then
      match FriendlyDeep(s)
      case Fail(err) => Fail(err)
      case Ok(a) => Ok(Step(a, found))
    else
      Fail(InvalidOperationException)
  }

  /** Row 0 of `ProcessFriendly`: the scan restarts at the stone's column
      with an empty slot, and moves past it. */
  function FriendlyEdge(s: Scan): (r: Result<Scan>)
    ensures r.Ok? <==> s.pCol + s.tCol < |s.masks|
    ensures r.Ok? ==> var p := s.pCol + s.tCol;
      r.value == Scan(s.masks[p := {}], 1, p, 0)
    ensures r.Fail? ==> r.error == IndexOutOfRangeException
  {
    var p := s.pCol + s.tCol;
    match Store(s.(pCol := p, tCol := 0), p, {})
    case Fail(err) => Fail(err)
    case Ok(a) => Ok(AdvanceColumn(a))
  }

  /** Row 1 of `ProcessFriendly`: the window shrinks to the current
      column, which can start II only. */
  function FriendlyII(s: Scan): (r: Result<Scan>)
    ensures r.Ok? <==> s.pCol + s.tCol < |s.masks|
    ensures r.Ok? ==> var p := s.pCol + s.tCol;
      r.value == Scan(s.masks[p := {II}], 1, p, 0)
    ensures r.Fail? ==> r.error == IndexOutOfRangeException
  {
    var a := AdvanceTo(s, 0);
    match Store(a, a.pCol, {II})
    case Fail(err) => Fail(err)
    case Ok(b) => Ok(AdvanceColumn(b))
  }

  /** Rows 2 to 4 of `ProcessFriendly`. */
  function FriendlyDeep(s: Scan): (r: Result<Scan>)
    requires 2 <= s.row <= 4
    ensures r.Ok? ==> Narrower(s.masks, r.value.masks) && s.pCol <= r.value.pCol
    ensures r.Ok? ==> r.value.pCol + r.value.tCol == s.pCol + s.tCol + 1 && r.value.row == 0
    ensures r.Fail? ==> r.error == IndexOutOfRangeException
  {
    if s.row == 2 then
      match AllowOnly(s, -1, {IIIb, IIIc})
      case Fail(err) => Fail(err)
      case Ok(a) =>
        match AllowOnly(a, 0, {IIIa})
        case Fail(err) => Fail(err)
        case Ok(b) => FinishColumn(b)
    else if s.row == 3 then
      match AllowOnly(s, -1, {IVa})
      case Fail(err) => Fail(err)
      case Ok(a) =>
        match AllowOnly(a, -2, {IVb, IVc})
        case Fail(err) => Fail(err)
        case Ok(b) => FinishColumn(b)
    else
      match AllowOnly(s, -2, {Va})
      case Fail(err) => Fail(err)
      case Ok(a) =>
        match AllowOnly(a, -3, {Vb})
        case Fail(err) => Fail(err)
        case Ok(b) => FinishColumn(b)
  }

  // ----------------------------------------------------------------------
  // The driver.

  /** `Stone()`: the colour at `Position`, read through the board, which
      throws for a cell off the board. */
  function Stone(e: Edge, cells: map<Loc, Color>, s: Scan): (r: Result<Color>)
    ensures r.Ok? <==> IsValid(Position(e, s), e.size)
    ensures r.Ok? ==> r.value == ColorAt(cells, Position(e, s))
    ensures r.Fail? ==> r.error == IndexOutOfRangeException
  {
    if IsValid(Position(e, s), e.size) then Ok(ColorAt(cells, Position(e, s)))
    else Fail(IndexOutOfRangeException)
  }

  /** One round of the loop of `EdgeTemplateCheck.Check`: read the cell
      under the cursor and apply the transition its colour selects. */
  function StepScan(e: Edge, us: Color, cells: map<Loc, Color>, st: Step): (r: Result<Step>)
    ensures r.Ok? ==> IsValid(Position(e, st.scan), e.size)
    ensures r.Ok? ==> st.found <= r.value.found && st.scan.pCol <= r.value.scan.pCol
    ensures r.Ok? && st.scan.row <= 4 ==> NextCell(st.scan, r.value.scan) && r.value.scan.row <= 4
  {
    match Stone(e, cells, st.scan)
    case Fail(err) => Fail(err)
    case Ok(c) =>
      if c == Unoccupied then
        ProcessUnoccupied(e, st.scan, st.found)
      else if c == us then
        ProcessFriendly(e, st.scan, st.found)
      else
        match ProcessUnfriendly(st.scan)
        case Fail(err) => Fail(err)
        case Ok(a) => Ok(Step(a, st.found))
  }

  /** How far the cursor has got: a column counts five rows. */
  function Progress(s: Scan): int {
    (s.pCol + s.tCol) * 5 + s.row
  }

  /** On a side's own frame, a cell on the board is at most `size - 1`
      columns along the edge. */
  lemma OnBoardColumn(size: int, side: nat, s: Scan)
    requires side < 4 && IsValid(Position(EdgeOf(size, side), s), size)
    ensures s.pCol + s.tCol < size
  {
    PositionOnSide(size, side, s);
  }

  /** `while (!state.Done)` from the state `st` on. The cursor moves one
      cell forward every round and the board has no cell past column
      `size - 1`, so the loop ends, normally or by an exception. */
  function Scanned(size: int, side: nat, cells: map<Loc, Color>, st: Step): (r: Result<seq<Connection>>)
    requires side < 4 && st.scan.row <= 4
    ensures r.Ok? ==> st.found <= r.value
    ensures Done(EdgeOf(size, side), st.scan) ==> r == Ok(st.found)
    decreases 5 * size - Progress(st.scan)
  {
    var e := EdgeOf(size, side);
    if Done(e, st.scan) then Ok(st.found)
    else
      match StepScan(e, Owner(side), cells, st)
      case Fail(err) => Fail(err)
      case Ok(next) =>
        OnBoardColumn(size, side, st.scan);
        Scanned(size, side, cells, next)
  }

  /** `EdgeTemplateCheck.Check(board, side)`: the connections found along
      side `side`, in the order they were found. A side outside 0 to 3
      throws where the constructor reads the side tables. */
  function Check(cells: map<Loc, Color>, size: nat, side: int): (r: Result<seq<Connection>>)
    ensures !(0 <= side < 4) ==> r == Fail(IndexOutOfRangeException)
    ensures 0 <= side < 4 && size <= 1 ==> r == Ok([])
  {
    if 0 <= side < 4 then Scanned(size, side, cells, Step(Initial(size), []))
    else Fail(IndexOutOfRangeException)
  }
}
