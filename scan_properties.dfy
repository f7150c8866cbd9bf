/** Properties of the edge scanner that relate its operations to the
    template catalog and to one another. */
module ScanProperties {
  import opened EdgeTemplates
  import opened Errors
  import opened ScanSpec

  /** No template alive in the window reaches below the column height in
      the current column: the scan leaves a column only once none of the
      templates that could still be laid down has a cell further down it.
      Slot `k` began `pCol + tCol - k` columns before the current one. */
  lemma ColumnHeightCovers(s: Scan, k: nat, t: nat)
    requires s.pCol <= k <= s.pCol + s.tCol < |s.masks|
    requires t in s.masks[k] && t < TemplateCount
    ensures HeightAt(t, s.pCol + s.tCol - k) <= ColumnHeight(s).value
  {
    SlotHeightIsMax(s.masks[k], s.pCol + s.tCol - k);
    ColumnHeightIsMax(s);
  }

  /** The loop of `ProcessUnfriendly`, run from depth `iRow`, rules out for
      good every template whose connecting stone would be at depth `iRow`
      or below in the current column: the loop runs down to the column
      height, and a template whose stone lies deeper than that is no longer
      in its slot. */
  lemma {:induction false} UnfriendlyRowsClears(s: Scan, iRow: nat, r: Scan, t: nat, j: int, d: int)
    requires UnfriendlyRows(s, iRow) == Ok(r)
    requires t < TemplateCount && 0 <= j < |s.masks| && iRow <= d && ConnectsHere(s, d, t, j)
    ensures t !in r.masks[j]
    decreases 5 - iRow
  {
    CatalogShape();
    var h := ColumnHeight(s).value;
    if iRow < h {
      var a := EliminateConnectingStone(s, iRow).value;
      assert UnfriendlyRows(a, iRow + 1) == Ok(r);
      if d == iRow {
        EliminateConnectingStoneRemoves(s, iRow, a, t, j);
      } else if a.pCol <= j {
        UnfriendlyRowsClears(a, iRow + 1, r, t, j, d);
      } else {
        var b := ConnectingStone(s, iRow).value;
        assert CheckMask(b) == Ok(a);
        assert a.masks[j] == {};
      }
    } else if t in s.masks[j] {
      assert HeightAt(t, Templates[t].connectStoneColumn) == Depth(t) + 1;
      ColumnHeightCovers(s, j, t);
      assert false;
    }
  }
}
