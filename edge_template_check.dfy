/** `HexLibrary.EdgeTemplateCheck.Check`: the loop that walks one side of
    the board with a `CheckState` and collects the edge templates found. */
module EdgeTemplateChecks {
  import opened Errors
  import opened Geometry
  import opened ScanSpec
  import opened CheckStates

  /** `Check(board, side)`, with the board given by its size and its
      stones. The result is exactly `ScanSpec.Check`: the connections
      found, in order, or the exception that stops the scan. */
  method Check(cells: map<Loc, Color>, size: nat, side: int) returns (r: Result<seq<Connection>>)
    ensures r == ScanSpec.Check(cells, size, side)
  {
    var ret: seq<Connection> := [];
    if !(0 <= side < 4) {
      return Fail(IndexOutOfRangeException);
    }
    var state := new CheckState(size, side);
    var us := if side == 0 || side == 2 then Black else White;
    while !state.Done()
      invariant fresh(state.masks)
      invariant state.edge == EdgeOf(size, side) && state.Abs().row <= 4
      invariant Scanned(size, side, cells, Step(state.Abs(), ret)) == ScanSpec.Check(cells, size, side)
      decreases 5 * size - Progress(state.Abs())
    {
      ghost var st := Step(state.Abs(), ret);
      var stone := state.Stone(cells);
      if stone.Fail? {
        return Fail(stone.error);
      }
      OnBoardColumn(size, side, st.scan);
      if stone.value == Unoccupied {
        var found := state.ProcessUnoccupied(ret);
        if found.Fail? {
          return Fail(found.error);
        }
        ret := found.value;
      } else if stone.value == us {
        var found := state.ProcessFriendly(ret);
        if found.Fail? {
          return Fail(found.error);
        }
        ret := found.value;
      } else {
        var o := state.ProcessUnfriendly();
        if o.Throw? {
          return Fail(o.error);
        }
      }
      assert StepScan(state.edge, Owner(side), cells, st) == Ok(Step(state.Abs(), ret));
    }
    r := Ok(ret);
  }
}
