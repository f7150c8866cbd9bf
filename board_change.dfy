/** `BoardChange`: an undo record for one change to the board, a placement
    or a removal, together with the player who was to move before it.

    `Undo` calls three board operations (`RemoveStone(loc, false)`,
    `PlaceStone(loc, color, false)` and `ChangePlayer(player)`) that the
    library's `Board` does not define; the record's `Undo` is therefore
    modelled as the list of calls it makes, and the calls are given their
    evident meaning (clear a cell, colour a cell, set the player to move)
    on the colours and the player alone. */
module BoardChanges {
  import opened Geometry

  datatype BoardChange = BoardChange(location: Loc, isPlacement: bool, oldPlayer: Color, stoneColor: Color)

  /** `IsNull()`: the record is the null change exactly when its location
      is `Nowhere`-like (a negative row). */
  predicate IsNull(c: BoardChange) {
    IsNowhere(c.location)
  }

  /** `NullChange()`: the default struct with location `Nowhere`, so not a
      placement, and both colours the default `Unoccupied`. */
  function NullChange(): (c: BoardChange)
    ensures IsNull(c)
    ensures c.location == Nowhere() && !c.isPlacement
    ensures c.oldPlayer == Unoccupied && c.stoneColor == Unoccupied
  {
    BoardChange(Nowhere(), false, Unoccupied, Unoccupied)
  }

  /** `new BoardChange(location, oldPlayer, isPlacement = true,
      stoneColor = Unoccupied)`. */
  function MakeChange(location: Loc, oldPlayer: Color, isPlacement: bool := true,
                      stoneColor: Color := Unoccupied): (c: BoardChange)
    ensures c.location == location && c.oldPlayer == oldPlayer
    ensures c.isPlacement == isPlacement && c.stoneColor == stoneColor
  {
    BoardChange(location, isPlacement, oldPlayer, stoneColor)
  }

  /** A record built by the constructor from a cell of the board is not the
      null change; the defaults make it a placement with no stone colour. */
  lemma MakeChangeDefaults(location: Loc, oldPlayer: Color, n: int)
    requires IsValid(location, n)
    ensures !IsNull(MakeChange(location, oldPlayer))
    ensures MakeChange(location, oldPlayer).isPlacement
    ensures MakeChange(location, oldPlayer).stoneColor == Unoccupied
  {
  }

  /** The board operations `Undo` calls. */
  datatype BoardCall =
    | RemoveStone(loc: Loc)
    | PlaceStone(loc: Loc, color: Color)
    | ChangePlayer(player: Color)

  /** `Undo(board)`: take the stone back for a placement, put the stone back
      for a removal, then restore the player to move. */
  function UndoCalls(c: BoardChange): (calls: seq<BoardCall>)
    ensures |calls| == 2 && calls[1] == ChangePlayer(c.oldPlayer)
    ensures c.isPlacement ==> calls[0] == RemoveStone(c.location)
    ensures !c.isPlacement ==> calls[0] == PlaceStone(c.location, c.stoneColor)
  {
    [if c.isPlacement then RemoveStone(c.location) else PlaceStone(c.location, c.stoneColor),
     ChangePlayer(c.oldPlayer)]
  }

  /** The colours of the cells and the player to move. */
  datatype Position = Position(cells: map<Loc, Color>, toMove: Color)

  /** The meaning of one call on a position. */
  function Apply(p: Position, call: BoardCall): Position {
    match call
    case RemoveStone(loc) => p.(cells := p.cells[loc := Unoccupied])
    case PlaceStone(loc, color) => p.(cells := p.cells[loc := color])
    case ChangePlayer(player) => p.(toMove := player)
  }

  function ApplyAll(p: Position, calls: seq<BoardCall>): Position
    decreases |calls|
  {
    if calls == [] then p else ApplyAll(Apply(p, calls[0]), calls[1..])
  }

  /** Undoing a recorded placement restores the position before it: the
      record is made before a stone of any colour goes on an empty cell
      and the move passes to anyone. */
  lemma UndoPlacement(p: Position, loc: Loc, color: Color, next: Color)
    requires loc in p.cells && p.cells[loc] == Unoccupied
    ensures var c := MakeChange(loc, p.toMove);
      var after := Position(p.cells[loc := color], next);
      ApplyAll(after, UndoCalls(c)) == p
  {
    var c := MakeChange(loc, p.toMove);
    var after := Position(p.cells[loc := color], next);
    var calls := UndoCalls(c);
    var mid := Apply(after, calls[0]);
    assert mid.cells == p.cells by {
      assert p.cells[loc := color][loc := Unoccupied] == p.cells;
    }
    ApplyTwo(after, calls);
  }

  /** Two calls, applied in order. */
  lemma ApplyTwo(p: Position, calls: seq<BoardCall>)
    requires |calls| == 2
    ensures ApplyAll(p, calls) == Apply(Apply(p, calls[0]), calls[1])
  {
    var p1 := Apply(p, calls[0]);
    assert calls[1..][0] == calls[1] && calls[1..][1..] == [];
    assert ApplyAll(p1, calls[1..]) == ApplyAll(Apply(p1, calls[1]), []);
  }

  /** Undoing a recorded removal restores the position before it: the
      record keeps the colour of the stone taken off. */
  lemma UndoRemoval(p: Position, loc: Loc, next: Color)
    requires loc in p.cells
    ensures var c := MakeChange(loc, p.toMove, false, p.cells[loc]);
      var after := Position(p.cells[loc := Unoccupied], next);
      ApplyAll(after, UndoCalls(c)) == p
  {
    var c := MakeChange(loc, p.toMove, false, p.cells[loc]);
    var after := Position(p.cells[loc := Unoccupied], next);
    var calls := UndoCalls(c);
    var mid := Apply(after, calls[0]);
    assert mid.cells == p.cells by {
      assert p.cells[loc := Unoccupied][loc := p.cells[loc]] == p.cells;
    }
    ApplyTwo(after, calls);
  }
}
