/** The library's `Board`: the colours of the cells, the player to move, the
    winner, the log of placed stones and the `Analysis` that follows every
    placement and removal.

    The cell colours (`Players`, a two-dimensional array in the source) are
    a map over the cells of the board here, the form the analysis reads
    them in; `Clear` replaces the whole grid, as the source replaces the
    array. The pure queries (`Adjacent`, `IsAdjacentTo`) are in Geometry;
    the bridge queries, which read the colours, are below. */
module Boards {
  import opened Errors
  import opened Int32
  import opened Geometry
  import opened ChainSpec
  import opened ChainAnalysis

  /** The largest board the constructor accepts. */
  const MaxSize: int := 26

  /** A freshly allocated `PlayerColor[n, n]`: every cell Unoccupied. */
  function EmptyGrid(n: int): (g: map<Loc, Color>)
    ensures forall l :: l in g <==> IsValid(l, n)
    ensures forall l :: ColorAt(g, l) == Unoccupied
  {
    map r, c | 0 <= r < n && 0 <= c < n :: Loc(r, c) := Unoccupied
  }

  // ----------------------------------------------------------------------
  // The game state and what each operation does to it.

  /** The board's state: `Players`, `CurPlayer`, `Winner`, `_moves`, and
      the state of its analysis. */
  datatype Game = Game(players: map<Loc, Color>, cur: Color, winner: Color, moves: seq<Loc>, analysis: State)

  /** The shape every reachable game keeps: the colours cover exactly the
      board and the log holds cells of the board only. */
  ghost predicate WellFormed(g: Game, n: int) {
    IsGrid(g.players, n) && forall l :: l in g.moves ==> IsValid(l, n)
  }

  /** `new Board(n)` for 0 <= n <= 26: an empty grid, White to move, no
      winner, an empty log and a fresh analysis (counter at 1). */
  function NewGame(n: int): Game {
    Game(EmptyGrid(n), White, Unoccupied, [], State(ZeroIds(n), map[], 1))
  }

  /** `Clear()`: the grid, the player, the winner and the analysis are
      reset (the analysis counter to 0); the log is kept. */
  function Cleared(g: Game, n: int): Game {
    g.(players := EmptyGrid(n), cur := White, winner := Unoccupied, analysis := State(ZeroIds(n), map[], 0))
  }

  /** `PlaceStone(loc, player)`. Nothing happens once there is a winner or
      on an occupied cell; a cell off the board makes the array access
      throw. Otherwise the cell takes the colour, the analysis runs
      `CheckChainIds` (whose exception propagates before the log is
      touched) and the cell is logged; a winning placement makes the
      player to move the winner. */
  function StonePlaced(g: Game, loc: Loc, player: Color, n: int): (Outcome, Game) {
    if g.winner != Unoccupied then (Pass, g)
    else if !IsValid(loc, n) then (Throw(IndexOutOfRangeException), g)
    else if ColorAt(g.players, loc) != Unoccupied then (Pass, g)
    else
      var g1 := g.(players := g.players[loc := player]);
      Stored(g1, loc, Placed(g1.analysis, g1.players, loc, player, n))
  }

  /** The end of an accepted `PlaceStone`, given what `CheckChainIds` did:
      its exception propagates before the log is touched. */
  function Stored(g: Game, loc: Loc, step: (Result<Placement>, State)): (Outcome, Game) {
    var g1 := g.(analysis := step.1);
    if step.0.Fail? then (Throw(step.0.error), g1)
    else (Pass, g1.(winner := if step.0.value == Won then g.cur else g.winner, moves := g.moves + [loc]))
  }

  /** `Clicked(loc)`: place a stone of the player to move, then hand the
      move over, whether or not the stone was placed. */
  function AfterClick(g: Game, loc: Loc, n: int): (Outcome, Game) {
    var (o, g1) := StonePlaced(g, loc, g.cur, n);
    if o.Throw? then (o, g1) else (Pass, g1.(cur := Other(g1.cur)))
  }

  /** `Undo()`, with at most `fuel` rounds for each loop of the removal:
      with an empty log `Nowhere`; otherwise the last logged cell is taken
      off the log and cleared, the move is handed over, the analysis
      removes the stone as the player now to move, and the winner is
      cleared. */
  function Undone(g: Game, n: int, fuel: nat): (Result<Loc>, Game) {
    if g.moves == [] then (Ok(Nowhere()), g)
    else
      var last := g.moves[|g.moves| - 1];
      if last !in g.players then (Fail(IndexOutOfRangeException), g.(moves := g.moves[..|g.moves| - 1]))
      else
        var g1 := TakenBack(g);
        Finished(g1, last, Removed(g1.analysis, g1.players, last, g1.cur, n, fuel))
  }

  /** The first steps of an `Undo` with a non-empty log: the last cell
      leaves the log and the grid, and the move is handed over. */
  function TakenBack(g: Game): Game
    requires g.moves != []
  {
    var last := g.moves[|g.moves| - 1];
    g.(moves := g.moves[..|g.moves| - 1], players := g.players[last := Unoccupied], cur := Other(g.cur))
  }

  /** The end of an `Undo`, given what the analysis did: an exception
      propagates before the winner is cleared. */
  function Finished(g: Game, last: Loc, removal: (Outcome, State)): (Result<Loc>, Game) {
    if removal.0.Throw? then (Fail(removal.0.error), g.(analysis := removal.1))
    else (Ok(last), g.(analysis := removal.1, winner := Unoccupied))
  }

  // ----------------------------------------------------------------------
  // Properties of the operations.

  /** A new board and a cleared one are well formed, and every operation
      keeps a board well formed. */
  lemma WellFormedKept(g: Game, n: int, loc: Loc, player: Color, fuel: nat)
    requires WellFormed(g, n)
    ensures WellFormed(NewGame(n), n) && WellFormed(Cleared(g, n), n)
    ensures WellFormed(StonePlaced(g, loc, player, n).1, n)
    ensures WellFormed(AfterClick(g, loc, n).1, n)
    ensures WellFormed(Undone(g, n, fuel).1, n)
  {
    PlacedWellFormed(g, loc, player, n);
    PlacedWellFormed(g, loc, g.cur, n);
    UndoneWellFormed(g, n, fuel);
  }

  lemma PlacedWellFormed(g: Game, loc: Loc, player: Color, n: int)
    requires WellFormed(g, n)
    ensures WellFormed(StonePlaced(g, loc, player, n).1, n)
  {
    if g.winner == Unoccupied && IsValid(loc, n) && ColorAt(g.players, loc) == Unoccupied {
      var players := g.players[loc := player];
      var g1 := StonePlaced(g, loc, player, n).1;
      assert g1.players == players;
      assert g1.moves == g.moves || g1.moves == g.moves + [loc];
    }
  }

  lemma UndoneWellFormed(g: Game, n: int, fuel: nat)
    requires WellFormed(g, n)
    ensures WellFormed(Undone(g, n, fuel).1, n)
  {
    if g.moves != [] {
      var m := g.moves;
      assert forall l :: l in m[..|m| - 1] ==> l in m;
      var g2 := Undone(g, n, fuel).1;
      assert g2.moves == m[..|m| - 1];
      assert g2.players == g.players || g2.players == g.players[m[|m| - 1] := Unoccupied];
    }
  }

  /** Once there is a winner, and on an occupied cell, placing a stone
      changes nothing at all. */
  lemma PlaceRejected(g: Game, loc: Loc, player: Color, n: int)
    requires g.winner != Unoccupied || (IsValid(loc, n) && ColorAt(g.players, loc) != Unoccupied)
    ensures StonePlaced(g, loc, player, n) == (Pass, g)
  {
  }

  /** A stone on a free cell of a game without a winner: the cell, and no
      other, takes the colour, and unless the analysis throws the cell is
      logged and the player to move wins exactly when the analysis reports
      a win. The analysis ends as `CheckChainIds` leaves it. */
  lemma PlaceAccepted(g: Game, loc: Loc, player: Color, n: int)
    requires g.winner == Unoccupied && IsValid(loc, n) && ColorAt(g.players, loc) == Unoccupied
    ensures var (o, g1) := StonePlaced(g, loc, player, n);
      var (r, st) := Placed(g.analysis, g.players[loc := player], loc, player, n);
      (forall l :: ColorAt(g1.players, l) == if l == loc then player else ColorAt(g.players, l)) &&
      g1.cur == g.cur && g1.analysis == st &&
      (o.Pass? <==> r.Ok?) &&
      (o.Pass? ==> g1.moves == g.moves + [loc] && g1.winner == if r.value == Won then g.cur else Unoccupied) &&
      (o.Throw? ==> g1.moves == g.moves && g1.winner == Unoccupied)
  {
  }

  /** `Clicked` always hands the move over unless the placement threw:
      also when the stone was refused. */
  lemma ClickToggles(g: Game, loc: Loc, n: int)
    requires AfterClick(g, loc, n).0.Pass?
    ensures AfterClick(g, loc, n).1.cur == Other(g.cur)
    ensures g.winner != Unoccupied ==> AfterClick(g, loc, n).1 == g.(cur := Other(g.cur))
  {
  }

  /** Undo with an empty log returns `Nowhere` and changes nothing. */
  lemma UndoEmpty(g: Game, n: int, fuel: nat)
    requires g.moves == []
    ensures Undone(g, n, fuel) == (Ok(Nowhere()), g)
  {
  }

  /** Undo after an accepted click takes the stone back: the colours, the
      log and the player to move are those before the click, whatever the
      analysis does, and when the removal completes the cell is returned
      and there is no winner. */
  lemma ClickThenUndo(g: Game, loc: Loc, n: int, fuel: nat)
    requires WellFormed(g, n) && g.cur != Unoccupied
    requires g.winner == Unoccupied && IsValid(loc, n) && ColorAt(g.players, loc) == Unoccupied
    requires AfterClick(g, loc, n).0.Pass?
    ensures var (r, g2) := Undone(AfterClick(g, loc, n).1, n, fuel);
      g2.players == g.players && g2.moves == g.moves && g2.cur == g.cur &&
      (r.Ok? ==> r.value == loc && g2.winner == Unoccupied)
  {
    ClickAccepted(g, loc, n);
    UndoRestores(g, AfterClick(g, loc, n).1, loc, n, fuel);
  }

  /** The undo half of `ClickThenUndo`, for any game g1 that a click at
      loc made from g. */
  lemma UndoRestores(g: Game, g1: Game, loc: Loc, n: int, fuel: nat)
    requires loc in g.players && g.players[loc] == Unoccupied && g.cur != Unoccupied
    requires g1.players == g.players[loc := g.cur] && g1.moves == g.moves + [loc] && g1.cur == Other(g.cur)
    ensures var (r, g2) := Undone(g1, n, fuel);
      g2.players == g.players && g2.moves == g.moves && g2.cur == g.cur &&
      (r.Ok? ==> r.value == loc && g2.winner == Unoccupied)
  {
    UndoneShape(g1, n, fuel);
    var m := g1.moves;
    assert m[|m| - 1] == loc && m[..|m| - 1] == g.moves;
    assert g.players[loc := g.cur][loc := Unoccupied] == g.players;
    OtherTwice(g.cur);
  }

  /** A click on a free cell of a game without a winner that does not
      throw: the cell takes the colour of the player to move, it is logged,
      and the move is handed over. */
  lemma ClickAccepted(g: Game, loc: Loc, n: int)
    requires g.winner == Unoccupied && IsValid(loc, n) && ColorAt(g.players, loc) == Unoccupied
    requires AfterClick(g, loc, n).0.Pass?
    ensures var g1 := AfterClick(g, loc, n).1;
      g1.players == g.players[loc := g.cur] && g1.moves == g.moves + [loc] && g1.cur == Other(g.cur)
  {
    PlaceAccepted(g, loc, g.cur, n);
    var g1 := StonePlaced(g, loc, g.cur, n).1;
    assert g1.players == g.players[loc := g.cur];
  }

  /** Undo with a non-empty log whose last cell is on the grid: the cell
      leaves the log and the grid and the move is handed over, whatever the
      analysis does; when the removal completes the cell is returned and
      there is no winner. */
  lemma UndoneShape(g: Game, n: int, fuel: nat)
    requires g.moves != [] && g.moves[|g.moves| - 1] in g.players
    ensures var (r, g2) := Undone(g, n, fuel);
      var last := g.moves[|g.moves| - 1];
      g2.players == g.players[last := Unoccupied] && g2.moves == g.moves[..|g.moves| - 1] &&
      g2.cur == Other(g.cur) && (r.Ok? ==> r.value == last && g2.winner == Unoccupied)
  {
  }

  // ----------------------------------------------------------------------
  // Bridges: two cells that share exactly two neighbours.

  /** `BridgeInfo`: the target of a bridge relative to its source, and the
      two cells that support it. */
  datatype Bridge = Bridge(target: Loc, support1: Loc, support2: Loc)

  /** `BridgeOffsets`, starting from the upper right and going clockwise. */
  const BridgeOffsets: seq<Bridge> := [
    Bridge(Loc(2, -1), Loc(1, -1), Loc(1, 0)),
    Bridge(Loc(1, 1), Loc(1, 0), Loc(0, 1)),
    Bridge(Loc(-1, 2), Loc(0, 1), Loc(-1, 1)),
    Bridge(Loc(-2, 1), Loc(-1, 1), Loc(-1, 0)),
    Bridge(Loc(-1, -1), Loc(-1, 0), Loc(0, -1)),
    Bridge(Loc(1, -2), Loc(0, -1), Loc(1, -1))
  ]

  /** The geometry behind the table: each support is a neighbour of both
      ends of its bridge, the two supports are neighbours of each other,
      and the target is not itself a neighbour of the source. */
  lemma BridgeGeometry(a: Loc, i: int)
    requires 0 <= i < 6
    ensures var b := BridgeOffsets[i];
      var to := Add(a, b.target);
      IsAdjacentTo(Add(a, b.support1), a) && IsAdjacentTo(Add(a, b.support1), to) &&
      IsAdjacentTo(Add(a, b.support2), a) && IsAdjacentTo(Add(a, b.support2), to) &&
      IsAdjacentTo(Add(a, b.support1), Add(a, b.support2)) &&
      Add(a, b.support1) != Add(a, b.support2) && !IsAdjacentTo(to, a) && to != a
  {
    assert Offsets == [Loc(1, -1), Loc(1, 0), Loc(0, 1), Loc(-1, 1), Loc(-1, 0), Loc(0, -1)];
  }

  /** When both ends of a bridge are on the board, so are its supports:
      the supports lie inside the rectangle the two ends span. */
  lemma SupportsOnBoard(a: Loc, i: int, n: int)
    requires 0 <= i < 6 && IsValid(a, n) && IsValid(Add(a, BridgeOffsets[i].target), n)
    ensures IsValid(Add(a, BridgeOffsets[i].support1), n) && IsValid(Add(a, BridgeOffsets[i].support2), n)
  {
  }

  /** `CheckBridge(loc, player, iBridge, includeFriendlyOccupied)`: both
      ends on the board, the target empty (or, when allowed, the player's
      own) and both supports empty. */
  predicate CheckBridge(grid: map<Loc, Color>, n: int, loc: Loc, player: Color, i: int, includeFriendly: bool)
    requires 0 <= i < 6
  {
    var b := BridgeOffsets[i];
    var to := Add(loc, b.target);
    IsValid(to, n) && IsValid(loc, n) &&
    (ColorAt(grid, to) == Unoccupied || (includeFriendly && player == ColorAt(grid, to))) &&
    ColorAt(grid, Add(loc, b.support1)) == Unoccupied &&
    ColorAt(grid, Add(loc, b.support2)) == Unoccupied
  }

  /** `BridgedTo(loc, includeFriendlyOccupied)`: nothing for a cell off the
      board or an empty one; otherwise the targets of the bridges that
      pass `CheckBridge`, in table order. */
  function BridgedTo(grid: map<Loc, Color>, n: int, loc: Loc, includeFriendly: bool): seq<Loc> {
    if !IsValid(loc, n) || ColorAt(grid, loc) == Unoccupied then []
    else BridgedFrom(grid, n, loc, ColorAt(grid, loc), includeFriendly, 0)
  }

  /** The bridges of the table from entry i on. */
  function BridgedFrom(grid: map<Loc, Color>, n: int, loc: Loc, player: Color, includeFriendly: bool, i: nat): seq<Loc>
    requires i <= 6
    decreases 6 - i, loc
  {
    if i == 6 then []
    else
      var rest := BridgedFrom(grid, n, loc, player, includeFriendly, i + 1);
      if CheckBridge(grid, n, loc, player, i, includeFriendly) then [Add(loc, BridgeOffsets[i].target)] + rest
      else rest
  }

  /** The members of `BridgedTo`: for an occupied cell of the board, exactly
      the targets on the board whose supports are empty and which are empty
      or (when allowed) friendly; for any other cell, none. */
  lemma BridgedToMembers(grid: map<Loc, Color>, n: int, loc: Loc, includeFriendly: bool)
    ensures !IsValid(loc, n) || ColorAt(grid, loc) == Unoccupied ==> BridgedTo(grid, n, loc, includeFriendly) == []
    ensures forall x :: x in BridgedTo(grid, n, loc, includeFriendly) <==>
      IsValid(loc, n) && ColorAt(grid, loc) != Unoccupied &&
      exists i :: 0 <= i < 6 && x == Add(loc, BridgeOffsets[i].target) &&
        CheckBridge(grid, n, loc, ColorAt(grid, loc), i, includeFriendly)
  {
    if IsValid(loc, n) && ColorAt(grid, loc) != Unoccupied {
      BridgedFromMembers(grid, n, loc, ColorAt(grid, loc), includeFriendly, 0);
    }
  }

  lemma {:induction false} BridgedFromMembers(grid: map<Loc, Color>, n: int, loc: Loc, player: Color,
                                              includeFriendly: bool, k: nat)
    requires k <= 6
    ensures forall x :: x in BridgedFrom(grid, n, loc, player, includeFriendly, k) <==>
      exists i :: k <= i < 6 && x == Add(loc, BridgeOffsets[i].target) &&
        CheckBridge(grid, n, loc, player, i, includeFriendly)
    decreases 6 - k
  {
    if k < 6 {
      BridgedFromMembers(grid, n, loc, player, includeFriendly, k + 1);
    }
  }

  // ----------------------------------------------------------------------
  // The board object.

  class Board {
    const size: int
    var curPlayer: Color
    var players: map<Loc, Color>
    var winner: Color
    const analysis: Analysis
    var moves: seq<Loc>

    ghost predicate Valid()
      reads this, analysis, analysis.chainIds
    {
      Shape() && analysis.size == size && analysis.Valid()
    }

    /** The board's own fields are well formed. */
    ghost predicate Shape()
      reads this
    {
      0 <= size <= MaxSize && IsGrid(players, size) && (forall l :: l in moves ==> IsValid(l, size))
    }

    ghost function Abs(): Game
      reads this, analysis
    {
      Game(players, curPlayer, winner, moves, analysis.Abs())
    }

    /** `new Board(size = 11)` for a size the constructor accepts. */
    constructor (size: int := 11)
      requires 0 <= size <= MaxSize
      ensures Valid() && this.size == size && fresh(analysis) && fresh(analysis.chainIds)
      ensures Abs() == NewGame(size)
    {
      this.size := size;
      players := EmptyGrid(size);
      curPlayer := White;
      winner := Unoccupied;
      moves := [];
      analysis := new Analysis(size);
    }

    /** `new Board(size = 11)`: sizes above 26 throw `ArgumentException`;
        negative sizes make the array allocation throw
        `OverflowException`. */
    static method Create(size: int := 11) returns (r: Result<Board>)
      ensures r.Ok? <==> 0 <= size <= MaxSize
      ensures size > MaxSize ==> r == Fail(ArgumentException)
      ensures size < 0 ==> r == Fail(OverflowException)
      ensures r.Ok? ==> fresh(r.value) && r.value.Valid() && r.value.size == size && r.value.Abs() == NewGame(size)
    {
      if size > MaxSize {
        return Fail(ArgumentException);
      }
      if size < 0 {
        return Fail(OverflowException);
      }
      var b := new Board(size);
      r := Ok(b);
    }

    method Clear()
      requires Valid()
      modifies this, analysis
      ensures Valid() && Abs() == Cleared(old(Abs()), size)
    {
      players := EmptyGrid(size);
      curPlayer := White;
      winner := Unoccupied;
      analysis.Clear();
    }

    method SetWinner(player: Color)
      modifies this`winner
      ensures winner == player
    {
      winner := player;
    }

    /** `ChangePlayer()`. */
    method ChangePlayer()
      modifies this`curPlayer
      ensures curPlayer == Other(old(curPlayer))
    {
      curPlayer := if curPlayer == Black then White else Black;
    }

    /** `Player(loc)`: the colour of a cell; off the board the array access
        throws. */
    function Player(loc: Loc): (r: Result<Color>)
      reads this, analysis, analysis.chainIds
      requires Valid()
      ensures IsValid(loc, size) <==> r.Ok?
      ensures r.Ok? ==> r.value == ColorAt(players, loc)
      ensures r.Fail? ==> r.error == IndexOutOfRangeException
    {
      if IsValid(loc, size) then Ok(players[loc]) else Fail(IndexOutOfRangeException)
    }

    method PlaceStone(loc: Loc, player: Color) returns (o: Outcome)
      requires Valid()
      modifies this, analysis, analysis.chainIds
      ensures Valid() && analysis.chainIds == old(analysis.chainIds)
      ensures (o, Abs()) == StonePlaced(old(Abs()), loc, player, size)
    {
      if winner != Unoccupied {
        return Pass;
      }
      if !IsValid(loc, size) {
        return Throw(IndexOutOfRangeException);
      }
      if players[loc] != Unoccupied {
        return Pass;
      }
      o := PutStone(loc, player);
    }

    /** The part of `PlaceStone` past its guards. */
    method PutStone(loc: Loc, player: Color) returns (o: Outcome)
      requires Valid() && winner == Unoccupied && IsValid(loc, size) && ColorAt(players, loc) == Unoccupied
      modifies this, analysis, analysis.chainIds
      ensures Valid() && analysis.chainIds == old(analysis.chainIds)
      ensures (o, Abs()) == StonePlaced(old(Abs()), loc, player, size)
    {
      SetCell(loc, player);
      ghost var g1 := Abs();
      var r := analysis.CheckChainIds(players, loc, player);
      o := Record(loc, r, g1);
    }

    /** `Players[loc.Row, loc.Column] = color`. */
    method SetCell(loc: Loc, color: Color)
      requires Shape() && IsValid(loc, size)
      modifies this`players
      ensures Shape() && players == old(players)[loc := color]
    {
      players := players[loc := color];
    }

    /** The end of an accepted placement, once `CheckChainIds` has given
        r: a win makes the player to move the winner, and the cell is
        logged; an exception leaves both alone. */
    method Record(loc: Loc, r: Result<Placement>, ghost g: Game) returns (o: Outcome)
      requires Shape() && IsValid(loc, size) && g == Abs().(analysis := g.analysis)
      modifies this`winner, this`moves
      ensures Shape() && (o, Abs()) == Stored(g, loc, (r, analysis.Abs()))
    {
      if r.Fail? {
        return Throw(r.error);
      }
      if r.value == Won {
        SetWinner(curPlayer);
      }
      moves := moves + [loc];
      o := Pass;
    }

    method Clicked(loc: Loc) returns (o: Outcome)
      requires Valid()
      modifies this, analysis, analysis.chainIds
      ensures Valid() && analysis.chainIds == old(analysis.chainIds)
      ensures (o, Abs()) == AfterClick(old(Abs()), loc, size)
    {
      o := PlaceStone(loc, curPlayer);
      if o.Throw? {
        return;
      }
      ChangePlayer();
    }

    /** `Undo()`, with at most `fuel` rounds for each loop of the removal. */
    method Undo(fuel: nat) returns (r: Result<Loc>)
      requires Valid()
      modifies this, analysis, analysis.chainIds
      ensures Valid() && analysis.chainIds == old(analysis.chainIds)
      ensures (r, Abs()) == Undone(old(Abs()), size, fuel)
    {
      if |moves| == 0 {
        return Ok(Nowhere());
      }
      var lastLocation := TakeBack();
      var o := analysis.CheckIdsOnRemoval(players, lastLocation, curPlayer, fuel);
      if o.Throw? {
        return Fail(o.error);
      }
      winner := Unoccupied;
      r := Ok(lastLocation);
    }

    /** The first steps of `Undo` with a non-empty log. */
    method TakeBack() returns (last: Loc)
      requires Shape() && moves != []
      modifies this`moves, this`players, this`curPlayer
      ensures Shape() && IsValid(last, size) && last == old(moves)[|old(moves)| - 1]
      ensures (players, curPlayer, moves) == (old(players)[last := Unoccupied], Other(old(curPlayer)), old(moves)[..|old(moves)| - 1])
    {
      last := moves[|moves| - 1];
      assert last in moves;
      moves := moves[..|moves| - 1];
      assert forall l :: l in moves ==> l in old(moves);
      SetCell(last, Unoccupied);
      ChangePlayer();
    }
  }
}
