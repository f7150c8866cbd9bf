/** `Hex.Board`, the board of the first version of the engine: the colours
    of the cells, the player to move, the winner, the log of placed stones
    and the `Hex.Analysis` (LegacyAnalysis) that follows every placement
    and removal.

    The game state is the library board's (Boards.Game) with the legacy
    analysis state in it; construction and `Clear` do the same to it. What
    differs is `Clicked`, which places the stone itself and hands the move
    over only when it placed one, and `Undo`, which returns nothing. */
module LegacyBoards {
  import opened Errors
  import opened Int32
  import opened Geometry
  import opened ChainSpec
  import opened Boards
  import LegacySpec
  import LegacyAnalysis

  /** The shape every reachable game keeps: the board's own (WellFormed)
      and an id for every cell of the board. */
  ghost predicate Sound(g: Game, n: int) {
    WellFormed(g, n) && IsGrid(g.analysis.ids, n)
  }

  /** `Clicked(location)`. Nothing happens, and the move is not handed
      over, once there is a winner or on an occupied cell; a cell off the
      board makes the array access throw. Otherwise the cell takes the
      colour of the player to move and the analysis runs `CheckChainIds`
      (whose exception propagates before anything else happens); then the
      cell is logged and the move is handed over. A winning placement
      makes the player who placed the stone the winner. */
  function ClickedAt(g: Game, loc: Loc, n: int): (Outcome, Game)
    requires IsGrid(g.analysis.ids, n)
  {
    if g.winner != Unoccupied then (Pass, g)
    else if !IsValid(loc, n) then (Throw(IndexOutOfRangeException), g)
    else if ColorAt(g.players, loc) != Unoccupied then (Pass, g)
    else
      var (o, g2) := StoneLaid(g, loc, n);
      if o.Throw? then (o, g2) else (Pass, g2.(cur := Other(g2.cur)))
  }

  /** The stone of an accepted click: the cell takes the colour of the
      player to move, the analysis runs, and the cell is logged unless the
      analysis threw. */
  function StoneLaid(g: Game, loc: Loc, n: int): (Outcome, Game)
    requires IsGrid(g.analysis.ids, n)
  {
    var g1 := g.(players := g.players[loc := g.cur]);
    Stored(g1, loc, LegacySpec.Placed(g1.analysis, g1.players, loc, g.cur, n))
  }

  /** `Undo()`, with at most `fuel` rounds of the removal loop: with an
      empty log nothing happens; otherwise the last logged cell is taken
      off the log and cleared, the move is handed back, the analysis
      removes the stone as the player now to move (the one who placed it),
      and the winner is cleared. */
  function MoveUndone(g: Game, n: int, fuel: nat): (Outcome, Game)
    requires IsGrid(g.analysis.ids, n)
  {
    if g.moves == [] then (Pass, g)
    else
      var last := g.moves[|g.moves| - 1];
      if last !in g.players then (Throw(IndexOutOfRangeException), g.(moves := g.moves[..|g.moves| - 1]))
      else
        var g1 := TakenBack(g);
        var (o, st) := LegacySpec.Removed(g1.analysis, g1.players, last, g1.cur, n, fuel);
        if o.Throw? then (o, g1.(analysis := st)) else (Pass, g1.(analysis := st, winner := Unoccupied))
  }

  // ----------------------------------------------------------------------
  // Properties of the operations.

  /** A new board and a cleared one are sound, and clicks and undos keep
      a board sound. */
  lemma SoundKept(g: Game, n: int, loc: Loc, fuel: nat)
    requires Sound(g, n)
    ensures 0 <= n ==> Sound(NewGame(n), n) && Sound(Cleared(g, n), n)
    ensures Sound(ClickedAt(g, loc, n).1, n)
    ensures Sound(MoveUndone(g, n, fuel).1, n)
  {
    if 0 <= n {
      ZeroIdsGrid(n);
    }
    ClickKeepsSound(g, loc, n);
    UndoKeepsSound(g, n, fuel);
  }

  lemma ClickKeepsSound(g: Game, loc: Loc, n: int)
    requires Sound(g, n)
    ensures Sound(ClickedAt(g, loc, n).1, n)
  {
    if g.winner == Unoccupied && IsValid(loc, n) && ColorAt(g.players, loc) == Unoccupied {
      var g1 := StoneLaid(g, loc, n).1;
      assert g1.players == g.players[loc := g.cur];
      assert g1.moves == g.moves || g1.moves == g.moves + [loc];
      assert ClickedAt(g, loc, n).1 == g1 || ClickedAt(g, loc, n).1 == g1.(cur := Other(g1.cur));
    }
  }

  lemma UndoKeepsSound(g: Game, n: int, fuel: nat)
    requires Sound(g, n)
    ensures Sound(MoveUndone(g, n, fuel).1, n)
  {
    if g.moves != [] {
      var m := g.moves;
      assert forall l :: l in m[..|m| - 1] ==> l in m;
      var g2 := MoveUndone(g, n, fuel).1;
      assert g2.moves == m[..|m| - 1];
      assert g2.players == g.players[m[|m| - 1] := Unoccupied];
    }
  }

  /** The id grid of a fresh analysis covers the board. */
  lemma ZeroIdsGrid(n: int)
    requires 0 <= n
    ensures IsGrid(ZeroIds(n), n)
  {
    forall l | IsValid(l, n)
      ensures l in ZeroIds(n)
    {
      assert 0 <= l.row < n && 0 <= l.column < n;
    }
  }

  /** Once there is a winner, and on an occupied cell, a click changes
      nothing at all: not even the player to move. */
  lemma ClickRejected(g: Game, loc: Loc, n: int)
    requires IsGrid(g.analysis.ids, n)
    requires g.winner != Unoccupied || (IsValid(loc, n) && ColorAt(g.players, loc) != Unoccupied)
    ensures ClickedAt(g, loc, n) == (Pass, g)
  {
  }

  /** A click on a free cell of a game without a winner: the cell takes
      the colour of the player to move and the analysis ends as
      `CheckChainIds` leaves it. Unless it threw, the cell is logged, the
      move is handed over and the player who placed the stone wins exactly
      when the analysis reports a win; if it threw, nothing else changes. */
  lemma ClickAccepted(g: Game, loc: Loc, n: int)
    requires IsGrid(g.analysis.ids, n)
    requires g.winner == Unoccupied && IsValid(loc, n) && ColorAt(g.players, loc) == Unoccupied
    ensures var (o, g1) := ClickedAt(g, loc, n);
      var (r, st) := LegacySpec.Placed(g.analysis, g.players[loc := g.cur], loc, g.cur, n);
      g1.players == g.players[loc := g.cur] && g1.analysis == st && (o.Pass? <==> r.Ok?) &&
      (o.Pass? ==> g1.moves == g.moves + [loc] && g1.cur == Other(g.cur) &&
                   g1.winner == if r.value == Won then g.cur else Unoccupied) &&
      (o.Throw? ==> g1.moves == g.moves && g1.cur == g.cur && g1.winner == Unoccupied)
  {
  }

  /** Undo with an empty log changes nothing. */
  lemma UndoEmpty(g: Game, n: int, fuel: nat)
    requires IsGrid(g.analysis.ids, n) && g.moves == []
    ensures MoveUndone(g, n, fuel) == (Pass, g)
  {
  }

  /** Undo after a click that placed a stone takes it back: the colours,
      the log and the player to move are those before the click, whatever
      the analysis does, and when the removal completes there is no
      winner. */
  lemma ClickThenUndo(g: Game, loc: Loc, n: int, fuel: nat)
    requires Sound(g, n) && g.cur != Unoccupied
    requires g.winner == Unoccupied && IsValid(loc, n) && ColorAt(g.players, loc) == Unoccupied
    requires ClickedAt(g, loc, n).0.Pass?
    ensures IsGrid(ClickedAt(g, loc, n).1.analysis.ids, n)
    ensures var (o, g2) := MoveUndone(ClickedAt(g, loc, n).1, n, fuel);
      g2.players == g.players && g2.moves == g.moves && g2.cur == g.cur &&
      (o.Pass? ==> g2.winner == Unoccupied)
  {
    ClickAccepted(g, loc, n);
    var g1 := ClickedAt(g, loc, n).1;
    var m := g1.moves;
    assert m[|m| - 1] == loc && m[..|m| - 1] == g.moves;
    assert g.players[loc := g.cur][loc := Unoccupied] == g.players;
    OtherTwice(g.cur);
  }

  /** What the removal of an undo keeps: the cleared cell gets id 0 and
      every cell not of the colour of the removed stone keeps its id;
      when the removal completes, no neighbour of that colour still
      carries the id the removed stone had. */
  lemma UndoRelabelsOwnColourOnly(g: Game, n: int, fuel: nat)
    requires Sound(g, n) && g.moves != []
    ensures var last := g.moves[|g.moves| - 1];
      var (o, g2) := MoveUndone(g, n, fuel);
      (forall l :: ColorAt(g2.players, l) != g2.cur ==>
         IdOf(g2.analysis.ids, l) == if l == last then 0 else IdOf(g.analysis.ids, l)) &&
      (o.Pass? ==> forall l :: l in Adjacent(last, n) && ColorAt(g2.players, l) == g2.cur ==>
         IdOf(g2.analysis.ids, l) != IdOf(g.analysis.ids, last))
  {
    var last := g.moves[|g.moves| - 1];
    assert last in g.moves;
    var g1 := TakenBack(g);
    var g2 := MoveUndone(g, n, fuel).1;
    assert g2.players == g1.players && g2.cur == g1.cur;
    assert g2.analysis == LegacySpec.Removed(g1.analysis, g1.players, last, g1.cur, n, fuel).1;
    forall l | ColorAt(g2.players, l) != g2.cur
      ensures IdOf(g2.analysis.ids, l) == if l == last then 0 else IdOf(g.analysis.ids, l)
    {
      LegacySpec.RemovedKeeps(g1.analysis, g1.players, last, g1.cur, n, fuel, l);
    }
    if MoveUndone(g, n, fuel).0.Pass? {
      LegacySpec.RemovedEnd(g1.analysis, g1.players, last, g1.cur, n, fuel);
    }
  }

  // ----------------------------------------------------------------------
  // The board object.

  class Board {
    const size: int
    var curPlayer: Color
    var players: map<Loc, Color>
    var winner: Color
    const analysis: LegacyAnalysis.Analysis
    var moves: seq<Loc>

    ghost predicate Valid()
      reads this, analysis, analysis.chainIds
    {
      Shape() && analysis.size == size && analysis.Valid()
    }

    /** The board's own fields are well formed. */
    ghost predicate Shape()
      reads this
    {
      0 <= size <= MaxSize && IsGrid(players, size) && (forall l :: l in moves ==> IsValid(l, size))
    }

    ghost function Abs(): Game
      reads this, analysis
    {
      Game(players, curPlayer, winner, moves, analysis.Abs())
    }

    /** `new Board(size = 11)` for a size the constructor accepts: an empty
        grid, White to move, no winner, an empty log and a fresh analysis
        (counter at 1). */
    constructor (size: int := 11)
      requires 0 <= size <= MaxSize
      ensures Valid() && this.size == size && fresh(analysis)
      ensures Abs() == NewGame(size)
    {
      this.size := size;
      players := EmptyGrid(size);
      curPlayer := White;
      winner := Unoccupied;
      moves := [];
      analysis := new LegacyAnalysis.Analysis(size);
    }

    /** `new Board(size = 11)`: sizes above 26 throw `ArgumentException`;
        negative sizes make the array allocation throw
        `OverflowException`. */
    static method Create(size: int := 11) returns (r: Result<Board>)
      ensures r.Ok? <==> 0 <= size <= MaxSize
      ensures size > MaxSize ==> r == Fail(ArgumentException)
      ensures size < 0 ==> r == Fail(OverflowException)
      ensures r.Ok? ==> fresh(r.value) && r.value.Valid() && r.value.size == size && r.value.Abs() == NewGame(size)
    {
      if size > MaxSize {
        return Fail(ArgumentException);
      }
      if size < 0 {
        return Fail(OverflowException);
      }
      var b := new Board(size);
      r := Ok(b);
    }

    /** `Clear()`: the log is kept. */
    method Clear()
      requires Valid()
      modifies this, analysis
      ensures Valid() && Abs() == Cleared(old(Abs()), size)
    {
      players := EmptyGrid(size);
      curPlayer := White;
      winner := Unoccupied;
      analysis.Clear();
    }

    method SetWinner(player: Color)
      modifies this`winner
      ensures winner == player
    {
      winner := player;
    }

    /** `ChangePlayer()`. */
    method ChangePlayer()
      modifies this`curPlayer
      ensures curPlayer == Other(old(curPlayer))
    {
      curPlayer := if curPlayer == Black then White else Black;
    }

    /** `Player(loc)`: the colour of a cell; off the board the array access
        throws. */
    function Player(loc: Loc): (r: Result<Color>)
      reads this, analysis, analysis.chainIds
      requires Valid()
      ensures IsValid(loc, size) <==> r.Ok?
      ensures r.Ok? ==> r.value == ColorAt(players, loc)
      ensures r.Fail? ==> r.error == IndexOutOfRangeException
    {
      if IsValid(loc, size) then Ok(players[loc]) else Fail(IndexOutOfRangeException)
    }

    method Clicked(loc: Loc) returns (o: Outcome)
      requires Valid()
      modifies this, analysis, analysis.chainIds
      ensures Valid() && analysis.chainIds == old(analysis.chainIds)
      ensures (o, Abs()) == ClickedAt(old(Abs()), loc, size)
    {
      if winner != Unoccupied {
        return Pass;
      }
      if !IsValid(loc, size) {
        return Throw(IndexOutOfRangeException);
      }
      if players[loc] != Unoccupied {
        return Pass;
      }
      o := PutStone(loc);
      if o.Throw? {
        return;
      }
      ChangePlayer();
    }

    /** The stone of an accepted click. */
    method PutStone(loc: Loc) returns (o: Outcome)
      requires Valid() && winner == Unoccupied && IsValid(loc, size) && ColorAt(players, loc) == Unoccupied
      modifies this, analysis, analysis.chainIds
      ensures Valid() && analysis.chainIds == old(analysis.chainIds) && curPlayer == old(curPlayer)
      ensures (o, Abs()) == StoneLaid(old(Abs()), loc, size)
    {
      SetCell(loc, curPlayer);
      ghost var g1 := Abs();
      var r := analysis.CheckChainIds(players, loc, curPlayer);
      o := Record(loc, r, g1);
    }

    /** `Players[location.Row, location.Column] = color`. */
    method SetCell(loc: Loc, color: Color)
      requires Shape() && IsValid(loc, size)
      modifies this`players
      ensures Shape() && players == old(players)[loc := color]
    {
      players := players[loc := color];
    }

    /** The analysis has given r: a win makes the player to move the
        winner, and the cell is logged; an exception leaves both alone. */
    method Record(loc: Loc, r: Result<Placement>, ghost g: Game) returns (o: Outcome)
      requires Shape() && IsValid(loc, size) && g == Abs().(analysis := g.analysis)
      modifies this`winner, this`moves
      ensures Shape() && (o, Abs()) == Stored(g, loc, (r, analysis.Abs()))
    {
      if r.Fail? {
        return Throw(r.error);
      }
      if r.value == Won {
        SetWinner(curPlayer);
      }
      moves := moves + [loc];
      o := Pass;
    }

    /** `Undo()`, with at most `fuel` rounds of the removal loop. */
    method Undo(fuel: nat) returns (o: Outcome)
      requires Valid()
      modifies this, analysis, analysis.chainIds
      ensures Valid() && analysis.chainIds == old(analysis.chainIds)
      ensures (o, Abs()) == MoveUndone(old(Abs()), size, fuel)
    {
      if |moves| == 0 {
        return Pass;
      }
      var lastLocation := TakeBack();
      o := analysis.CheckIdsOnRemoval(players, lastLocation, curPlayer, fuel);
      if o.Throw? {
        return;
      }
      winner := Unoccupied;
    }

    /** The first steps of `Undo` with a non-empty log. */
    method TakeBack() returns (last: Loc)
      requires Shape() && moves != []
      modifies this`moves, this`players, this`curPlayer
      ensures Shape() && IsValid(last, size) && last == old(moves)[|old(moves)| - 1]
      ensures (players, curPlayer, moves) == (old(players)[last := Unoccupied], Other(old(curPlayer)), old(moves)[..|old(moves)| - 1])
    {
      last := moves[|moves| - 1];
      assert last in moves;
      moves := moves[..|moves| - 1];
      assert forall l :: l in moves ==> l in old(moves);
      SetCell(last, Unoccupied);
      ChangePlayer();
    }
  }
}
