/** The library's chain unit tests, step by step: a White stone at (6, 6)
    alone, a second one at (8, 6) making a second chain, a third at (7, 6)
    joining the two, and `Undo` taking the third back. Each lemma gives the
    exact board, analysis included, that the board's `PlaceStone` or `Undo`
    leaves after the step before, on every board of size 10 or more (the
    tests use the default 11), where the three cells and their neighbours
    are inside the board and off White's edges.

    The tests place stones with `PlaceStone`, which does not hand the move
    over, so White is still to move when `Undo` runs; `Undo` hands the move
    to Black and removes the stone as Black. No Black stone is next to
    (7, 6), so the removal only drops the joined chain's list: the two
    remaining stones keep an id that no longer has a list. Removing the
    same stone as White, the colour of the stone (as `Undo` does after
    `Clicked`), gives the two one-stone chains the tests look for. */
module ChainScenarios {
  import opened Errors
  import opened Int32
  import opened Geometry
  import opened ChainSpec
  import opened Boards

  const Upper: Loc := Loc(6, 6)
  const Middle: Loc := Loc(7, 6)
  const Lower: Loc := Loc(8, 6)

  /** The colours after the first, second and third placement. */
  function Colours1(n: int): map<Loc, Color> { EmptyGrid(n)[Upper := White] }
  function Colours2(n: int): map<Loc, Color> { Colours1(n)[Lower := White] }
  function Colours3(n: int): map<Loc, Color> { Colours2(n)[Middle := White] }

  /** The analysis after each placement: ids 2 and 3 come from the counter,
      which starts at 1 and advances once per placement. */
  function Analysis1(n: int): State { State(ZeroIds(n)[Upper := 2], map[2 := [Upper]], 2) }
  function Analysis2(n: int): State { State(Analysis1(n).ids[Lower := 3], map[2 := [Upper], 3 := [Lower]], 3) }
  function Analysis3(n: int): State { State(Analysis2(n).ids[Middle := 2][Lower := 2], map[2 := [Upper, Middle, Lower]], 4) }

  /** The boards after each placement: White still to move, no winner. */
  function Game1(n: int): Game { Game(Colours1(n), White, Unoccupied, [Upper], Analysis1(n)) }
  function Game2(n: int): Game { Game(Colours2(n), White, Unoccupied, [Upper, Lower], Analysis2(n)) }
  function Game3(n: int): Game { Game(Colours3(n), White, Unoccupied, [Upper, Lower, Middle], Analysis3(n)) }

  /** No neighbour of loc (in offset order, on the board or not) has the
      colour. */
  predicate Alone(grid: map<Loc, Color>, loc: Loc, player: Color) {
    forall k :: 0 <= k < 6 ==> ColorAt(grid, Add(loc, Offsets[k])) != player
  }

  /** Filtering cells none of which has the colour leaves nothing. */
  lemma {:induction false} LikeNone(grid: map<Loc, Color>, locs: seq<Loc>, player: Color)
    requires forall k :: 0 <= k < |locs| ==> ColorAt(grid, locs[k]) != player
    ensures Like(grid, locs, player) == []
  {
    if locs != [] {
      LikeNone(grid, locs[1..], player);
    }
  }

  /** The absorbing scan over offsets i .. 5 finds nothing when none of
      those neighbours has the colour. */
  lemma {:induction false} EliminatedNone(grid: map<Loc, Color>, ids: map<Loc, I32>, loc: Loc, player: Color,
                                          id: I32, n: int, i: nat)
    requires i <= 6
    requires forall k :: i <= k < 6 ==> ColorAt(grid, Add(loc, Offsets[k])) != player
    ensures Eliminated(grid, ids, loc, player, id, n, i, []) == []
    decreases 6 - i
  {
    if i < 6 {
      EliminatedNone(grid, ids, loc, player, id, n, i + 1);
    }
  }

  /** A stone with no neighbour of its colour has no connections and
      absorbs nothing. */
  lemma Isolated(grid: map<Loc, Color>, ids: map<Loc, I32>, loc: Loc, player: Color, id: I32, n: int)
    requires Alone(grid, loc, player)
    ensures Like(grid, Adjacent(loc, n), player) == []
    ensures Eliminated(grid, ids, loc, player, id, n, 0, []) == []
  {
    var adj := Adjacent(loc, n);
    AdjacentMembers(loc, n);
    forall j | 0 <= j < |adj| ensures ColorAt(grid, adj[j]) != player {
      var x := adj[j];
      assert x in adj && IsAdjacentTo(x, loc);
      var k :| 0 <= k < 6 && Offsets[k] == Sub(x, loc);
      assert x == Add(loc, Offsets[k]);
    }
    LikeNone(grid, adj, player);
    EliminatedNone(grid, ids, loc, player, id, n, 0);
  }

  /** `CheckChainIds` for a stone off its colour's edges with no neighbour
      of its colour: the stone starts a chain of its own under the next
      counter value, listing the stone alone. */
  lemma PlacedAlone(st: State, grid: map<Loc, Color>, loc: Loc, player: Color, n: int)
    requires player != Unoccupied && IsValid(loc, n) && loc in st.ids
    requires ColorAt(grid, loc) == player && EdgeId(loc, player, n) == 0 && Alone(grid, loc, player)
    requires Increment(st.next) !in st.chains
    ensures var newId := Increment(st.next);
      Placed(st, grid, loc, player, n) == (Ok(Labelled), State(st.ids[loc := newId], st.chains[newId := [loc]], newId))
  {
    var newId := Increment(st.next);
    var (cand, st1) := Candidate(st, loc, player, n);
    assert cand == newId && st1 == st.(next := newId);
    Isolated(grid, st1.ids, loc, player, newId, n);
    var vals := [cand] + IdsAt(st1.ids, Like(grid, Adjacent(loc, n), player));
    assert vals == [newId];
    assert !TwoEdges(vals);
    var st2 := st1.(ids := st.ids[loc := newId]);
    assert PutId(st1.ids, loc, SeqMin(vals)) == st2.ids;
    Isolated(grid, st2.ids, loc, player, newId, n);
    assert [] + [loc] == [loc];
    assert Promulgated(st2, grid, loc, n) == (Pass, st2.(chains := st.chains[newId := [loc]]));
  }

  /** `PlaceStone` of such a stone on a free cell of a game without a
      winner: the cell takes the colour and is logged, and the analysis is
      that of `PlacedAlone`; the player to move stays. */
  lemma StoneAlone(g: Game, loc: Loc, player: Color, n: int)
    requires g.winner == Unoccupied && IsValid(loc, n) && ColorAt(g.players, loc) == Unoccupied
    requires player != Unoccupied && loc in g.analysis.ids && EdgeId(loc, player, n) == 0
    requires Alone(g.players, loc, player) && Increment(g.analysis.next) !in g.analysis.chains
    ensures var st := g.analysis; var newId := Increment(st.next);
      StonePlaced(g, loc, player, n) == (Pass, g.(players := g.players[loc := player], moves := g.moves + [loc],
        analysis := State(st.ids[loc := newId], st.chains[newId := [loc]], newId)))
  {
    var grid := g.players[loc := player];
    forall k | 0 <= k < 6 ensures ColorAt(grid, Add(loc, Offsets[k])) != player {
      assert Add(loc, Offsets[k]) != loc;
    }
    PlacedAlone(g.analysis, grid, loc, player, n);
  }

  /** `TestOneInsert`: the first stone gets the non-zero id 2, whose list is
      the stone alone. */
  lemma OneInsert(n: int)
    requires 10 <= n
    ensures StonePlaced(NewGame(n), Upper, White, n) == (Pass, Game1(n))
    ensures IdOf(Game1(n).analysis.ids, Upper) == 2 && Game1(n).analysis.chains[2] == [Upper]
  {
    var g := NewGame(n);
    assert Increment(1) == 2;
    StoneAlone(g, Upper, White, n);
    assert [] + [Upper] == [Upper];
  }

  /** The second stone, two rows below and not adjacent, starts its own
      chain with id 3. */
  lemma SecondInsert(n: int)
    requires 10 <= n
    ensures StonePlaced(Game1(n), Lower, White, n) == (Pass, Game2(n))
  {
    var g := Game1(n);
    assert Increment(2) == 3;
    OnlyUpper(n);
    forall k | 0 <= k < 6 ensures ColorAt(g.players, Add(Lower, Offsets[k])) != White {
      assert Add(Lower, Offsets[k]) != Upper;
    }
    StoneAlone(g, Lower, White, n);
    assert [Upper] + [Lower] == [Upper, Lower];
    assert g.analysis.chains[3 := [Lower]] == Analysis2(n).chains;
  }

  /** The first board: White at (6, 6) only. */
  lemma OnlyUpper(n: int)
    ensures forall l :: ColorAt(Colours1(n), l) == if l == Upper then White else Unoccupied
  {
  }

  /** The second board: White at (6, 6) and (8, 6) only; on it and on the
      third board, the White neighbours of (7, 6) are those two. */
  lemma OnlyTwo(n: int)
    ensures forall l :: ColorAt(Colours2(n), l) == if l == Upper || l == Lower then White else Unoccupied
    ensures AroundMiddle(Colours2(n)) && AroundMiddle(Colours3(n)) && ColorAt(Colours3(n), Middle) == White
  {
  }

  /** The ids the second and third analyses give the three cells. */
  lemma IdsOnBoard(n: int)
    requires 10 <= n
    ensures var ids := Analysis2(n).ids;
      Middle in ids && Lower in ids && IdOf(ids, Middle) == 0 && IdOf(ids, Lower) == 3 && IdOf(ids, Upper) == 2
    ensures var ids := Analysis3(n).ids;
      Middle in ids && IdOf(ids, Middle) == 2 && IdOf(ids, Lower) == 2 && IdOf(ids, Upper) == 2
    ensures Lower in Analysis3(n).ids && Upper in Analysis3(n).ids
  {
  }

  /** On the second board (8, 6) and (6, 6) are White with no White
      neighbour, and (7, 6) has no Black neighbour. */
  lemma StonesAlone(n: int)
    ensures ColorAt(Colours2(n), Lower) == White && Alone(Colours2(n), Lower, White)
    ensures ColorAt(Colours2(n), Upper) == White && Alone(Colours2(n), Upper, White)
    ensures Alone(Colours2(n), Middle, Black)
  {
    OnlyTwo(n);
    LowerAlone(n);
    UpperAlone(n);
  }

  /** (8, 6) has no White neighbour on the second board. */
  lemma LowerAlone(n: int)
    ensures Alone(Colours2(n), Lower, White)
  {
    OnlyTwo(n);
    forall k | 0 <= k < 6 ensures ColorAt(Colours2(n), Add(Lower, Offsets[k])) != White {
      assert Add(Lower, Offsets[k]) != Lower && Add(Lower, Offsets[k]) != Upper;
    }
  }

  /** Nor has (6, 6). */
  lemma UpperAlone(n: int)
    ensures Alone(Colours2(n), Upper, White)
  {
    OnlyTwo(n);
    forall k | 0 <= k < 6 ensures ColorAt(Colours2(n), Add(Upper, Offsets[k])) != White {
      assert Add(Upper, Offsets[k]) != Lower && Add(Upper, Offsets[k]) != Upper;
    }
  }

  /** After the second stone White has two chains, each listing its stone. */
  lemma TwoChains(n: int)
    requires 10 <= n
    ensures ChainCounted(Game2(n).analysis.chains, Game2(n).players, White) == Ok(2)
  {
    var chains := Game2(n).analysis.chains;
    assert forall id :: id in chains ==> chains[id] != [];
    assert ChainsOf(chains, Game2(n).players, White) == {2, 3};
  }

  /** White at (8, 6) and (6, 6), nothing at the four other neighbours of
      (7, 6). */
  predicate AroundMiddle(grid: map<Loc, Color>) {
    ColorAt(grid, Lower) == White && ColorAt(grid, Upper) == White &&
    ColorAt(grid, Loc(8, 5)) == Unoccupied && ColorAt(grid, Loc(7, 7)) == Unoccupied &&
    ColorAt(grid, Loc(6, 7)) == Unoccupied && ColorAt(grid, Loc(7, 5)) == Unoccupied
  }

  /** The neighbours of (7, 6) in offset order, all on a board of size 10
      or more. */
  lemma MiddleAdjacent(n: int)
    requires 10 <= n
    ensures Adjacent(Middle, n) == [Loc(8, 5), Lower, Loc(7, 7), Loc(6, 7), Upper, Loc(7, 5)]
  {
  }

  /** The White neighbours of (7, 6) in offset order: (8, 6) comes before
      (6, 6). */
  lemma MiddleNeighbours(n: int, grid: map<Loc, Color>)
    requires 10 <= n && AroundMiddle(grid)
    ensures Like(grid, Adjacent(Middle, n), White) == [Lower, Upper]
  {
    MiddleAdjacent(n);
    var adj := [Loc(8, 5), Lower, Loc(7, 7), Loc(6, 7), Upper, Loc(7, 5)];
    assert Like(grid, adj[5..], White) == [];
    assert Like(grid, adj[4..], White) == [Upper];
    assert Like(grid, adj[3..], White) == [Upper];
    assert Like(grid, adj[2..], White) == [Upper];
    assert Like(grid, adj[1..], White) == [Lower, Upper];
  }

  /** With (7, 6) labelled 2, its scan absorbs the chain of (8, 6) only:
      (6, 6) already carries 2. */
  lemma MiddleAbsorbs(grid: map<Loc, Color>, ids: map<Loc, I32>, n: int)
    requires 10 <= n && AroundMiddle(grid) && IdOf(ids, Lower) == 3 && IdOf(ids, Upper) == 2
    ensures Eliminated(grid, ids, Middle, White, 2, n, 0, []) == [3]
  {
    assert Eliminated(grid, ids, Middle, White, 2, n, 2, [3]) == [3] by {
      EliminatedNone(grid, ids, Middle, White, 2, n, 5);
      assert Eliminated(grid, ids, Middle, White, 2, n, 5, [3]) == [3];
      assert Eliminated(grid, ids, Middle, White, 2, n, 4, [3]) == [3];
      assert Eliminated(grid, ids, Middle, White, 2, n, 3, [3]) == [3];
    }
    assert Eliminated(grid, ids, Middle, White, 2, n, 1, []) == [3];
  }

  /** `PromulgateId` at (7, 6) labelled 2: its list becomes [(6, 6), (7, 6)],
      then the chain with id 3 is relabelled to 2 and its list appended. */
  lemma MiddleJoins(st: State, grid: map<Loc, Color>, n: int)
    requires 10 <= n && AroundMiddle(grid) && ColorAt(grid, Middle) == White
    requires IdOf(st.ids, Middle) == 2 && IdOf(st.ids, Lower) == 3 && IdOf(st.ids, Upper) == 2 && Lower in st.ids
    requires st.chains == map[2 := [Upper], 3 := [Lower]]
    ensures Promulgated(st, grid, Middle, n) ==
      (Pass, st.(ids := st.ids[Lower := 2], chains := map[2 := [Upper, Middle, Lower]]))
  {
    MiddleAbsorbs(grid, st.ids, n);
    assert [Upper] + [Middle] == [Upper, Middle] && [Upper, Middle] + [Lower] == [Upper, Middle, Lower];
    var st3 := st.(chains := st.chains[2 := [Upper, Middle]]);
    assert Relabelled(st3.ids, [Lower], 2) == st.ids[Lower := 2];
    assert st3.chains[2 := [Upper, Middle, Lower]] - {3} == map[2 := [Upper, Middle, Lower]];
    assert [3][1..] == [];
    assert Absorbed(st3, 2, [3]) == (Pass, st.(ids := st.ids[Lower := 2], chains := map[2 := [Upper, Middle, Lower]]));
  }

  /** The same on the third board, starting from the second analysis with
      (7, 6) labelled 2 and the counter at 4: the result is the third
      analysis. */
  lemma MiddleJoinsOnBoard(n: int)
    requires 10 <= n
    ensures Promulgated(State(Analysis2(n).ids[Middle := 2], Analysis2(n).chains, 4), Colours3(n), Middle, n) == (Pass, Analysis3(n))
  {
    OnlyTwo(n);
    IdsOnBoard(n);
    MiddleJoins(State(Analysis2(n).ids[Middle := 2], Analysis2(n).chains, 4), Colours3(n), n);
  }

  /** The ids (7, 6) compares: the candidate 4 and the neighbours' 3 and 2,
      with no edge among them; the least is 2. */
  lemma LeastOfThree()
    ensures !TwoEdges([4, 3, 2]) && SeqMin([4, 3, 2]) == 2
  {
    var vals: seq<I32> := [4, 3, 2];
    assert forall k :: 0 <= k < |vals| ==> vals[k] >= 0;
    assert SeqMin(vals[1..]) == 2 by {
      assert vals[1..] == [3, 2] && [3, 2][1..] == [2];
    }
  }

  /** `CheckChainIds` of a stone that does not win: the ids compared are
      the candidate's and the like-coloured neighbours', the stone takes the
      least, and `PromulgateId` runs from there. */
  lemma PlacedVia(st: State, grid: map<Loc, Color>, loc: Loc, player: Color, n: int,
                  cand: I32, st1: State, least: I32, after: State)
    requires player != Unoccupied && IsValid(loc, n) && ColorAt(grid, loc) == player
    requires Candidate(st, loc, player, n) == (cand, st1)
    requires var vals := [cand] + IdsAt(st1.ids, Like(grid, Adjacent(loc, n), player));
      !TwoEdges(vals) && SeqMin(vals) == least
    requires Promulgated(st1.(ids := PutId(st1.ids, loc, least)), grid, loc, n) == (Pass, after)
    ensures Placed(st, grid, loc, player, n) == (Ok(Labelled), after)
  {
  }

  /** The ids of the White neighbours of (7, 6) on the third board, before
      the merge, after the candidate 4. */
  lemma MiddleIds(n: int)
    requires 10 <= n
    ensures [4] + IdsAt(Analysis2(n).ids, Like(Colours3(n), Adjacent(Middle, n), White)) == [4, 3, 2]
  {
    OnlyTwo(n);
    IdsOnBoard(n);
    MiddleNeighbours(n, Colours3(n));
  }

  /** `CheckChainIds` for (7, 6): the candidate 4 and the neighbours' 3 and
      2 give the least, 2. */
  lemma MiddlePlaced(n: int)
    requires 10 <= n
    ensures Placed(Analysis2(n), Colours3(n), Middle, White, n) == (Ok(Labelled), Analysis3(n))
  {
    var st, grid := Analysis2(n), Colours3(n);
    OnlyTwo(n);
    var st1 := st.(next := 4);
    assert Candidate(st, Middle, White, n) == (4, st1) by {
      assert Increment(3) == 4;
    }
    MiddleIds(n);
    LeastOfThree();
    assert st1.(ids := PutId(st1.ids, Middle, 2)) == State(st.ids[Middle := 2], st.chains, 4);
    MiddleJoinsOnBoard(n);
    PlacedVia(st, grid, Middle, White, n, 4, st1, 2, Analysis3(n));
  }

  /** `PlaceStone` on a free cell of a game without a winner, given what
      `CheckChainIds` does when it does not win: the cell takes the colour
      and is logged, and the analysis is the one computed. */
  lemma StoneVia(g: Game, loc: Loc, player: Color, n: int, after: State)
    requires g.winner == Unoccupied && IsValid(loc, n) && ColorAt(g.players, loc) == Unoccupied
    requires Placed(g.analysis, g.players[loc := player], loc, player, n) == (Ok(Labelled), after)
    ensures StonePlaced(g, loc, player, n) == (Pass, g.(players := g.players[loc := player], moves := g.moves + [loc], analysis := after))
  {
  }

  /** The third stone joins the two chains: it takes the smaller id 2, the
      chain with id 3 is absorbed, and White has one chain of the three
      stones, listed in the order they joined it. */
  lemma Amalgamation(n: int)
    requires 10 <= n
    ensures StonePlaced(Game2(n), Middle, White, n) == (Pass, Game3(n))
  {
    MiddlePlaced(n);
    assert ColorAt(Colours2(n), Middle) == Unoccupied;
    StoneVia(Game2(n), Middle, White, n, Analysis3(n));
    assert [Upper, Lower] + [Middle] == [Upper, Lower, Middle];
  }

  /** After the third stone White has one chain. */
  lemma OneChain(n: int)
    requires 10 <= n
    ensures ChainCounted(Game3(n).analysis.chains, Game3(n).players, White) == Ok(1)
  {
    assert ChainsOf(Analysis3(n).chains, Colours3(n), White) == {2};
  }

  /** Taking (7, 6) back off the log and the grid hands the move to Black
      and leaves the colours of the second board. */
  lemma TakenBackMiddle(n: int)
    requires 10 <= n
    ensures TakenBack(Game3(n)) == Game(Colours2(n), Black, Unoccupied, [Upper, Lower], Analysis3(n))
  {
    assert Middle in EmptyGrid(n) && ColorAt(EmptyGrid(n), Middle) == Unoccupied;
    assert Colours3(n)[Middle := Unoccupied] == Colours2(n);
    assert [Upper, Lower, Middle][..2] == [Upper, Lower];
  }

  /** `CheckIdsOnRemoval` of a cell with no neighbour of the colour: the
      cell's chain is forgotten, its id cleared, and nothing is rebuilt. */
  lemma RemovedAlone(st: State, grid: map<Loc, Color>, loc: Loc, player: Color, n: int, fuel: nat)
    requires IsValid(loc, n) && Alone(grid, loc, player)
    ensures Removed(st, grid, loc, player, n, fuel) ==
      (Pass, st.(chains := st.chains - {IdOf(st.ids, loc)}, ids := PutId(st.ids, loc, 0)))
  {
    Isolated(grid, st.ids, loc, player, 0, n);
  }

  /** The removal as Black: (7, 6) has no Black neighbour, so the joined
      chain's list is dropped and nothing is rebuilt. */
  lemma RemovalAsBlack(n: int, fuel: nat)
    requires 10 <= n
    ensures Removed(Analysis3(n), Colours2(n), Middle, Black, n, fuel) == (Pass, State(Analysis3(n).ids[Middle := 0], map[], 4))
  {
    StonesAlone(n);
    IdsOnBoard(n);
    RemovedAlone(Analysis3(n), Colours2(n), Middle, Black, n, fuel);
    assert Analysis3(n).chains - {2} == map[];
  }

  /** The tests' `Undo`, as written: the move goes to Black and the stone is
      removed as Black. The joined chain's list is dropped and no chain is
      rebuilt, so (8, 6) keeps id 2, which has no list any more
      (`ChainLocations` would throw `KeyNotFoundException`), and White has
      no chain left to count. */
  lemma UndoAsWritten(n: int, fuel: nat)
    requires 10 <= n
    ensures Undone(Game3(n), n, fuel) ==
      (Ok(Middle), Game(Colours2(n), Black, Unoccupied, [Upper, Lower], State(Analysis3(n).ids[Middle := 0], map[], 4)))
    ensures IdOf(Analysis3(n).ids[Middle := 0], Lower) == 2
    ensures ChainCounted(map[], Colours2(n), White) == Ok(0)
  {
    TakenBackMiddle(n);
    RemovalAsBlack(n, fuel);
    assert ChainsOf(map[], Colours2(n), White) == {};
  }

  /** The neighbour loop over offsets i .. 5 changes nothing when none of
      those neighbours has the colour. */
  lemma {:induction false} SpreadNone(f: Flood, grid: map<Loc, Color>, player: Color, cur: Loc, n: int, i: nat)
    requires i <= 6
    requires forall k :: i <= k < 6 ==> ColorAt(grid, Add(cur, Offsets[k])) != player
    ensures Spread(f, grid, player, cur, n, i) == f
    decreases 6 - i
  {
    if i < 6 {
      SpreadNone(f, grid, player, cur, n, i + 1);
    }
  }

  /** `PromulgateIdAfterDelete` from a stone with no neighbour of its colour
      whose id has an empty list: the list becomes the stone alone. */
  lemma FloodAlone(st: State, grid: map<Loc, Color>, loc: Loc, n: int, fuel: nat)
    requires fuel >= 1 && Alone(grid, loc, ColorAt(grid, loc))
    requires IdOf(st.ids, loc) in st.chains && st.chains[IdOf(st.ids, loc)] == []
    ensures Flooded(st, grid, loc, n, fuel) == (Pass, st.(chains := st.chains[IdOf(st.ids, loc) := [loc]]))
  {
    var id, player := IdOf(st.ids, loc), ColorAt(grid, loc);
    var f := Flood(st, id, [loc], [], []);
    assert [] + [loc] == [loc];
    assert [loc][1..] == [];
    var f1 := f.(st := st.(chains := st.chains[id := [loc]]), queue := [], list := [loc]);
    SpreadNone(f1, grid, player, loc, n, 0);
    assert FloodStep(f, grid, player, n) == f1;
    assert FloodRounds(f, grid, player, n, fuel) == FloodRounds(f1, grid, player, n, fuel - 1);
  }

  /** The ids after the removal as White: (7, 6) cleared, (8, 6) and (6, 6)
      relabelled 5 and 6. */
  function SplitIds(n: int): map<Loc, I32> { Analysis3(n).ids[Middle := 0][Lower := 5][Upper := 6] }

  /** One round of the removal loop from a stone with no neighbour of its
      colour: the stone takes the next counter value, and that chain's list
      is the stone alone. */
  lemma RebuildAlone(st: State, grid: map<Loc, Color>, loc: Loc, n: int, fuel: nat)
    requires fuel >= 1 && loc in st.ids && Alone(grid, loc, ColorAt(grid, loc))
    ensures var id := Increment(st.next);
      Flooded(FreshChain(st, loc), grid, loc, n, fuel) == (Pass, State(st.ids[loc := id], st.chains[id := [loc]], id))
  {
    var id := Increment(st.next);
    var s1 := FreshChain(st, loc);
    assert s1 == State(st.ids[loc := id], st.chains[id := []], id);
    FloodAlone(s1, grid, loc, n, fuel);
    assert s1.chains[id := [loc]] == st.chains[id := [loc]];
  }

  /** One round of the removal loop that finds `next` still carrying the
      old id and floods from it without throwing. */
  lemma RoundVia(st: State, grid: map<Loc, Color>, checks: seq<Loc>, oldId: I32, n: int, fuel: nat, rest: nat,
                 next: Loc, st2: State)
    requires fuel == rest + 1 && FirstCarrying(st.ids, checks, oldId) == Some(next)
    requires Flooded(FreshChain(st, next), grid, next, n, fuel) == (Pass, st2)
    ensures RemovalRounds(st, grid, checks, oldId, n, fuel) == RemovalRounds(st2, grid, checks, oldId, n, rest)
  {
  }

  /** One round of the removal loop that finds `next`, a stone with no
      neighbour of its colour, still carrying the old id: `next` takes the
      next counter value, and that chain's list is `next` alone. */
  lemma RoundAlone(st: State, grid: map<Loc, Color>, checks: seq<Loc>, oldId: I32, n: int, fuel: nat, rest: nat, next: Loc)
    requires fuel == rest + 1 && FirstCarrying(st.ids, checks, oldId) == Some(next)
    requires next in st.ids && Alone(grid, next, ColorAt(grid, next))
    ensures var id := Increment(st.next);
      RemovalRounds(st, grid, checks, oldId, n, fuel) ==
      RemovalRounds(State(st.ids[next := id], st.chains[id := [next]], id), grid, checks, oldId, n, rest)
  {
    var id := Increment(st.next);
    RebuildAlone(st, grid, next, n, fuel);
    RoundVia(st, grid, checks, oldId, n, fuel, rest, next, State(st.ids[next := id], st.chains[id := [next]], id));
  }

  /** The removal loop stops when no checked cell carries the old id. */
  lemma RoundsDone(st: State, grid: map<Loc, Color>, checks: seq<Loc>, oldId: I32, n: int, fuel: nat)
    requires FirstCarrying(st.ids, checks, oldId) == None
    ensures RemovalRounds(st, grid, checks, oldId, n, fuel) == (Pass, st)
  {
  }

  /** `CheckIdsOnRemoval` on a cell of the board, given its like-coloured
      neighbours: the old chain is forgotten, the cell's id cleared, and the
      loop runs over those neighbours. */
  lemma RemovedVia(st: State, grid: map<Loc, Color>, loc: Loc, player: Color, n: int, fuel: nat, checks: seq<Loc>, st1: State)
    requires IsValid(loc, n) && Like(grid, Adjacent(loc, n), player) == checks
    requires st1 == st.(chains := st.chains - {IdOf(st.ids, loc)}, ids := PutId(st.ids, loc, 0))
    ensures Removed(st, grid, loc, player, n, fuel) == RemovalRounds(st1, grid, checks, IdOf(st.ids, loc), n, fuel)
  {
  }

  /** Which checked neighbour still carries 2 before each round of the
      removal as White: (8, 6), then (6, 6), then none. */
  lemma Carriers(n: int)
    requires 10 <= n
    ensures FirstCarrying(Analysis3(n).ids[Middle := 0], [Lower, Upper], 2) == Some(Lower)
    ensures FirstCarrying(Analysis3(n).ids[Middle := 0][Lower := 5], [Lower, Upper], 2) == Some(Upper)
    ensures FirstCarrying(SplitIds(n), [Lower, Upper], 2) == None
  {
    IdsOnBoard(n);
    var ids := Analysis3(n).ids[Middle := 0];
    assert IdOf(ids, Lower) == 2 && IdOf(ids, Upper) == 2;
    assert [Lower, Upper][1..] == [Upper] && [Upper][1..] == [];
    assert IdOf(ids[Lower := 5], Lower) == 5;
    assert FirstCarrying(ids[Lower := 5], [Upper], 2) == Some(Upper);
    assert IdOf(SplitIds(n), Lower) == 5 && IdOf(SplitIds(n), Upper) == 6;
    assert FirstCarrying(SplitIds(n), [Upper], 2) == None;
  }

  /** The first round of the removal as White: (8, 6), the first checked
      neighbour, still carries 2 and becomes chain 5. */
  lemma FirstRound(n: int, fuel: nat, rest: nat)
    requires 10 <= n && fuel == rest + 1
    ensures RemovalRounds(State(Analysis3(n).ids[Middle := 0], map[], 4), Colours2(n), [Lower, Upper], 2, n, fuel) ==
      RemovalRounds(State(Analysis3(n).ids[Middle := 0][Lower := 5], map[5 := [Lower]], 5), Colours2(n), [Lower, Upper], 2, n, rest)
  {
    var st := State(Analysis3(n).ids[Middle := 0], map[], 4);
    StonesAlone(n);
    IdsOnBoard(n);
    Carriers(n);
    RoundAlone(st, Colours2(n), [Lower, Upper], 2, n, fuel, rest, Lower);
    assert Increment(4) == 5;
    assert map[][5 := [Lower]] == map[5 := [Lower]];
  }

  /** The second round: (6, 6) still carries 2 and becomes chain 6. */
  lemma SecondRound(n: int, fuel: nat, rest: nat)
    requires 10 <= n && fuel == rest + 1
    ensures RemovalRounds(State(Analysis3(n).ids[Middle := 0][Lower := 5], map[5 := [Lower]], 5), Colours2(n), [Lower, Upper], 2, n, fuel) ==
      RemovalRounds(State(SplitIds(n), map[5 := [Lower], 6 := [Upper]], 6), Colours2(n), [Lower, Upper], 2, n, rest)
  {
    var st := State(Analysis3(n).ids[Middle := 0][Lower := 5], map[5 := [Lower]], 5);
    StonesAlone(n);
    IdsOnBoard(n);
    Carriers(n);
    RoundAlone(st, Colours2(n), [Lower, Upper], 2, n, fuel, rest, Upper);
    assert Increment(5) == 6;
    assert map[5 := [Lower]][6 := [Upper]] == map[5 := [Lower], 6 := [Upper]];
  }

  /** What the tests look for after `Undo`: removing (7, 6) as White splits
      the chain again. (8, 6), the first neighbour in offset order, gets the
      new id 5 and (6, 6) the new id 6, each listing its own stone. */
  lemma RemovalAsWhite(n: int, fuel: nat)
    requires 10 <= n && fuel >= 2
    ensures Removed(Analysis3(n), Colours2(n), Middle, White, n, fuel) ==
      (Pass, State(SplitIds(n), map[5 := [Lower], 6 := [Upper]], 6))
  {
    var grid := Colours2(n);
    var checks := [Lower, Upper];
    assert Like(grid, Adjacent(Middle, n), White) == checks by {
      OnlyTwo(n);
      MiddleNeighbours(n, grid);
    }
    var st1 := State(Analysis3(n).ids[Middle := 0], map[], 4);
    assert st1 == Analysis3(n).(chains := Analysis3(n).chains - {2}, ids := PutId(Analysis3(n).ids, Middle, 0)) by {
      assert Analysis3(n).chains - {2} == map[];
    }
    IdsOnBoard(n);
    RemovedVia(Analysis3(n), grid, Middle, White, n, fuel, checks, st1);
    var f1: nat := fuel - 1;
    var f2: nat := f1 - 1;
    FirstRound(n, fuel, f1);
    SecondRound(n, f1, f2);
    Carriers(n);
    RoundsDone(State(SplitIds(n), map[5 := [Lower], 6 := [Upper]], 6), grid, checks, 2, n, f2);
  }

  /** After that removal White would have two chains again. */
  lemma TwoChainsAgain(n: int)
    requires 10 <= n
    ensures ChainCounted(map[5 := [Lower], 6 := [Upper]], Colours2(n), White) == Ok(2)
  {
    assert ChainsOf(map[5 := [Lower], 6 := [Upper]], Colours2(n), White) == {5, 6};
  }

  /** The first placement on a fresh board of size 10 or more, and the
      list of the first stone's chain. */
  method FirstStone(b: Board) returns (first: Result<seq<Loc>>)
    requires b.Valid() && 10 <= b.size && b.Abs() == NewGame(b.size)
    modifies b, b.analysis, b.analysis.chainIds
    ensures b.Valid() && b.analysis.chainIds == old(b.analysis.chainIds) && b.Abs() == Game1(b.size)
    ensures first == Ok([Upper])
  {
    OneInsert(b.size);
    var o := b.PlaceStone(Upper, White);
    var id := b.analysis.IdAt(Upper);
    first := b.analysis.ChainLocations(id.value);
  }

  /** The second placement, the list of the second stone's chain and the
      count of White chains after it. */
  method SecondStone(b: Board) returns (second: Result<seq<Loc>>, two: Result<nat>)
    requires b.Valid() && 10 <= b.size && b.Abs() == Game1(b.size)
    modifies b, b.analysis, b.analysis.chainIds
    ensures b.Valid() && b.analysis.chainIds == old(b.analysis.chainIds) && b.Abs() == Game2(b.size)
    ensures second == Ok([Lower]) && two == Ok(2)
  {
    SecondInsert(b.size);
    TwoChains(b.size);
    var o := b.PlaceStone(Lower, White);
    var id := b.analysis.IdAt(Lower);
    second := b.analysis.ChainLocations(id.value);
    two := b.analysis.ChainCount(b.players, White);
  }

  /** The third placement, the list of the chain (7, 6) joins, and the
      count of White chains and of all chains after it. */
  method ThirdStone(b: Board) returns (joined: Result<seq<Loc>>, one: Result<nat>, all: Result<nat>)
    requires b.Valid() && 10 <= b.size && b.Abs() == Game2(b.size)
    modifies b, b.analysis, b.analysis.chainIds
    ensures b.Valid() && b.analysis.chainIds == old(b.analysis.chainIds) && b.Abs() == Game3(b.size)
    ensures joined == Ok([Upper, Middle, Lower]) && one == Ok(1) && all == Ok(1)
  {
    Amalgamation(b.size);
    OneChain(b.size);
    var o := b.PlaceStone(Middle, White);
    var id := b.analysis.IdAt(Middle);
    joined := b.analysis.ChainLocations(id.value);
    one := b.analysis.ChainCount(b.players, White);
    all := b.analysis.ChainCount(b.players);
  }

  /** The chain tests through the board class, built with the default size:
      the lists and White counts the tests read after each placement, the
      count of all chains, and the list of the chain (8, 6) carries after
      `Undo`, which is gone. */
  method AmalgamationScenario(fuel: nat) returns (first: Result<seq<Loc>>, second: Result<seq<Loc>>, two: Result<nat>,
                                                  joined: Result<seq<Loc>>, one: Result<nat>, all: Result<nat>,
                                                  after: Result<seq<Loc>>)
    ensures first == Ok([Upper]) && second == Ok([Lower]) && two == Ok(2)
    ensures joined == Ok([Upper, Middle, Lower]) && one == Ok(1) && all == Ok(1)
    ensures after == Fail(KeyNotFoundException)
  {
    var b := new Board();
    first := FirstStone(b);
    second, two := SecondStone(b);
    joined, one, all := ThirdStone(b);
    UndoAsWritten(b.size, fuel);
    var r := b.Undo(fuel);
    var id := b.analysis.IdAt(Lower);
    after := b.analysis.ChainLocations(id.value);
  }
}
