/** `HexLibrary.Analysis`: the chain-id grid, the id-to-cells dictionary
    and the id counter, updated in place as stones are placed and removed.

    The analysis reads the colours of its board's `Players` grid; here they
    are passed to each operation as a map from cell to colour, which the
    operation only reads. Every method is proved to compute exactly the
    matching function of ChainSpec on the abstract state `Abs()`, so the
    lemmas proved there about those functions hold of the class. */
module ChainAnalysis {
  import opened Errors
  import opened Int32
  import opened Geometry
  import opened ChainSpec

  /** Every cell listed in the dictionary lies on the board. */
  ghost predicate ListsOnBoard(chains: map<I32, seq<Loc>>, n: int) {
    forall id, l :: id in chains && l in chains[id] ==> IsValid(l, n)
  }

  ghost predicate AllOnBoard(locs: seq<Loc>, n: int) {
    forall l :: l in locs ==> IsValid(l, n)
  }

  /** Storing a list of on-board cells under a key, and dropping a key,
      keep every listed cell on the board. */
  lemma ListsOnBoardUpdate(chains: map<I32, seq<Loc>>, n: int, id: I32, list: seq<Loc>, gone: I32)
    requires ListsOnBoard(chains, n) && AllOnBoard(list, n)
    ensures ListsOnBoard(chains[id := list], n)
    ensures ListsOnBoard(chains - {gone}, n)
    ensures ListsOnBoard(chains[id := list] - {gone}, n)
  {
  }

  /** One round of the flood loop, unfolded. */
  lemma FloodRoundsStep(f: Flood, grid: map<Loc, Color>, player: Color, n: int, fuel: nat, rest: nat)
    requires f.queue != [] && fuel == rest + 1
    ensures FloodRounds(f, grid, player, n, fuel) == FloodRounds(FloodStep(f, grid, player, n), grid, player, n, rest)
  {
  }

  /** One round of the removal loop, unfolded. */
  lemma RemovalRoundsStep(st: State, grid: map<Loc, Color>, checks: seq<Loc>, oldId: I32, n: int, fuel: nat, rest: nat, next: Loc)
    requires FirstCarrying(st.ids, checks, oldId) == Some(next) && fuel == rest + 1
    ensures var (o, st2) := Flooded(FreshChain(st, next), grid, next, n, fuel);
      RemovalRounds(st, grid, checks, oldId, n, fuel)
        == if o.Throw? then (o, st2) else RemovalRounds(st2, grid, checks, oldId, n, rest)
  {
  }

  /** Moving one key out of the keys still to visit adds it to the counted
      ones exactly when its list starts with the colour. */
  lemma ChainsOfStep(chains: map<I32, seq<Loc>>, grid: map<Loc, Color>, player: Color, todo: set<I32>, id: I32)
    requires id in todo && todo <= chains.Keys && chains[id] != []
    ensures |ChainsOf(chains, grid, player) - (todo - {id})|
         == |ChainsOf(chains, grid, player) - todo| + (if ColorAt(grid, chains[id][0]) == player then 1 else 0)
  {
    var c := ChainsOf(chains, grid, player);
    if ColorAt(grid, chains[id][0]) == player {
      assert c - (todo - {id}) == (c - todo) + {id};
    } else {
      assert c - (todo - {id}) == c - todo;
    }
  }

  /** `PromulgateId` is the absorbing loop started after loc is added to
      its own list. */
  lemma PromulgatedStart(st: State, grid: map<Loc, Color>, loc: Loc, n: int)
    ensures var id := IdOf(st.ids, loc);
      var elim := Eliminated(grid, st.ids, loc, ColorAt(grid, loc), id, n, 0, []);
      var own := (if id in st.chains then st.chains[id] else []) + [loc];
      id !in elim && Distinct(elim) &&
      Promulgated(st, grid, loc, n) == Absorbed(st.(chains := st.chains[id := own]), id, elim)
  {
    EliminatedDistinct(grid, st.ids, loc, ColorAt(grid, loc), IdOf(st.ids, loc), n, 0, []);
  }

  /** One round of the absorbing loop. */
  lemma AbsorbedStep(st: State, id: I32, elim: seq<I32>)
    requires id in st.chains && id !in elim && elim != []
    ensures elim[0] !in st.chains ==> Absorbed(st, id, elim) == (Throw(KeyNotFoundException), st)
    ensures elim[0] in st.chains ==>
      var members := st.chains[elim[0]];
      Absorbed(st, id, elim) == Absorbed(st.(ids := Relabelled(st.ids, members, id),
                                             chains := st.chains[id := st.chains[id] + members] - {elim[0]}),
                                         id, elim[1..])
  {
  }

  /** One step of `Adjacent(loc).Where(l => PlayerAtLoc(l) == player)`:
      offset i contributes its cell when it is on the board and has the
      colour. */
  lemma LikeStep(grid: map<Loc, Color>, loc: Loc, n: int, i: nat, player: Color, r: seq<Loc>)
    requires i < 6
    ensures var cur := Add(loc, Offsets[i]);
      r + Like(grid, AdjacentFrom(loc, n, i), player)
        == (if IsValid(cur, n) && ColorAt(grid, cur) == player then r + [cur] else r)
           + Like(grid, AdjacentFrom(loc, n, i + 1), player)
  {
    var cur := Add(loc, Offsets[i]);
    var rest := AdjacentFrom(loc, n, i + 1);
    AdjacentFromStep(loc, n, i);
    if IsValid(cur, n) {
      LikeCons(grid, cur, rest, player);
      if ColorAt(grid, cur) == player {
        ConsAssociates(r, cur, Like(grid, rest, player));
      } else {
        assert [] + Like(grid, rest, player) == Like(grid, rest, player);
      }
    }
  }

  lemma AdjacentFromStep(loc: Loc, n: int, i: nat)
    requires i < 6
    ensures var cur := Add(loc, Offsets[i]);
      AdjacentFrom(loc, n, i) == if IsValid(cur, n) then [cur] + AdjacentFrom(loc, n, i + 1) else AdjacentFrom(loc, n, i + 1)
  {
  }

  lemma LikeCons(grid: map<Loc, Color>, x: Loc, s: seq<Loc>, player: Color)
    ensures Like(grid, [x] + s, player) == (if ColorAt(grid, x) == player then [x] else []) + Like(grid, s, player)
  {
    assert ([x] + s)[0] == x && ([x] + s)[1..] == s;
  }

  lemma ConsAssociates<T>(r: seq<T>, x: T, t: seq<T>)
    ensures r + ([x] + t) == (r + [x]) + t
  {
  }

  /** The `foreach (var id in ids)` scan of `CheckChainIds`: the placement
      wins exactly when two different negative ids occur among the candidate
      and the neighbours' ids; otherwise the id it settles on is the least of
      them. */
  method ScanIds(newChainId: I32, ids: seq<I32>) returns (won: bool, minId: I32)
    ensures won <==> TwoEdges([newChainId] + ids)
    ensures !won ==> minId == SeqMin([newChainId] + ids)
  {
    ghost var vals := [newChainId] + ids;
    var foundNegId := newChainId;
    minId := newChainId;
    ghost var negAt, minAt := 0, 0;
    var k := 0;
    while k < |ids|
      invariant 0 <= k <= |ids|
      invariant 0 <= negAt <= k && vals[negAt] == foundNegId
      invariant 0 <= minAt <= k && vals[minAt] == minId
      invariant forall j :: 0 <= j <= k && vals[j] < 0 ==> vals[j] == foundNegId
      invariant forall j :: 0 <= j <= k ==> minId <= vals[j]
    {
      var id := ids[k];
      assert vals[k + 1] == id;
      if id < 0 {
        if foundNegId < 0 && foundNegId != id {
          assert vals[negAt] < 0 && vals[k + 1] < 0 && vals[negAt] != vals[k + 1];
          return true, minId;
        }
        foundNegId := id;
        negAt := k + 1;
      }
      if id < minId {
        minId := id;
        minAt := k + 1;
      }
      k := k + 1;
    }
    won := false;
    var m := SeqMin(vals);
    assert m <= minId;
  }

  /** The `Count(entry => ...)` of `ChainCount` for a colour. */
  method CountColour(m: map<I32, seq<Loc>>, grid: map<Loc, Color>, player: Color) returns (r: Result<nat>)
    requires player != Unoccupied
    ensures r == ChainCounted(m, grid, player)
  {
    var count := 0;
    var todo := m.Keys;
    while todo != {}
      invariant todo <= m.Keys
      invariant forall id :: id in m && id !in todo ==> m[id] != []
      invariant count == |ChainsOf(m, grid, player) - todo|
      decreases |todo|
    {
      var id :| id in todo;
      if m[id] == [] {
        assert id in m && m[id] == [];
        return Fail(ArgumentOutOfRangeException);
      }
      ChainsOfStep(m, grid, player, todo, id);
      if ColorAt(grid, m[id][0]) == player {
        count := count + 1;
      }
      todo := todo - {id};
    }
    assert ChainsOf(m, grid, player) - todo == ChainsOf(m, grid, player);
    r := Ok(count);
  }

  /** `Adjacent(loc).Where(l => PlayerAtLoc(l) == player)`. */
  method LikeNeighbours(grid: map<Loc, Color>, n: int, loc: Loc, player: Color) returns (r: seq<Loc>)
    requires IsGrid(grid, n)
    ensures r == Like(grid, Adjacent(loc, n), player)
    ensures AllOnBoard(r, n)
  {
    ghost var all := Like(grid, Adjacent(loc, n), player);
    r := [];
    var i := 0;
    while i < 6
      invariant 0 <= i <= 6
      invariant r + Like(grid, AdjacentFrom(loc, n, i), player) == all
    {
      r := LikeAt(grid, n, loc, player, i, r);
      i := i + 1;
    }
    assert AdjacentFrom(loc, n, 6) == [];
    assert r + [] == r;
    LikeMembers(grid, Adjacent(loc, n), player);
    AdjacentMembers(loc, n);
  }

  /** One round of `LikeNeighbours`: the cell at offset i is kept when it
      is on the board and has the colour. */
  method LikeAt(grid: map<Loc, Color>, n: int, loc: Loc, player: Color, i: nat, r: seq<Loc>) returns (r': seq<Loc>)
    requires IsGrid(grid, n) && i < 6
    ensures r' + Like(grid, AdjacentFrom(loc, n, i + 1), player) == r + Like(grid, AdjacentFrom(loc, n, i), player)
  {
    var cur := Add(loc, Offsets[i]);
    LikeStep(grid, loc, n, i, player, r);
    r' := r;
    if IsValid(cur, n) {
      assert ColorAt(grid, cur) == grid[cur];
      if grid[cur] == player {
        r' := r + [cur];
      }
    }
  }

  class Analysis {
    const size: int
    var chainIds: array2<I32>
    /** The contents of `chainIds`, cell by cell. */
    ghost var ids: map<Loc, I32>
    var chains: map<I32, seq<Loc>>
    var nextChainId: I32

    ghost predicate Valid()
      reads this, chainIds
    {
      0 <= size && chainIds.Length0 == size && chainIds.Length1 == size &&
      (forall l :: l in ids <==> IsValid(l, size)) &&
      (forall r, c :: 0 <= r < size && 0 <= c < size ==> Loc(r, c) in ids && chainIds[r, c] == ids[Loc(r, c)]) &&
      ListsOnBoard(chains, size)
    }

    ghost function Abs(): State
      reads this
    {
      State(ids, chains, nextChainId)
    }

    /** `new Analysis(board)`: every id 0, no chains, counter at 1. The
        board has already rejected sizes that are negative or above 26. */
    constructor (size: int)
      requires 0 <= size
      ensures Valid() && fresh(chainIds) && this.size == size
      ensures Abs() == State(ZeroIds(size), map[], 1)
    {
      this.size := size;
      chainIds := new I32[size, size]((r, c) => 0);
      ids := ZeroIds(size);
      chains := map[];
      nextChainId := 1;
    }

    /** `Clear()`: a new zero grid, an empty dictionary and the counter at 0
        (not 1, as the field initializer has it). */
    method Clear()
      requires Valid()
      modifies this
      ensures Valid() && fresh(chainIds)
      ensures Abs() == State(ZeroIds(size), map[], 0)
    {
      chainIds := new I32[size, size]((r, c) => 0);
      ids := ZeroIds(size);
      chains := map[];
      nextChainId := 0;
    }

    /** `ChainLocations(id)`: the dictionary's list for id; an absent id
        throws `KeyNotFoundException`. */
    function ChainLocations(id: I32): (r: Result<seq<Loc>>)
      reads this
      ensures r.Ok? <==> id in chains
      ensures r.Ok? ==> r.value == chains[id]
      ensures r.Fail? ==> r.error == KeyNotFoundException
    {
      if id in chains then Ok(chains[id]) else Fail(KeyNotFoundException)
    }

    /** `IdAt(loc)`: the chain id of the cell; a cell off the board throws
        `IndexOutOfRangeException`. */
    function IdAt(loc: Loc): (r: Result<I32>)
      reads this, chainIds
      requires Valid()
      ensures IsValid(loc, size) ==> r == Ok(IdOf(ids, loc))
      ensures !IsValid(loc, size) ==> r == Fail(IndexOutOfRangeException)
    {
      if IsValid(loc, size) then Ok(chainIds[loc.row, loc.column]) else Fail(IndexOutOfRangeException)
    }

    /** `NextId()`: pre-increment of the counter. */
    method NextId() returns (id: I32)
      modifies this`nextChainId
      ensures nextChainId == id == Increment(old(nextChainId))
    {
      nextChainId := Increment(nextChainId);
      id := nextChainId;
    }

    /** `SetChainId(loc, id)`: one cell of the grid changes. */
    method SetChainId(loc: Loc, id: I32)
      requires Valid() && IsValid(loc, size)
      modifies this`ids, chainIds
      ensures Valid()
      ensures ids == PutId(old(ids), loc, id)
    {
      chainIds[loc.row, loc.column] := id;
      ids := PutId(ids, loc, id);
    }

    /** `NewOrEdgeId(loc, player)`. */
    method NewOrEdgeId(loc: Loc, player: Color) returns (side: I32)
      requires Valid()
      modifies this`nextChainId
      ensures Valid()
      ensures (side, Abs()) == Candidate(old(Abs()), loc, player, size)
    {
      side := NextId();
      if player == Black {
        if loc.column == 0 {
          side := -1;
        } else if loc.column == size - 1 {
          side := -3;
        }
      } else {
        if loc.row == 0 {
          side := -4;
        } else if loc.row == size - 1 {
          side := -2;
        }
      }
    }

    /** `connections.Select(c => ChainIds[c.Row, c.Column])`. */
    method IdsOf(locs: seq<Loc>) returns (r: seq<I32>)
      requires Valid() && AllOnBoard(locs, size)
      ensures r == IdsAt(ids, locs)
    {
      r := [];
      var k := 0;
      while k < |locs|
        invariant 0 <= k <= |locs| && |r| == k
        invariant forall j :: 0 <= j < k ==> r[j] == IdOf(ids, locs[j])
      {
        assert locs[k] in locs;
        r := r + [chainIds[locs[k].row, locs[k].column]];
        k := k + 1;
      }
    }

    /** The `foreach` loops that set every cell of locs to id. */
    method Relabel(locs: seq<Loc>, id: I32)
      requires Valid() && AllOnBoard(locs, size)
      modifies this`ids, chainIds
      ensures Valid()
      ensures ids == Relabelled(old(ids), locs, id)
    {
      var j := 0;
      while j < |locs|
        invariant 0 <= j <= |locs| && Valid()
        invariant Relabelled(ids, locs[j..], id) == Relabelled(old(ids), locs, id)
      {
        assert locs[j..][0] == locs[j] && locs[j..][1..] == locs[j + 1..];
        SetChainId(locs[j], id);
        j := j + 1;
      }
    }

    /** The first half of `CheckChainIds` for an occupied cell on the board:
        draw the candidate id, read the like-coloured neighbours' ids and
        scan them. */
    method ScanPlacement(grid: map<Loc, Color>, loc: Loc, player: Color) returns (won: bool, minId: I32)
      requires Valid() && IsGrid(grid, size) && IsValid(loc, size)
      modifies this`nextChainId
      ensures Valid()
      ensures var (cand, st1) := Candidate(old(Abs()), loc, ColorAt(grid, loc), size);
        var vals := [cand] + IdsAt(st1.ids, Like(grid, Adjacent(loc, size), player));
        Abs() == st1 && (won <==> TwoEdges(vals)) && (!won ==> minId == SeqMin(vals))
    {
      var newChainId := NewOrEdgeId(loc, grid[loc]);
      var connections := LikeNeighbours(grid, size, loc, player);
      var connectionIds := IdsOf(connections);
      won, minId := ScanIds(newChainId, connectionIds);
    }

    /** `CheckChainIds(loc, player)` on the board whose colours are `grid`;
        `Ok(Won)` stands for the call to `SetWinner`. */
    method CheckChainIds(grid: map<Loc, Color>, loc: Loc, player: Color) returns (r: Result<Placement>)
      requires Valid() && IsGrid(grid, size)
      modifies this, chainIds
      ensures Valid() && chainIds == old(chainIds)
      ensures (r, Abs()) == Placed(old(Abs()), grid, loc, player, size)
    {
      if player == Unoccupied {
        return Fail(ArgumentException);
      }
      if !IsValid(loc, size) {
        return Fail(IndexOutOfRangeException);
      }
      assert grid[loc] == ColorAt(grid, loc);
      var won, minId := ScanPlacement(grid, loc, player);
      if won {
        return Ok(Won);
      }
      SetChainId(loc, minId);
      var o := PromulgateId(grid, loc);
      r := if o.Throw? then Fail(o.error) else Ok(Labelled);
    }

    /** The ids `PromulgateId` collects into its `HashSet`: those of the
        like-coloured neighbours of loc whose id differs from `id`. */
    method EliminatedIds(grid: map<Loc, Color>, loc: Loc, player: Color, id: I32) returns (eliminatedIds: seq<I32>)
      requires Valid() && IsGrid(grid, size)
      ensures eliminatedIds == Eliminated(grid, ids, loc, player, id, size, 0, [])
    {
      eliminatedIds := [];
      var i := 0;
      while i < 6
        invariant 0 <= i <= 6
        invariant Eliminated(grid, ids, loc, player, id, size, i, eliminatedIds)
               == Eliminated(grid, ids, loc, player, id, size, 0, [])
      {
        var nb := Add(loc, Offsets[i]);
        if IsValid(nb, size) {
          var nbId := chainIds[nb.row, nb.column];
          if grid[nb] == player && nbId != id && nbId !in eliminatedIds {
            eliminatedIds := eliminatedIds + [nbId];
          }
        }
        i := i + 1;
      }
    }

    /** One round of `PromulgateId`'s absorbing loop: relabel the members
        of chain idElim to id, append them to id's list, drop idElim. */
    method AbsorbChain(id: I32, idElim: I32)
      requires Valid() && id in chains && idElim in chains
      modifies this, chainIds
      ensures Valid() && chainIds == old(chainIds) && nextChainId == old(nextChainId)
      ensures ids == Relabelled(old(ids), old(chains)[idElim], id)
      ensures chains == old(chains)[id := old(chains)[id] + old(chains)[idElim]] - {idElim}
    {
      var members := chains[idElim];
      Relabel(members, id);
      ListsOnBoardUpdate(chains, size, id, chains[id] + members, idElim);
      chains := chains[id := chains[id] + members] - {idElim};
    }

    /** The `foreach (var idElim in eliminatedIds)` loop of `PromulgateId`. */
    method AbsorbAll(id: I32, eliminatedIds: seq<I32>) returns (o: Outcome)
      requires Valid() && id in chains && id !in eliminatedIds
      modifies this, chainIds
      ensures Valid() && chainIds == old(chainIds)
      ensures (o, Abs()) == Absorbed(old(Abs()), id, eliminatedIds)
    {
      assert eliminatedIds[0..] == eliminatedIds;
      var k := 0;
      while k < |eliminatedIds|
        invariant 0 <= k <= |eliminatedIds|
        invariant Valid() && chainIds == old(chainIds) && id in chains
        invariant id !in eliminatedIds[k..]
        invariant Absorbed(Abs(), id, eliminatedIds[k..]) == Absorbed(old(Abs()), id, eliminatedIds)
      {
        var idElim := eliminatedIds[k];
        ghost var rest := eliminatedIds[k..];
        assert rest[0] == idElim && rest[1..] == eliminatedIds[k + 1..];
        ghost var stk := Abs();
        AbsorbedStep(stk, id, rest);
        if idElim !in chains {
          return Throw(KeyNotFoundException);
        }
        AbsorbChain(id, idElim);
        k := k + 1;
      }
      assert eliminatedIds[k..] == [];
      o := Pass;
    }

    /** The first lines of `PromulgateId`: loc is appended to the list of
        its own id, which is created when absent. */
    method AppendToOwnChain(loc: Loc) returns (id: I32)
      requires Valid() && IsValid(loc, size)
      modifies this`chains
      ensures Valid() && id == IdOf(ids, loc)
      ensures chains == old(chains)[id := (if id in old(chains) then old(chains)[id] else []) + [loc]]
    {
      id := chainIds[loc.row, loc.column];
      var ourLocList := if id in chains then chains[id] else [];
      ListsOnBoardUpdate(chains, size, id, ourLocList + [loc], id);
      chains := chains[id := ourLocList + [loc]];
    }

    /** `PromulgateId(loc)`. */
    method PromulgateId(grid: map<Loc, Color>, loc: Loc) returns (o: Outcome)
      requires Valid() && IsGrid(grid, size) && IsValid(loc, size)
      modifies this, chainIds
      ensures Valid() && chainIds == old(chainIds)
      ensures (o, Abs()) == Promulgated(old(Abs()), grid, loc, size)
    {
      ghost var st0 := Abs();
      assert grid[loc] == ColorAt(grid, loc);
      PromulgatedStart(st0, grid, loc, size);
      var eliminatedIds := EliminatedIds(grid, loc, grid[loc], chainIds[loc.row, loc.column]);
      var id := AppendToOwnChain(loc);
      assert Abs() == st0.(chains := chains);
      o := AbsorbAll(id, eliminatedIds);
    }

    /** `checks.Where(l => ChainId(l) == oldId)`, of which the removal loop
        takes the first. */
    method NextCarrying(checks: seq<Loc>, oldId: I32) returns (r: Option<Loc>)
      requires Valid() && AllOnBoard(checks, size)
      ensures r == FirstCarrying(ids, checks, oldId)
    {
      var k := 0;
      while k < |checks|
        invariant 0 <= k <= |checks|
        invariant FirstCarrying(ids, checks[k..], oldId) == FirstCarrying(ids, checks, oldId)
      {
        assert checks[k..][0] == checks[k] && checks[k..][1..] == checks[k + 1..];
        assert checks[k] in checks;
        if chainIds[checks[k].row, checks[k].column] == oldId {
          return Some(checks[k]);
        }
        k := k + 1;
      }
      assert checks[k..] == [];
      r := None;
    }

    /** The upgrade branch of `PromulgateIdAfterDelete`, met at neighbour
        nb while the chain has id `id`: unless the id is already an edge id,
        `NewOrEdgeId` is called; when it is non-zero the list moves to the
        key `id | NewOrEdgeId(...)` (a second call) and the cells placed so
        far are relabelled. */
    method ReKey(grid: map<Loc, Color>, nb: Loc, id: I32, ghost queue: seq<Loc>, list: seq<Loc>, placed: seq<Loc>)
      returns (newId: I32)
      requires Valid() && IsGrid(grid, size) && IsValid(nb, size)
      requires AllOnBoard(list, size) && AllOnBoard(placed, size)
      modifies this, chainIds
      ensures Valid() && chainIds == old(chainIds)
      ensures Flood(Abs(), newId, queue, list, placed)
           == Upgrade(Flood(old(Abs()), id, queue, list, placed), grid, nb, size)
    {
      newId := id;
      if id >= 0 {
        var probe := NewOrEdgeId(nb, grid[nb]);
        if probe != 0 {
          newId := MoveChain(grid, nb, id, list, placed);
        }
      }
    }

    /** The moving half of the upgrade: the list leaves key `id`, a second
        `NewOrEdgeId` call gives the side, and the list and the cells placed
        so far take the id `id | side`. */
    method MoveChain(grid: map<Loc, Color>, nb: Loc, id: I32, list: seq<Loc>, placed: seq<Loc>)
      returns (newId: I32)
      requires Valid() && IsGrid(grid, size) && IsValid(nb, size)
      requires AllOnBoard(list, size) && AllOnBoard(placed, size)
      modifies this, chainIds
      ensures Valid() && chainIds == old(chainIds)
      ensures var (side, st2) := Candidate(old(Abs()).(chains := old(chains) - {id}), nb, ColorAt(grid, nb), size);
        newId == OrI32(id, side)
        && Abs() == st2.(chains := st2.chains[newId := list], ids := Relabelled(st2.ids, placed, newId))
    {
      assert grid[nb] == ColorAt(grid, nb);
      ListsOnBoardUpdate(chains, size, id, list, id);
      chains := chains - {id};
      ghost var st1 := Abs();
      var side := NewOrEdgeId(nb, grid[nb]);
      ghost var st2 := Abs();
      assert (side, st2) == Candidate(st1, nb, ColorAt(grid, nb), size);
      newId := OrI32(id, side);
      ListsOnBoardUpdate(chains, size, newId, list, newId);
      chains := chains[newId := list];
      Relabel(placed, newId);
      assert Abs() == st2.(chains := st2.chains[newId := list], ids := Relabelled(st2.ids, placed, newId));
    }

    /** One neighbour of the flood: a cell of the colour with another id is
        labelled, recorded and queued, after the upgrade check. */
    method VisitNeighbour(grid: map<Loc, Color>, player: Color, nb: Loc, id: I32,
                          queue: seq<Loc>, list: seq<Loc>, placed: seq<Loc>)
      returns (id': I32, queue': seq<Loc>, placed': seq<Loc>)
      requires Valid() && IsGrid(grid, size)
      requires AllOnBoard(queue, size) && AllOnBoard(list, size) && AllOnBoard(placed, size)
      modifies this, chainIds
      ensures Valid() && chainIds == old(chainIds)
      ensures AllOnBoard(queue', size) && AllOnBoard(placed', size)
      ensures Flood(Abs(), id', queue', list, placed')
           == Visit(Flood(old(Abs()), id, queue, list, placed), grid, player, nb, size)
    {
      id', queue', placed' := id, queue, placed;
      if IsValid(nb, size) && grid[nb] == player && chainIds[nb.row, nb.column] != id {
        id' := ReKey(grid, nb, id, queue, list, placed);
        SetChainId(nb, id');
        placed' := placed + [nb];
        queue' := queue + [nb];
      }
    }

    /** The neighbour loop of one round of the flood, around cur. */
    method SpreadFrom(grid: map<Loc, Color>, player: Color, cur: Loc, id: I32,
                      queue: seq<Loc>, list: seq<Loc>, placed: seq<Loc>)
      returns (id': I32, queue': seq<Loc>, placed': seq<Loc>)
      requires Valid() && IsGrid(grid, size)
      requires AllOnBoard(queue, size) && AllOnBoard(list, size) && AllOnBoard(placed, size)
      modifies this, chainIds
      ensures Valid() && chainIds == old(chainIds)
      ensures AllOnBoard(queue', size) && AllOnBoard(placed', size)
      ensures Flood(Abs(), id', queue', list, placed')
           == Spread(Flood(old(Abs()), id, queue, list, placed), grid, player, cur, size, 0)
    {
      id', queue', placed' := id, queue, placed;
      var i := 0;
      while i < 6
        invariant 0 <= i <= 6
        invariant Valid() && chainIds == old(chainIds)
        invariant AllOnBoard(queue', size) && AllOnBoard(placed', size)
        invariant Spread(Flood(Abs(), id', queue', list, placed'), grid, player, cur, size, i)
               == Spread(Flood(old(Abs()), id, queue, list, placed), grid, player, cur, size, 0)
      {
        id', queue', placed' := VisitNeighbour(grid, player, Add(cur, Offsets[i]), id', queue', list, placed');
        i := i + 1;
      }
    }

    /** `PromulgateIdAfterDelete(loc)`: breadth-first relabelling from loc
        with the id loc carries, for at most `fuel` rounds. */
    method PromulgateIdAfterDelete(grid: map<Loc, Color>, loc: Loc, fuel: nat) returns (o: Outcome)
      requires Valid() && IsGrid(grid, size) && IsValid(loc, size)
      modifies this, chainIds
      ensures Valid() && chainIds == old(chainIds)
      ensures (o, Abs()) == Flooded(old(Abs()), grid, loc, size, fuel)
    {
      var player := grid[loc];
      var id := chainIds[loc.row, loc.column];
      if id !in chains {
        return Throw(KeyNotFoundException);
      }
      assert id == IdOf(ids, loc) && player == ColorAt(grid, loc);
      o := FloodLoop(grid, player, id, [loc], chains[id], [], fuel);
    }

    /** The `while (queue.Count != 0)` loop of `PromulgateIdAfterDelete`,
        for at most `fuel` rounds. */
    method FloodLoop(grid: map<Loc, Color>, player: Color, id0: I32, queue0: seq<Loc>, list0: seq<Loc>,
                     placed0: seq<Loc>, fuel: nat) returns (o: Outcome)
      requires Valid() && IsGrid(grid, size)
      requires AllOnBoard(queue0, size) && AllOnBoard(list0, size) && AllOnBoard(placed0, size)
      modifies this, chainIds
      ensures Valid() && chainIds == old(chainIds)
      ensures (o, Abs()) == FloodRounds(Flood(old(Abs()), id0, queue0, list0, placed0), grid, player, size, fuel)
    {
      var id, queue, ourLocList, chainLocations := id0, queue0, list0, placed0;
      var rounds: nat := fuel;
      while queue != []
        invariant Valid() && chainIds == old(chainIds)
        invariant AllOnBoard(queue, size) && AllOnBoard(ourLocList, size) && AllOnBoard(chainLocations, size)
        invariant FloodRounds(Flood(Abs(), id, queue, ourLocList, chainLocations), grid, player, size, rounds)
               == FloodRounds(Flood(old(Abs()), id0, queue0, list0, placed0), grid, player, size, fuel)
        decreases rounds
      {
        if rounds == 0 {
          return Throw(FuelExhausted);
        }
        var rest: nat := rounds - 1;
        FloodRoundsStep(Flood(Abs(), id, queue, ourLocList, chainLocations), grid, player, size, rounds, rest);
        id, queue, ourLocList, chainLocations := FloodRound(grid, player, id, queue, ourLocList, chainLocations);
        rounds := rest;
      }
      o := Pass;
    }

    /** One round of the queue loop of `PromulgateIdAfterDelete`. */
    method FloodRound(grid: map<Loc, Color>, player: Color, id: I32, queue: seq<Loc>, list: seq<Loc>, placed: seq<Loc>)
      returns (id': I32, queue': seq<Loc>, list': seq<Loc>, placed': seq<Loc>)
      requires Valid() && IsGrid(grid, size) && queue != []
      requires AllOnBoard(queue, size) && AllOnBoard(list, size) && AllOnBoard(placed, size)
      modifies this, chainIds
      ensures Valid() && chainIds == old(chainIds)
      ensures AllOnBoard(queue', size) && AllOnBoard(list', size) && AllOnBoard(placed', size)
      ensures Flood(Abs(), id', queue', list', placed')
           == FloodStep(Flood(old(Abs()), id, queue, list, placed), grid, player, size)
    {
      var cur := queue[0];
      list' := list + [cur];
      ListsOnBoardUpdate(chains, size, id, list', id);
      chains := chains[id := list'];
      id', queue', placed' := SpreadFrom(grid, player, cur, id, queue[1..], list', placed);
    }

    /** `CheckIdsOnRemoval(loc, player)`, for at most `fuel` rounds of the
        outer loop and of each flood. */
    method CheckIdsOnRemoval(grid: map<Loc, Color>, loc: Loc, player: Color, fuel: nat) returns (o: Outcome)
      requires Valid() && IsGrid(grid, size)
      modifies this, chainIds
      ensures Valid() && chainIds == old(chainIds)
      ensures (o, Abs()) == Removed(old(Abs()), grid, loc, player, size, fuel)
    {
      if !IsValid(loc, size) {
        return Throw(IndexOutOfRangeException);
      }
      var oldId := chainIds[loc.row, loc.column];
      ListsOnBoardUpdate(chains, size, oldId, [], oldId);
      chains := chains - {oldId};
      SetChainId(loc, 0);
      assert Abs() == old(Abs()).(chains := old(chains) - {oldId}, ids := PutId(old(ids), loc, 0));
      var checks := LikeNeighbours(grid, size, loc, player);
      o := RemovalLoop(grid, checks, oldId, fuel);
    }

    /** The `while` loop of `CheckIdsOnRemoval`: as long as one of `checks`
        still carries oldId, the first such cell starts a new chain. */
    method RemovalLoop(grid: map<Loc, Color>, checks: seq<Loc>, oldId: I32, fuel: nat) returns (o: Outcome)
      requires Valid() && IsGrid(grid, size) && AllOnBoard(checks, size)
      modifies this, chainIds
      ensures Valid() && chainIds == old(chainIds)
      ensures (o, Abs()) == RemovalRounds(old(Abs()), grid, checks, oldId, size, fuel)
    {
      var rounds: nat := fuel;
      while true
        invariant Valid() && chainIds == old(chainIds)
        invariant RemovalRounds(Abs(), grid, checks, oldId, size, rounds)
               == RemovalRounds(old(Abs()), grid, checks, oldId, size, fuel)
        decreases rounds
      {
        var next := NextCarrying(checks, oldId);
        if next.None? {
          return Pass;
        }
        if rounds == 0 {
          return Throw(FuelExhausted);
        }
        FirstCarryingFound(ids, checks, oldId);
        var rest: nat := rounds - 1;
        RemovalRoundsStep(Abs(), grid, checks, oldId, size, rounds, rest, next.value);
        o := StartFlood(grid, next.value, rounds);
        if o.Throw? {
          return;
        }
        rounds := rest;
      }
    }

    /** One round of the removal loop: `next` gets a fresh id and an empty
        list, and the flood starts from it. */
    method StartFlood(grid: map<Loc, Color>, next: Loc, fuel: nat) returns (o: Outcome)
      requires Valid() && IsGrid(grid, size) && IsValid(next, size)
      modifies this, chainIds
      ensures Valid() && chainIds == old(chainIds)
      ensures (o, Abs()) == Flooded(FreshChain(old(Abs()), next), grid, next, size, fuel)
    {
      var id := NextId();
      SetChainId(next, id);
      ListsOnBoardUpdate(chains, size, id, [], id);
      chains := chains[id := []];
      assert Abs() == FreshChain(old(Abs()), next);
      o := PromulgateIdAfterDelete(grid, next, fuel);
    }

    /** `ChainCount(player)`; without a colour, every chain is counted. */
    method ChainCount(grid: map<Loc, Color>, player: Color := Unoccupied) returns (r: Result<nat>)
      ensures r == ChainCounted(chains, grid, player)
    {
      if player == Unoccupied {
        return Ok(|chains|);
      }
      r := CountColour(chains, grid, player);
    }
  }
}
