/** `Hex.Analysis`, the chain analysis of the first version of the engine:
    the chain-id grid, the id-to-cells dictionary and the id counter,
    updated in place by breadth-first relabelling from the placed or
    removed stone.

    As in the library's analysis, the colours of the board are passed to
    each operation as a map from cell to colour, which it only reads.
    Every method is proved to compute exactly the matching function of
    LegacySpec on the abstract state `Abs()`, so the lemmas proved there
    hold of the class. */
module LegacyAnalysis {
  import opened Errors
  import opened Int32
  import opened Geometry
  import opened ChainSpec
  import opened LegacyIds
  import LegacySpec
  import ChainAnalysis

  /** `ids.Skip(1).All(id => id == ids[0])`. */
  method AllSameIds(ids: seq<I32>) returns (same: bool)
    requires ids != []
    ensures same == LegacySpec.AllSame(ids)
  {
    var k := 1;
    while k < |ids|
      invariant 1 <= k <= |ids|
      invariant forall j :: 1 <= j < k ==> ids[j] == ids[0]
    {
      if ids[k] != ids[0] {
        return false;
      }
      k := k + 1;
    }
    same := true;
  }

  /** `ids.All(id => HighBitsFromId(id) is 0 or highBitsWithSign)`. */
  method AllCompatible(ids: seq<I32>, highBitsWithSign: I32) returns (all: bool)
    ensures all <==> forall id | id in ids :: HighBitsFromId(id) == 0 || HighBitsFromId(id) == highBitsWithSign
  {
    var k := 0;
    while k < |ids|
      invariant 0 <= k <= |ids|
      invariant forall j :: 0 <= j < k ==> HighBitsFromId(ids[j]) == 0 || HighBitsFromId(ids[j]) == highBitsWithSign
    {
      var highBits := HighBitsFromId(ids[k]);
      if !(highBits == 0 || highBits == highBitsWithSign) {
        assert ids[k] in ids;
        return false;
      }
      k := k + 1;
    }
    all := true;
  }

  /** `new HashSet<int>(ids.Where(id => !IsEdgeChain(id)).Select(HighBitsFromId))`. */
  method HighBitCollection(ids: seq<I32>) returns (bits: set<I32>)
    ensures bits == set id | id in ids && !IsEdgeChain(id) :: HighBitsFromId(id)
  {
    bits := {};
    var k := 0;
    while k < |ids|
      invariant 0 <= k <= |ids|
      invariant bits == set j | 0 <= j < k && !IsEdgeChain(ids[j]) :: HighBitsFromId(ids[j])
    {
      if !IsEdgeChain(ids[k]) {
        bits := bits + {HighBitsFromId(ids[k])};
      }
      k := k + 1;
    }
    forall b | b in set id | id in ids && !IsEdgeChain(id) :: HighBitsFromId(id)
      ensures b in bits
    {
      var id :| id in ids && !IsEdgeChain(id) && b == HighBitsFromId(id);
      var j :| 0 <= j < |ids| && ids[j] == id;
    }
  }

  /** `ids.First(IsEdgeChain)`, None where `First` throws. */
  method FirstEdgeId(ids: seq<I32>) returns (r: Option<I32>)
    ensures r == LegacySpec.FirstEdge(ids)
  {
    var k := 0;
    while k < |ids|
      invariant 0 <= k <= |ids|
      invariant LegacySpec.FirstEdge(ids[k..]) == LegacySpec.FirstEdge(ids)
    {
      assert ids[k..][0] == ids[k] && ids[k..][1..] == ids[k + 1..];
      if IsEdgeChain(ids[k]) {
        return Some(ids[k]);
      }
      k := k + 1;
    }
    assert ids[k..] == [];
    r := None;
  }

  /** The ids of `ids` other than `id`. */
  function OtherIds(ids: seq<I32>, id: I32): set<I32> {
    set x | x in ids && x != id
  }

  /** The ids of loc's like-coloured neighbours other than `id`, read off
      the neighbours' ids. */
  lemma DroppedIds(ids: map<Loc, I32>, grid: map<Loc, Color>, loc: Loc, player: Color, id: I32, n: int, conns: seq<Loc>)
    requires conns == Like(grid, Adjacent(loc, n), player)
    ensures OtherIds(IdsAt(ids, conns), id) == LegacySpec.Dropped(ids, grid, loc, player, id, n)
  {
    var s := IdsAt(ids, conns);
    forall x | x in OtherIds(s, id)
      ensures x in LegacySpec.Dropped(ids, grid, loc, player, id, n)
    {
      var k :| 0 <= k < |s| && s[k] == x;
      assert conns[k] in conns;
    }
    forall x | x in LegacySpec.Dropped(ids, grid, loc, player, id, n)
      ensures x in OtherIds(s, id)
    {
      var l :| l in conns && IdOf(ids, l) != id && x == IdOf(ids, l);
      var k :| 0 <= k < |conns| && conns[k] == l;
      assert s[k] == x;
    }
  }

  /** Dropping keys keeps every listed cell on the board. */
  lemma DropKeeps(chains: map<I32, seq<Loc>>, gone: set<I32>, n: int)
    requires ChainAnalysis.ListsOnBoard(chains, n)
    ensures ChainAnalysis.ListsOnBoard(chains - gone, n)
  {
  }

  /** Storing a list under `id` and then dropping keys other than `id` is
      dropping them first. */
  lemma DropAfterReset(chains: map<I32, seq<Loc>>, dropped: set<I32>, id: I32, list: seq<Loc>)
    requires id !in dropped
    ensures chains[id := list] - dropped == (chains - dropped)[id := list]
  {
  }

  /** One round of the removal loop, unfolded. */
  lemma RemovalRoundsStep(st: State, grid: map<Loc, Color>, checks: seq<Loc>, oldId: I32, n: int, fuel: nat, rest: nat, next: Loc)
    requires IsGrid(st.ids, n)
    requires FirstCarrying(st.ids, checks, oldId) == Some(next) && fuel == rest + 1
    ensures IsGrid(LegacySpec.FreshChain(st, next).ids, n)
    ensures var (o, st2) := LegacySpec.Flooded(LegacySpec.FreshChain(st, next), grid, next, n);
      LegacySpec.RemovalRounds(st, grid, checks, oldId, n, fuel)
        == if o.Throw? then (o, st2) else LegacySpec.RemovalRounds(st2, grid, checks, oldId, n, rest)
  {
    LegacySpec.PutIdGrid(st.ids, next, st.next, n);
  }

  class Analysis {
    const size: int
    var chainIds: array2<I32>
    /** The contents of `chainIds`, cell by cell. */
    ghost var ids: map<Loc, I32>
    var chains: map<I32, seq<Loc>>
    var nextChainId: I32

    ghost predicate Valid()
      reads this, chainIds
    {
      0 <= size && chainIds.Length0 == size && chainIds.Length1 == size &&
      (forall l :: l in ids <==> IsValid(l, size)) &&
      (forall r, c :: 0 <= r < size && 0 <= c < size ==> Loc(r, c) in ids && chainIds[r, c] == ids[Loc(r, c)]) &&
      ChainAnalysis.ListsOnBoard(chains, size)
    }

    ghost function Abs(): State
      reads this
    {
      State(ids, chains, nextChainId)
    }

    /** `new Analysis(board)`: every id 0, no chains, counter at 1. */
    constructor (size: int)
      requires 0 <= size
      ensures Valid() && fresh(chainIds) && this.size == size
      ensures Abs() == State(ZeroIds(size), map[], 1)
    {
      this.size := size;
      chainIds := new I32[size, size]((r, c) => 0);
      ids := ZeroIds(size);
      chains := map[];
      nextChainId := 1;
    }

    /** `Clear()`: a new zero grid, an empty dictionary and the counter at
        0 (not 1, as the field initializer has it). */
    method Clear()
      requires Valid()
      modifies this
      ensures Valid() && fresh(chainIds)
      ensures Abs() == State(ZeroIds(size), map[], 0)
    {
      chainIds := new I32[size, size]((r, c) => 0);
      ids := ZeroIds(size);
      chains := map[];
      nextChainId := 0;
    }

    /** `NextId()`: post-increment of the counter. */
    method NextId() returns (id: I32)
      modifies this`nextChainId
      ensures id == old(nextChainId) && nextChainId == Increment(old(nextChainId))
    {
      id := nextChainId;
      nextChainId := Increment(nextChainId);
    }

    /** `SetChainId(loc, id)`: one cell of the grid changes. */
    method SetChainId(loc: Loc, id: I32)
      requires Valid() && IsValid(loc, size)
      modifies this`ids, chainIds
      ensures Valid()
      ensures ids == PutId(old(ids), loc, id)
    {
      chainIds[loc.row, loc.column] := id;
      ids := PutId(ids, loc, id);
    }

    /** `connections.Select(c => ChainIds[c.Row, c.Column])`. */
    method IdsOf(locs: seq<Loc>) returns (r: seq<I32>)
      requires Valid() && ChainAnalysis.AllOnBoard(locs, size)
      ensures r == IdsAt(ids, locs)
    {
      r := [];
      var k := 0;
      while k < |locs|
        invariant 0 <= k <= |locs| && |r| == k
        invariant forall j :: 0 <= j < k ==> r[j] == IdOf(ids, locs[j])
      {
        assert locs[k] in locs;
        r := r + [chainIds[locs[k].row, locs[k].column]];
        k := k + 1;
      }
    }

    // ------------------------------------------------------------------
    // Placement
    /** `CheckChainIds(loc, player)` (which `PlaceStone` calls) on the
        board whose colours are `grid`; `Ok(Won)` stands for the call to
        `SetWinner`. */
    method CheckChainIds(grid: map<Loc, Color>, loc: Loc, player: Color) returns (r: Result<Placement>)
      requires Valid() && IsGrid(grid, size)
      modifies this, chainIds
      ensures Valid() && chainIds == old(chainIds)
      ensures (r, Abs()) == LegacySpec.Placed(old(Abs()), grid, loc, player, size)
    {
      if player == Unoccupied {
        return Fail(ArgumentException);
      }
      if !IsValid(loc, size) {
        return Fail(IndexOutOfRangeException);
      }
      var highBitsWithSign := HighBitsFromLocation(grid, loc, size);
      var connections := ChainAnalysis.LikeNeighbours(grid, size, loc, player);
      r := Attach(grid, loc, connections, highBitsWithSign);
    }

    /** The body of `CheckChainIds` once the like-coloured neighbours are
        known. */
    method Attach(grid: map<Loc, Color>, loc: Loc, connections: seq<Loc>, highBitsWithSign: I32) returns (r: Result<Placement>)
      requires Valid() && IsGrid(grid, size) && IsValid(loc, size) && ChainAnalysis.AllOnBoard(connections, size)
      modifies this, chainIds
      ensures Valid() && chainIds == old(chainIds)
      ensures (r, Abs()) == LegacySpec.Attached(old(Abs()), grid, loc, connections, highBitsWithSign, size)
    {
      if |connections| == 0 {
        StartChain(loc, highBitsWithSign);
        return Ok(Labelled);
      }
      var ids := IdsOf(connections);
      var same := AllSameIds(ids);
      if same {
        r := JoinCommon(grid, loc, ids[0], highBitsWithSign);
      } else {
        r := JoinSeveral(grid, loc, ids, highBitsWithSign);
      }
    }

    /** No like-coloured neighbour: a chain of its own, labelled with the
        edge bits plus the counter, with a one-cell list. */
    method StartChain(loc: Loc, highBitsWithSign: I32)
      requires Valid() && IsValid(loc, size)
      modifies this`ids, this`chains, this`nextChainId, chainIds
      ensures Valid()
      ensures Abs() == LegacySpec.Started(old(Abs()), loc, highBitsWithSign)
    {
      var next := NextId();
      var id := Wrap(highBitsWithSign as int + next as int) as I32;
      SetChainId(loc, id);
      assert chainIds[loc.row, loc.column] == id;
      chains := chains[chainIds[loc.row, loc.column] := [loc]];
    }

    /** All like-coloured neighbours carry `commonId`. */
    method JoinCommon(grid: map<Loc, Color>, loc: Loc, commonId: I32, highBitsWithSign: I32) returns (r: Result<Placement>)
      requires Valid() && IsGrid(grid, size) && IsValid(loc, size)
      modifies this, chainIds
      ensures Valid() && chainIds == old(chainIds)
      ensures (r, Abs()) == LegacySpec.JoinedCommon(old(Abs()), grid, loc, commonId, highBitsWithSign, size)
    {
      if highBitsWithSign == 0 || HighBitsFromId(commonId) == highBitsWithSign {
        r := Join(loc, commonId);
      } else if HighBitsFromId(commonId) == 0 {
        RelabelFrom(grid, loc, Wrap(commonId as int + highBitsWithSign as int) as I32);
        r := Ok(Labelled);
      } else {
        r := Ok(Won);
      }
    }

    /** `SetChainId(loc, commonId)` and `_mapChainIdToLocations[commonId].Add(loc)`. */
    method Join(loc: Loc, commonId: I32) returns (r: Result<Placement>)
      requires Valid() && IsValid(loc, size)
      modifies this`ids, this`chains, chainIds
      ensures Valid()
      ensures (r, Abs()) == LegacySpec.Joined(old(Abs()), loc, commonId)
    {
      SetChainId(loc, commonId);
      if commonId !in chains {
        return Fail(KeyNotFoundException);
      }
      ChainAnalysis.ListsOnBoardUpdate(chains, size, commonId, chains[commonId] + [loc], commonId);
      chains := chains[commonId := chains[commonId] + [loc]];
      r := Ok(Labelled);
    }

    /** The like-coloured neighbours carry more than one id. */
    method JoinSeveral(grid: map<Loc, Color>, loc: Loc, ids: seq<I32>, highBitsWithSign: I32) returns (r: Result<Placement>)
      requires Valid() && IsGrid(grid, size) && IsValid(loc, size) && ids != []
      modifies this, chainIds
      ensures Valid() && chainIds == old(chainIds)
      ensures (r, Abs()) == LegacySpec.Merged(old(Abs()), grid, loc, ids, highBitsWithSign, size)
    {
      var compatible := AllCompatible(ids, highBitsWithSign);
      if compatible {
        var next := NextId();
        assert (Wrap(highBitsWithSign as int + next as int) as I32, Abs()) == LegacySpec.Drawn(old(Abs()), highBitsWithSign);
        RelabelFrom(grid, loc, Wrap(highBitsWithSign as int + next as int) as I32);
        r := Ok(Labelled);
      } else {
        r := Contest(grid, loc, ids, highBitsWithSign);
      }
    }

    /** Some neighbour's edge bits are neither 0 nor loc's. */
    method Contest(grid: map<Loc, Color>, loc: Loc, ids: seq<I32>, highBitsWithSign: I32) returns (r: Result<Placement>)
      requires Valid() && IsGrid(grid, size) && IsValid(loc, size)
      modifies this, chainIds
      ensures Valid() && chainIds == old(chainIds)
      ensures (r, Abs()) == LegacySpec.Contested(old(Abs()), grid, loc, ids, highBitsWithSign, size)
    {
      var highBitCollection := HighBitCollection(ids);
      if highBitsWithSign < 0 {
        highBitCollection := highBitCollection + {highBitsWithSign};
      }
      if |highBitCollection| > 1 {
        return Ok(Won);
      }
      var first := FirstEdgeId(ids);
      if first.None? {
        return Fail(InvalidOperationException);
      }
      RelabelFrom(grid, loc, first.value);
      r := Ok(Labelled);
    }

    /** `SetChainId(loc, id)` followed by `PromulgateId(loc)`. */
    method RelabelFrom(grid: map<Loc, Color>, loc: Loc, id: I32)
      requires Valid() && IsGrid(grid, size) && IsValid(loc, size)
      modifies this, chainIds
      ensures Valid() && chainIds == old(chainIds)
      ensures Abs() == LegacySpec.Relabel(old(Abs()), grid, loc, id, size)
    {
      SetChainId(loc, id);
      PromulgateId(grid, loc);
    }

    /** `PromulgateId(loc)`. */
    method PromulgateId(grid: map<Loc, Color>, loc: Loc)
      requires Valid() && IsGrid(grid, size) && IsValid(loc, size)
      modifies this, chainIds
      ensures Valid() && chainIds == old(chainIds)
      ensures Abs() == LegacySpec.Promulgated(old(Abs()), grid, loc, size)
    {
      var player := grid[loc];
      var id := chainIds[loc.row, loc.column];
      assert player == ColorAt(grid, loc) && id == IdOf(ids, loc);
      NewListDropping(grid, loc, player, id);
      // The dictionary holds the list object itself, so it sees every
      // cell the loop adds to the list.
      var ourLocList := WaveLoop(grid, loc, player, id);
      ChainAnalysis.ListsOnBoardUpdate(chains, size, id, ourLocList, id);
      chains := chains[id := ourLocList];
    }

    /** The start of `PromulgateId`: a new, empty list under `id`, and the
        lists of the like-coloured neighbours with other ids removed. */
    method NewListDropping(grid: map<Loc, Color>, loc: Loc, player: Color, id: I32)
      requires Valid() && IsGrid(grid, size)
      modifies this`chains
      ensures Valid()
      ensures chains == (old(chains) - LegacySpec.Dropped(ids, grid, loc, player, id, size))[id := []]
    {
      ChainAnalysis.ListsOnBoardUpdate(chains, size, id, [], id);
      chains := chains[id := []];
      var conns := ChainAnalysis.LikeNeighbours(grid, size, loc, player);
      var adjIds := IdsOf(conns);
      DroppedIds(ids, grid, loc, player, id, size, conns);
      DropChains(adjIds, id);
      DropAfterReset(old(chains), LegacySpec.Dropped(ids, grid, loc, player, id, size), id, []);
    }

    /** `foreach (var adjLoc in ...) _mapChainIdToLocations.Remove(ChainId(adjLoc))`:
        the lists of the ids among `adjIds` other than `id` go. */
    method DropChains(adjIds: seq<I32>, id: I32)
      requires Valid()
      modifies this`chains
      ensures Valid()
      ensures chains == old(chains) - OtherIds(adjIds, id)
    {
      var k := 0;
      while k < |adjIds|
        invariant 0 <= k <= |adjIds|
        invariant chains == old(chains) - OtherIds(adjIds[..k], id)
      {
        assert adjIds[..k + 1] == adjIds[..k] + [adjIds[k]];
        if adjIds[k] != id {
          chains := chains - {adjIds[k]};
        }
        k := k + 1;
      }
      assert adjIds[..k] == adjIds;
      DropKeeps(old(chains), OtherIds(adjIds, id), size);
    }

    /** The `while (queue.Count != 0)` loop of `PromulgateId`, from loc:
        the list of the dequeued cells is returned. */
    method WaveLoop(grid: map<Loc, Color>, loc: Loc, player: Color, id: I32) returns (ourLocList: seq<Loc>)
      requires Valid() && IsGrid(grid, size) && IsValid(loc, size)
      modifies this`ids, chainIds
      ensures Valid() && ChainAnalysis.AllOnBoard(ourLocList, size)
      ensures LegacySpec.Wave(ids, [], ourLocList)
           == LegacySpec.Waves(LegacySpec.Wave(old(ids), [loc], []), grid, player, id, size)
    {
      var queue := [loc];
      ourLocList := [];
      while queue != []
        invariant Valid()
        invariant ChainAnalysis.AllOnBoard(queue, size) && ChainAnalysis.AllOnBoard(ourLocList, size)
        invariant LegacySpec.Waves(LegacySpec.Wave(ids, queue, ourLocList), grid, player, id, size)
               == LegacySpec.Waves(LegacySpec.Wave(old(ids), [loc], []), grid, player, id, size)
        decreases LegacySpec.WaveMeasure(LegacySpec.Wave(ids, queue, ourLocList), grid, player, id)
      {
        ghost var w := LegacySpec.Wave(ids, queue, ourLocList);
        LegacySpec.WaveStepShrinks(w, grid, player, id, size);
        var curLoc := queue[0];
        assert curLoc in queue;
        ourLocList := ourLocList + [curLoc];
        queue := RippleFrom(grid, player, id, curLoc, queue[1..], ourLocList);
      }
    }

    /** The neighbour loop of one round of `PromulgateId`, around cur. */
    method RippleFrom(grid: map<Loc, Color>, player: Color, id: I32, cur: Loc, queue: seq<Loc>, ghost list: seq<Loc>)
      returns (queue': seq<Loc>)
      requires Valid() && IsGrid(grid, size) && ChainAnalysis.AllOnBoard(queue, size)
      modifies this`ids, chainIds
      ensures Valid() && ChainAnalysis.AllOnBoard(queue', size)
      ensures LegacySpec.Wave(ids, queue', list)
           == LegacySpec.Ripple(LegacySpec.Wave(old(ids), queue, list), grid, player, id, cur, size, 0)
    {
      queue' := queue;
      var i := 0;
      while i < 6
        invariant 0 <= i <= 6 && Valid() && ChainAnalysis.AllOnBoard(queue', size)
        invariant LegacySpec.Ripple(LegacySpec.Wave(ids, queue', list), grid, player, id, cur, size, i)
               == LegacySpec.Ripple(LegacySpec.Wave(old(ids), queue, list), grid, player, id, cur, size, 0)
      {
        queue' := TouchNeighbour(grid, player, id, Add(cur, Offsets[i]), queue', list);
        i := i + 1;
      }
    }

    /** One neighbour of a round: a cell of the colour with another id
        takes the id and is queued. */
    method TouchNeighbour(grid: map<Loc, Color>, player: Color, id: I32, neighbor: Loc, queue: seq<Loc>, ghost list: seq<Loc>)
      returns (queue': seq<Loc>)
      requires Valid() && IsGrid(grid, size) && ChainAnalysis.AllOnBoard(queue, size)
      modifies this`ids, chainIds
      ensures Valid() && ChainAnalysis.AllOnBoard(queue', size)
      ensures LegacySpec.Wave(ids, queue', list)
           == LegacySpec.Touch(LegacySpec.Wave(old(ids), queue, list), grid, player, id, neighbor, size)
    {
      queue' := queue;
      if IsValid(neighbor, size) && grid[neighbor] == player && chainIds[neighbor.row, neighbor.column] != id {
        SetChainId(neighbor, id);
        queue' := queue + [neighbor];
      }
    }
    // ------------------------------------------------------------------
    // Removal

    /** `checks.Where(l => ChainId(l) == oldId)`, of which the removal loop
        takes the first. */
    method NextCarrying(checks: seq<Loc>, oldId: I32) returns (r: Option<Loc>)
      requires Valid() && ChainAnalysis.AllOnBoard(checks, size)
      ensures r == FirstCarrying(ids, checks, oldId)
    {
      var k := 0;
      while k < |checks|
        invariant 0 <= k <= |checks|
        invariant FirstCarrying(ids, checks[k..], oldId) == FirstCarrying(ids, checks, oldId)
      {
        assert checks[k..][0] == checks[k] && checks[k..][1..] == checks[k + 1..];
        assert checks[k] in checks;
        if chainIds[checks[k].row, checks[k].column] == oldId {
          return Some(checks[k]);
        }
        k := k + 1;
      }
      assert checks[k..] == [];
      r := None;
    }

    /** `CheckIdsOnRemoval(loc, player)` (which `RemoveStone` calls), for
        at most `fuel` rounds of its outer loop. */
    method CheckIdsOnRemoval(grid: map<Loc, Color>, loc: Loc, player: Color, fuel: nat) returns (o: Outcome)
      requires Valid() && IsGrid(grid, size)
      modifies this, chainIds
      ensures Valid() && chainIds == old(chainIds)
      ensures (o, Abs()) == LegacySpec.Removed(old(Abs()), grid, loc, player, size, fuel)
    {
      if !IsValid(loc, size) {
        return Throw(IndexOutOfRangeException);
      }
      var oldId := chainIds[loc.row, loc.column];
      ChainAnalysis.ListsOnBoardUpdate(chains, size, oldId, [], oldId);
      chains := chains - {oldId};
      SetChainId(loc, 0);
      assert Abs() == old(Abs()).(chains := old(chains) - {oldId}, ids := PutId(old(ids), loc, 0));
      var checks := ChainAnalysis.LikeNeighbours(grid, size, loc, player);
      o := RemovalLoop(grid, checks, oldId, fuel);
    }

    /** The `while` loop of `CheckIdsOnRemoval`: as long as one of `checks`
        still carries oldId, the first such cell starts a new chain. */
    method RemovalLoop(grid: map<Loc, Color>, checks: seq<Loc>, oldId: I32, fuel: nat) returns (o: Outcome)
      requires Valid() && IsGrid(grid, size) && ChainAnalysis.AllOnBoard(checks, size)
      modifies this, chainIds
      ensures Valid() && chainIds == old(chainIds)
      ensures (o, Abs()) == LegacySpec.RemovalRounds(old(Abs()), grid, checks, oldId, size, fuel)
    {
      var rounds: nat := fuel;
      while true
        invariant Valid() && chainIds == old(chainIds)
        invariant LegacySpec.RemovalRounds(Abs(), grid, checks, oldId, size, rounds)
               == LegacySpec.RemovalRounds(old(Abs()), grid, checks, oldId, size, fuel)
        decreases rounds
      {
        var next := NextCarrying(checks, oldId);
        if next.None? {
          return Pass;
        }
        if rounds == 0 {
          return Throw(FuelExhausted);
        }
        FirstCarryingFound(ids, checks, oldId);
        var rest: nat := rounds - 1;
        RemovalRoundsStep(Abs(), grid, checks, oldId, size, rounds, rest, next.value);
        o := StartFlood(grid, next.value);
        if o.Throw? {
          return;
        }
        rounds := rest;
      }
    }

    /** One round of the removal loop: `NextId()` labels `next` and gets a
        new, empty list, and the flood starts from it. */
    method StartFlood(grid: map<Loc, Color>, next: Loc) returns (o: Outcome)
      requires Valid() && IsGrid(grid, size) && IsValid(next, size)
      modifies this, chainIds
      ensures Valid() && chainIds == old(chainIds)
      ensures (o, Abs()) == LegacySpec.Flooded(LegacySpec.FreshChain(old(Abs()), next), grid, next, size)
    {
      var id := NextId();
      SetChainId(next, id);
      ChainAnalysis.ListsOnBoardUpdate(chains, size, id, [], id);
      chains := chains[id := []];
      assert Abs() == LegacySpec.FreshChain(old(Abs()), next);
      o := PromulgateIdAfterDelete(grid, next);
    }

    /** `PromulgateIdAfterDelete(loc)`: breadth-first relabelling from loc
        with the id loc carries; a missing list throws. */
    method PromulgateIdAfterDelete(grid: map<Loc, Color>, loc: Loc) returns (o: Outcome)
      requires Valid() && IsGrid(grid, size) && IsValid(loc, size)
      modifies this, chainIds
      ensures Valid() && chainIds == old(chainIds)
      ensures (o, Abs()) == LegacySpec.Flooded(old(Abs()), grid, loc, size)
    {
      var player := grid[loc];
      var id := chainIds[loc.row, loc.column];
      if id !in chains {
        return Throw(KeyNotFoundException);
      }
      assert id == IdOf(ids, loc) && player == ColorAt(grid, loc);
      FloodLoop(grid, player, id, [loc], chains[id], []);
      o := Pass;
    }

    /** The `while (queue.Count != 0)` loop of `PromulgateIdAfterDelete`. */
    method FloodLoop(grid: map<Loc, Color>, player: Color, id0: I32, queue0: seq<Loc>, list0: seq<Loc>, placed0: seq<Loc>)
      requires Valid() && IsGrid(grid, size)
      requires ChainAnalysis.AllOnBoard(queue0, size) && ChainAnalysis.AllOnBoard(list0, size)
      requires ChainAnalysis.AllOnBoard(placed0, size)
      modifies this, chainIds
      ensures Valid() && chainIds == old(chainIds)
      ensures Abs() == LegacySpec.FloodRounds(Flood(old(Abs()), id0, queue0, list0, placed0), grid, player, size)
    {
      var id, queue, ourLocList, chainLocations := id0, queue0, list0, placed0;
      while queue != []
        invariant Valid() && chainIds == old(chainIds)
        invariant ChainAnalysis.AllOnBoard(queue, size) && ChainAnalysis.AllOnBoard(ourLocList, size)
        invariant ChainAnalysis.AllOnBoard(chainLocations, size)
        invariant LegacySpec.FloodRounds(Flood(Abs(), id, queue, ourLocList, chainLocations), grid, player, size)
               == LegacySpec.FloodRounds(Flood(old(Abs()), id0, queue0, list0, placed0), grid, player, size)
        decreases LegacySpec.Rank(id), LegacySpec.FloodMeasure(Flood(Abs(), id, queue, ourLocList, chainLocations), grid, player)
      {
        ghost var f := Flood(Abs(), id, queue, ourLocList, chainLocations);
        LegacySpec.FloodStepShrinks(f, grid, player, size);
        id, queue, ourLocList, chainLocations := FloodRound(grid, player, id, queue, ourLocList, chainLocations);
      }
    }

    /** One round of the queue loop of `PromulgateIdAfterDelete`. */
    method FloodRound(grid: map<Loc, Color>, player: Color, id: I32, queue: seq<Loc>, list: seq<Loc>, placed: seq<Loc>)
      returns (id': I32, queue': seq<Loc>, list': seq<Loc>, placed': seq<Loc>)
      requires Valid() && IsGrid(grid, size) && queue != []
      requires ChainAnalysis.AllOnBoard(queue, size) && ChainAnalysis.AllOnBoard(list, size)
      requires ChainAnalysis.AllOnBoard(placed, size)
      modifies this, chainIds
      ensures Valid() && chainIds == old(chainIds)
      ensures ChainAnalysis.AllOnBoard(queue', size) && ChainAnalysis.AllOnBoard(list', size)
      ensures ChainAnalysis.AllOnBoard(placed', size)
      ensures Flood(Abs(), id', queue', list', placed')
           == LegacySpec.FloodStep(Flood(old(Abs()), id, queue, list, placed), grid, player, size)
    {
      var curLoc := queue[0];
      assert curLoc in queue;
      list' := list + [curLoc];
      ChainAnalysis.ListsOnBoardUpdate(chains, size, id, list', id);
      chains := chains[id := list'];
      id', queue', placed' := SpreadFrom(grid, player, curLoc, id, queue[1..], list', placed);
    }

    /** The neighbour loop of one round of the flood, around cur. */
    method SpreadFrom(grid: map<Loc, Color>, player: Color, cur: Loc, id: I32,
                      queue: seq<Loc>, list: seq<Loc>, placed: seq<Loc>)
      returns (id': I32, queue': seq<Loc>, placed': seq<Loc>)
      requires Valid() && IsGrid(grid, size)
      requires ChainAnalysis.AllOnBoard(queue, size) && ChainAnalysis.AllOnBoard(list, size)
      requires ChainAnalysis.AllOnBoard(placed, size)
      modifies this, chainIds
      ensures Valid() && chainIds == old(chainIds)
      ensures ChainAnalysis.AllOnBoard(queue', size) && ChainAnalysis.AllOnBoard(placed', size)
      ensures Flood(Abs(), id', queue', list, placed')
           == LegacySpec.Spread(Flood(old(Abs()), id, queue, list, placed), grid, player, cur, size, 0)
    {
      id', queue', placed' := id, queue, placed;
      var i := 0;
      while i < 6
        invariant 0 <= i <= 6
        invariant Valid() && chainIds == old(chainIds)
        invariant ChainAnalysis.AllOnBoard(queue', size) && ChainAnalysis.AllOnBoard(placed', size)
        invariant LegacySpec.Spread(Flood(Abs(), id', queue', list, placed'), grid, player, cur, size, i)
               == LegacySpec.Spread(Flood(old(Abs()), id, queue, list, placed), grid, player, cur, size, 0)
      {
        id', queue', placed' := VisitNeighbour(grid, player, Add(cur, Offsets[i]), id', queue', list, placed');
        i := i + 1;
      }
    }

    /** One neighbour of the flood: a cell of the colour with another id is
        labelled, recorded and queued, after the check for an edge. */
    method VisitNeighbour(grid: map<Loc, Color>, player: Color, neighbor: Loc, id: I32,
                          queue: seq<Loc>, list: seq<Loc>, placed: seq<Loc>)
      returns (id': I32, queue': seq<Loc>, placed': seq<Loc>)
      requires Valid() && IsGrid(grid, size)
      requires ChainAnalysis.AllOnBoard(queue, size) && ChainAnalysis.AllOnBoard(list, size)
      requires ChainAnalysis.AllOnBoard(placed, size)
      modifies this, chainIds
      ensures Valid() && chainIds == old(chainIds)
      ensures ChainAnalysis.AllOnBoard(queue', size) && ChainAnalysis.AllOnBoard(placed', size)
      ensures Flood(Abs(), id', queue', list, placed')
           == LegacySpec.Visit(Flood(old(Abs()), id, queue, list, placed), grid, player, neighbor, size)
    {
      id', queue', placed' := id, queue, placed;
      if IsValid(neighbor, size) && grid[neighbor] == player && chainIds[neighbor.row, neighbor.column] != id {
        id' := ReKey(grid, neighbor, id, queue, list, placed);
        SetChainId(neighbor, id');
        placed' := placed + [neighbor];
        queue' := queue + [neighbor];
      }
    }

    /** `if (!IsEdgeChain(id) && HighBitsFromLocation(neighbor) != 0)`: the
        list leaves key id, the id takes the neighbour's edge bits, the
        list is stored under the new id and the cells labelled so far
        take it. */
    method ReKey(grid: map<Loc, Color>, neighbor: Loc, id: I32, ghost queue: seq<Loc>, list: seq<Loc>, placed: seq<Loc>)
      returns (newId: I32)
      requires Valid() && IsGrid(grid, size)
      requires ChainAnalysis.AllOnBoard(list, size) && ChainAnalysis.AllOnBoard(placed, size)
      modifies this, chainIds
      ensures Valid() && chainIds == old(chainIds)
      ensures Flood(Abs(), newId, queue, list, placed)
           == LegacySpec.Upgrade(Flood(old(Abs()), id, queue, list, placed), grid, neighbor, size)
    {
      newId := id;
      if !IsEdgeChain(id) && HighBitsFromLocation(grid, neighbor, size) != 0 {
        ChainAnalysis.ListsOnBoardUpdate(chains, size, id, list, id);
        chains := chains - {id};
        newId := OrI32(id, HighBitsFromLocation(grid, neighbor, size));
        ChainAnalysis.ListsOnBoardUpdate(chains, size, newId, list, newId);
        chains := chains[newId := list];
        Relabel(placed, newId);
      }
    }

    /** `foreach (var prevLocation in chainLocations) SetChainId(prevLocation, id)`. */
    method Relabel(locs: seq<Loc>, id: I32)
      requires Valid() && ChainAnalysis.AllOnBoard(locs, size)
      modifies this`ids, chainIds
      ensures Valid()
      ensures ids == Relabelled(old(ids), locs, id)
    {
      var j := 0;
      while j < |locs|
        invariant 0 <= j <= |locs| && Valid()
        invariant Relabelled(ids, locs[j..], id) == Relabelled(old(ids), locs, id)
      {
        assert locs[j..][0] == locs[j] && locs[j..][1..] == locs[j + 1..];
        SetChainId(locs[j], id);
        j := j + 1;
      }
    }

    /** `ChainCount(player)`. */
    method ChainCount(grid: map<Loc, Color>, player: Color) returns (r: Result<nat>)
      ensures r == ChainCounted(chains, grid, player)
    {
      if player == Unoccupied {
        return Ok(|chains|);
      }
      r := ChainAnalysis.CountColour(chains, grid, player);
    }
  }
}
