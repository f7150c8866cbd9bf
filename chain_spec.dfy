/** What the library's incremental chain analysis (`HexLibrary.Analysis`)
    computes, as functions on a value of its state.

    The state is the chain id of every cell (0 for a cell in no chain), a
    dictionary from chain id to the list of that chain's cells, and the id
    counter. Ids -1 .. -4 are the sentinels of the four edges (Black owns
    columns 0 and Size-1, with -1 and -3; White owns rows 0 and Size-1, with
    -4 and -2). Every function here follows one method of the class step by
    step, in the same order, and the class in chain_analysis.dfy is proved
    to compute exactly these values. */
module ChainSpec {
  import opened Errors
  import opened Int32
  import opened Geometry

  /** The analysis state: `ChainIds`, `_mapChainIdToLocations` and
      `_nextChainId`. The dictionary's lists are values here; in the source
      each list object is stored under one key at a time, so nothing is lost
      by copying them. */
  datatype State = State(ids: map<Loc, I32>, chains: map<I32, seq<Loc>>, next: I32)

  /** The id of cell l (cells off the grid are never asked for). */
  function IdOf(ids: map<Loc, I32>, l: Loc): I32 {
    if l in ids then ids[l] else 0
  }

  function PutId(ids: map<Loc, I32>, l: Loc, v: I32): map<Loc, I32> {
    if l in ids then ids[l := v] else ids
  }

  /** The colour of cell l on the board. */
  function ColorAt(grid: map<Loc, Color>, l: Loc): Color {
    if l in grid then grid[l] else Unoccupied
  }

  /** The keys of g are exactly the cells of an n-by-n board. */
  ghost predicate IsGrid<T>(g: map<Loc, T>, n: int) {
    forall l :: l in g <==> IsValid(l, n)
  }

  /** The id grid of a fresh analysis: every cell 0. */
  function ZeroIds(n: int): (ids: map<Loc, I32>)
    ensures forall l :: l in ids <==> IsValid(l, n)
    ensures forall l :: IdOf(ids, l) == 0
  {
    map r, c | 0 <= r < n && 0 <= c < n :: Loc(r, c) := 0
  }

  // ----------------------------------------------------------------------
  // Fresh ids and edge sentinels

  /** The sentinel of the edge that a stone of colour `player` at `loc` lies
      on, or 0 when it lies on none of that colour's edges. Anything that is
      not Black is treated as White. */
  function EdgeId(loc: Loc, player: Color, n: int): I32 {
    if player == Black then
      if loc.column == 0 then -1 else if loc.column == n - 1 then -3 else 0
    else
      if loc.row == 0 then -4 else if loc.row == n - 1 then -2 else 0
  }

  /** `NewOrEdgeId`: always advances the counter (`NextId` is `++counter`),
      and returns the edge sentinel if there is one, else the new counter. */
  function Candidate(st: State, loc: Loc, player: Color, n: int): (I32, State) {
    var newId := Increment(st.next);
    var edge := EdgeId(loc, player, n);
    (if edge != 0 then edge else newId, st.(next := newId))
  }

  /** The candidate id is a sentinel exactly on the player's own edges, a
      fresh id otherwise; the counter advances in every case and nothing
      else changes. The id is never 0 unless the counter was -1. */
  lemma CandidateFacts(st: State, loc: Loc, player: Color, n: int)
    ensures Candidate(st, loc, player, n).1 == st.(next := Increment(st.next))
    ensures -4 <= EdgeId(loc, player, n) <= 0
    ensures EdgeId(loc, player, n) != 0 ==> Candidate(st, loc, player, n).0 == EdgeId(loc, player, n)
    ensures EdgeId(loc, player, n) == 0 ==> Candidate(st, loc, player, n).0 == Increment(st.next)
    ensures Candidate(st, loc, player, n).0 == 0 <==> EdgeId(loc, player, n) == 0 && st.next == -1
  {
  }

  /** The edge ids of the four corners of an 11 by 11 board, for each colour,
      as the library's chain test expects them. */
  lemma EdgeIdCorners()
    ensures EdgeId(Loc(0, 0), White, 11) == -4 && EdgeId(Loc(0, 0), Black, 11) == -1
    ensures EdgeId(Loc(10, 0), White, 11) == -2 && EdgeId(Loc(10, 0), Black, 11) == -1
    ensures EdgeId(Loc(10, 10), White, 11) == -2 && EdgeId(Loc(10, 10), Black, 11) == -3
    ensures EdgeId(Loc(0, 10), White, 11) == -4 && EdgeId(Loc(0, 10), Black, 11) == -3
  {
  }

  // ----------------------------------------------------------------------
  // Sequences of cells and ids

  /** `locs.Where(l => PlayerAtLoc(l) == player)`. */
  function Like(grid: map<Loc, Color>, locs: seq<Loc>, player: Color): (r: seq<Loc>)
    ensures |r| <= |locs|
  {
    if locs == [] then []
    else (if ColorAt(grid, locs[0]) == player then [locs[0]] else []) + Like(grid, locs[1..], player)
  }

  /** The filter keeps exactly the cells of the given colour. */
  lemma {:induction false} LikeMembers(grid: map<Loc, Color>, locs: seq<Loc>, player: Color)
    ensures forall l :: l in Like(grid, locs, player) <==> l in locs && ColorAt(grid, l) == player
  {
    if locs != [] {
      LikeMembers(grid, locs[1..], player);
      assert forall l :: l in locs <==> l == locs[0] || l in locs[1..];
    }
  }

  /** `locs.Select(ChainId)`. */
  function IdsAt(ids: map<Loc, I32>, locs: seq<Loc>): (r: seq<I32>)
    ensures |r| == |locs|
    ensures forall k :: 0 <= k < |locs| ==> r[k] == IdOf(ids, locs[k])
  {
    if locs == [] then [] else [IdOf(ids, locs[0])] + IdsAt(ids, locs[1..])
  }

  /** Sets the id of every cell of `locs` (on the grid) to v, in order. */
  function Relabelled(ids: map<Loc, I32>, locs: seq<Loc>, v: I32): map<Loc, I32>
    decreases |locs|
  {
    if locs == [] then ids else Relabelled(PutId(ids, locs[0], v), locs[1..], v)
  }

  /** Relabelling changes exactly the listed cells, to v, and keeps the grid. */
  lemma {:induction false} RelabelledAt(ids: map<Loc, I32>, locs: seq<Loc>, v: I32, l: Loc)
    ensures l in Relabelled(ids, locs, v) <==> l in ids
    ensures IdOf(Relabelled(ids, locs, v), l) == if l in locs && l in ids then v else IdOf(ids, l)
    decreases |locs|
  {
    if locs != [] {
      RelabelledAt(PutId(ids, locs[0], v), locs[1..], v, l);
      assert l in locs <==> l == locs[0] || l in locs[1..];
    }
  }

  /** Relabelling with a concatenation is relabelling with each part in turn. */
  lemma {:induction false} RelabelledAppend(ids: map<Loc, I32>, a: seq<Loc>, b: seq<Loc>, v: I32)
    ensures Relabelled(ids, a + b, v) == Relabelled(Relabelled(ids, a, v), b, v)
    decreases |a|
  {
    if a != [] {
      assert (a + b)[0] == a[0] && (a + b)[1..] == a[1..] + b;
      RelabelledAppend(PutId(ids, a[0], v), a[1..], b, v);
    } else {
      assert a + b == b;
    }
  }

  // ----------------------------------------------------------------------
  // Placement (CheckChainIds)

  /** Two different edge sentinels (negative ids) occur among vals. */
  predicate TwoEdges(vals: seq<I32>) {
    exists i, j :: 0 <= i < |vals| && 0 <= j < |vals| && vals[i] < 0 && vals[j] < 0 && vals[i] != vals[j]
  }

  /** The smallest of vals. */
  function SeqMin(vals: seq<I32>): (m: I32)
    requires vals != []
    ensures m in vals
    ensures forall k :: 0 <= k < |vals| ==> m <= vals[k]
  {
    if |vals| == 1 then vals[0]
    else
      var rest := SeqMin(vals[1..]);
      if vals[0] <= rest then vals[0] else rest
  }

  /** Without two different sentinels, the minimum is the one sentinel
      present, if any: an edge id always beats a fresh (positive) id. */
  lemma SeqMinPrefersEdge(vals: seq<I32>, k: int)
    requires vals != [] && !TwoEdges(vals)
    requires 0 <= k < |vals| && vals[k] < 0
    ensures SeqMin(vals) == vals[k]
  {
    var m := SeqMin(vals);
    var i :| 0 <= i < |vals| && vals[i] == m;
    assert m <= vals[k] < 0;
  }

  datatype Placement = Labelled | Won

  /** `CheckChainIds(loc, player)` on a board whose colours are `grid`. */
  function Placed(st: State, grid: map<Loc, Color>, loc: Loc, player: Color, n: int): (Result<Placement>, State) {
    if player == Unoccupied then (Fail(ArgumentException), st)
    else if !IsValid(loc, n) then (Fail(IndexOutOfRangeException), st)
    else
      var (cand, st1) := Candidate(st, loc, ColorAt(grid, loc), n);
      var vals := [cand] + IdsAt(st1.ids, Like(grid, Adjacent(loc, n), player));
      if TwoEdges(vals) then (Ok(Won), st1)
      else
        var (o, st2) := Promulgated(st1.(ids := PutId(st1.ids, loc, SeqMin(vals))), grid, loc, n);
        (if o.Throw? then Fail(o.error) else Ok(Labelled), st2)
  }

  /** The ids `PromulgateId` absorbs: those of the like-coloured neighbours
      (offsets i .. 5, in order) whose id differs from `id`, each once, in
      the order a `HashSet<int>` filled without removals enumerates them. */
  function Eliminated(grid: map<Loc, Color>, ids: map<Loc, I32>, loc: Loc, player: Color, id: I32,
                      n: int, i: nat, acc: seq<I32>): seq<I32>
    requires i <= 6
    decreases 6 - i, loc
  {
    if i == 6 then acc
    else
      var nb := Add(loc, Offsets[i]);
      var take := IsValid(nb, n) && ColorAt(grid, nb) == player && IdOf(ids, nb) != id && IdOf(ids, nb) !in acc;
      Eliminated(grid, ids, loc, player, id, n, i + 1, if take then acc + [IdOf(ids, nb)] else acc)
  }

  /** `PromulgateId(loc)`: append loc to its chain's list (creating it), then
      absorb every neighbouring chain of the same colour. */
  function Promulgated(st: State, grid: map<Loc, Color>, loc: Loc, n: int): (Outcome, State) {
    var player := ColorAt(grid, loc);
    var id := IdOf(st.ids, loc);
    var elim := Eliminated(grid, st.ids, loc, player, id, n, 0, []);
    var own := (if id in st.chains then st.chains[id] else []) + [loc];
    EliminatedDistinct(grid, st.ids, loc, player, id, n, 0, []);
    Absorbed(st.(chains := st.chains[id := own]), id, elim)
  }

  /** Placing a stone of no colour throws and changes nothing. */
  lemma PlacedUnoccupied(st: State, grid: map<Loc, Color>, loc: Loc, n: int)
    ensures Placed(st, grid, loc, Unoccupied, n) == (Fail(ArgumentException), st)
  {
  }

  /** A winning placement only advances the counter: loc is not labelled
      and no list changes. */
  lemma PlacedWinKeeps(st: State, grid: map<Loc, Color>, loc: Loc, player: Color, n: int)
    requires Placed(st, grid, loc, player, n).0 == Ok(Won)
    ensures Placed(st, grid, loc, player, n).1 == st.(next := Increment(st.next))
  {
  }

  /** After a placement that does not win, loc carries the least of the
      candidate and the neighbours' ids, whether or not the absorbing loop
      throws; with an edge sentinel among them, that is the sentinel. */
  lemma {:induction false} PlacedLabel(st: State, grid: map<Loc, Color>, loc: Loc, player: Color, n: int, k: int)
    requires player != Unoccupied && IsValid(loc, n) && loc in st.ids
    requires var (cand, st1) := Candidate(st, loc, ColorAt(grid, loc), n);
      var vals := [cand] + IdsAt(st1.ids, Like(grid, Adjacent(loc, n), player));
      !TwoEdges(vals) && 0 <= k < |vals| && vals[k] < 0
    ensures var (cand, st1) := Candidate(st, loc, ColorAt(grid, loc), n);
      var vals := [cand] + IdsAt(st1.ids, Like(grid, Adjacent(loc, n), player));
      Placed(st, grid, loc, player, n).0 != Ok(Won) &&
      IdOf(Placed(st, grid, loc, player, n).1.ids, loc) == vals[k]
  {
    var (cand, st1) := Candidate(st, loc, ColorAt(grid, loc), n);
    var vals := [cand] + IdsAt(st1.ids, Like(grid, Adjacent(loc, n), player));
    SeqMinPrefersEdge(vals, k);
    var st2 := st1.(ids := PutId(st1.ids, loc, SeqMin(vals)));
    PromulgatedKeepsLoc(st2, grid, loc, n);
  }

  /** `PromulgateId` leaves loc with the id it had. */
  lemma PromulgatedKeepsLoc(st: State, grid: map<Loc, Color>, loc: Loc, n: int)
    ensures IdOf(Promulgated(st, grid, loc, n).1.ids, loc) == IdOf(st.ids, loc)
  {
    var id := IdOf(st.ids, loc);
    var elim := Eliminated(grid, st.ids, loc, ColorAt(grid, loc), id, n, 0, []);
    var own := (if id in st.chains then st.chains[id] else []) + [loc];
    EliminatedDistinct(grid, st.ids, loc, ColorAt(grid, loc), id, n, 0, []);
    AbsorbedKeepsId(st.(chains := st.chains[id := own]), id, elim, loc);
  }

  /** The absorbing loop never changes a cell that already carries id. */
  lemma {:induction false} AbsorbedKeepsId(st: State, id: I32, elim: seq<I32>, l: Loc)
    requires id in st.chains && id !in elim && IdOf(st.ids, l) == id
    ensures IdOf(Absorbed(st, id, elim).1.ids, l) == id
    decreases |elim|
  {
    if elim != [] && elim[0] in st.chains {
      var members := st.chains[elim[0]];
      RelabelledAt(st.ids, members, id, l);
      var chains := st.chains[id := st.chains[id] + members] - {elim[0]};
      AbsorbedKeepsId(st.(ids := Relabelled(st.ids, members, id), chains := chains), id, elim[1..], l);
    }
  }

  /** The scan collects exactly the ids of the like-coloured neighbours that
      differ from `id`. */
  lemma {:induction false} EliminatedMembers(grid: map<Loc, Color>, ids: map<Loc, I32>, loc: Loc, player: Color,
                                             id: I32, n: int, i: nat, acc: seq<I32>)
    requires i <= 6
    ensures var r := Eliminated(grid, ids, loc, player, id, n, i, acc);
      forall x :: x in r <==> (x in acc ||
        exists k :: i <= k < 6 && IsValid(Add(loc, Offsets[k]), n) && ColorAt(grid, Add(loc, Offsets[k])) == player &&
          IdOf(ids, Add(loc, Offsets[k])) == x && x != id)
    decreases 6 - i
  {
    if i < 6 {
      var nb := Add(loc, Offsets[i]);
      var take := IsValid(nb, n) && ColorAt(grid, nb) == player && IdOf(ids, nb) != id && IdOf(ids, nb) !in acc;
      var acc' := if take then acc + [IdOf(ids, nb)] else acc;
      EliminatedMembers(grid, ids, loc, player, id, n, i + 1, acc');
    }
  }

  /** The absorbed ids never include `id` and are pairwise different. */
  lemma {:induction false} EliminatedDistinct(grid: map<Loc, Color>, ids: map<Loc, I32>, loc: Loc, player: Color,
                                              id: I32, n: int, i: nat, acc: seq<I32>)
    requires i <= 6
    requires id !in acc && Distinct(acc)
    ensures var r := Eliminated(grid, ids, loc, player, id, n, i, acc);
      id !in r && Distinct(r)
    decreases 6 - i
  {
    if i < 6 {
      var nb := Add(loc, Offsets[i]);
      var take := IsValid(nb, n) && ColorAt(grid, nb) == player && IdOf(ids, nb) != id && IdOf(ids, nb) !in acc;
      EliminatedDistinct(grid, ids, loc, player, id, n, i + 1, if take then acc + [IdOf(ids, nb)] else acc);
    }
  }

  predicate Distinct<T(==)>(s: seq<T>) {
    forall i, j :: 0 <= i < j < |s| ==> s[i] != s[j]
  }

  /** The `foreach (var idElim in eliminatedIds)` loop: relabel every member
      of chain e to id, move its list onto id's list, drop e. A missing
      entry throws `KeyNotFoundException` with the earlier chains absorbed. */
  function Absorbed(st: State, id: I32, elim: seq<I32>): (Outcome, State)
    requires id in st.chains && id !in elim
    decreases |elim|
  {
    if elim == [] then (Pass, st)
    else if elim[0] !in st.chains then (Throw(KeyNotFoundException), st)
    else
      var members := st.chains[elim[0]];
      var chains := st.chains[id := st.chains[id] + members] - {elim[0]};
      Absorbed(st.(ids := Relabelled(st.ids, members, id), chains := chains), id, elim[1..])
  }

  /** The lists of the chains in elim, one after the other. */
  function Members(chains: map<I32, seq<Loc>>, elim: seq<I32>): seq<Loc>
    requires forall e :: e in elim ==> e in chains
  {
    if elim == [] then [] else chains[elim[0]] + Members(chains, elim[1..])
  }

  /** The effect of absorbing a list of distinct chains that all exist: their
      entries go, their cells are relabelled to id, their lists are appended
      to id's list in order, and every other entry and cell is unchanged.
      If one of them is missing, the loop throws `KeyNotFoundException`. */
  lemma {:induction false} AbsorbedEffect(st: State, id: I32, elim: seq<I32>)
    requires id in st.chains && id !in elim && Distinct(elim)
    ensures (forall e :: e in elim ==> e in st.chains) <==> Absorbed(st, id, elim).0 == Pass
    ensures (forall e :: e in elim ==> e in st.chains) ==>
      Absorbed(st, id, elim).1 == st.(
        ids := Relabelled(st.ids, Members(st.chains, elim), id),
        chains := (st.chains - set e | e in elim)[id := st.chains[id] + Members(st.chains, elim)])
    decreases |elim|
  {
    if elim == [] {
      assert st.chains[id] + [] == st.chains[id];
      assert (st.chains - set e | e in elim)[id := st.chains[id]] == st.chains;
    } else if elim[0] in st.chains {
      var e := elim[0];
      var members := st.chains[e];
      var chains := st.chains[id := st.chains[id] + members] - {e};
      var st1 := st.(ids := Relabelled(st.ids, members, id), chains := chains);
      DistinctTail(elim);
      AbsorbedEffect(st1, id, elim[1..]);
      if forall x :: x in elim ==> x in st.chains {
        AbsorbedEffectCombine(st, id, elim);
      } else {
        var x :| x in elim && x !in st.chains;
        assert x in elim[1..] && x !in chains;
      }
    }
  }

  /** The tail of a list of distinct ids is distinct and misses its head. */
  lemma DistinctTail<T>(s: seq<T>)
    requires s != [] && Distinct(s)
    ensures Distinct(s[1..]) && forall x :: x in s[1..] ==> x in s && x != s[0]
  {
    forall x | x in s[1..] ensures x in s && x != s[0] {
      var j :| 0 <= j < |s[1..]| && s[1..][j] == x;
      assert s[j + 1] == x;
    }
  }

  /** The first round of the absorbing loop followed by the effect of the
      rest is the effect of the whole. */
  lemma AbsorbedEffectCombine(st: State, id: I32, elim: seq<I32>)
    requires id in st.chains && id !in elim && Distinct(elim) && elim != []
    requires forall e :: e in elim ==> e in st.chains
    requires forall x :: x in elim[1..] ==> x in st.chains && x != elim[0]
    requires var e := elim[0]; var members := st.chains[e];
      var st1 := st.(ids := Relabelled(st.ids, members, id), chains := st.chains[id := st.chains[id] + members] - {e});
      Absorbed(st1, id, elim[1..]).1 == st1.(
        ids := Relabelled(st1.ids, Members(st1.chains, elim[1..]), id),
        chains := (st1.chains - set x | x in elim[1..])[id := st1.chains[id] + Members(st1.chains, elim[1..])])
    ensures Absorbed(st, id, elim).1 == st.(
        ids := Relabelled(st.ids, Members(st.chains, elim), id),
        chains := (st.chains - set x | x in elim)[id := st.chains[id] + Members(st.chains, elim)])
  {
    var e := elim[0];
    var members := st.chains[e];
    var chains := st.chains[id := st.chains[id] + members] - {e};
    MembersUnchanged(st.chains, chains, elim[1..]);
    RelabelledAppend(st.ids, members, Members(st.chains, elim[1..]), id);
    ChainsCombine(st.chains, id, elim);
  }

  /** The dictionary half of AbsorbedEffectCombine. */
  lemma ChainsCombine(c: map<I32, seq<Loc>>, id: I32, elim: seq<I32>)
    requires id in c && id !in elim && elim != []
    requires forall e :: e in elim ==> e in c
    requires forall x :: x in elim[1..] ==> x in c && x != elim[0]
    ensures var chains := c[id := c[id] + c[elim[0]]] - {elim[0]};
      Members(c, elim) == c[elim[0]] + Members(c, elim[1..]) &&
      (chains - set x | x in elim[1..])[id := chains[id] + Members(c, elim[1..])]
        == (c - set x | x in elim)[id := c[id] + Members(c, elim)]
  {
    var e := elim[0];
    var chains := c[id := c[id] + c[e]] - {e};
    var rest := Members(c, elim[1..]);
    assert chains[id] + rest == c[id] + (c[e] + rest);
    assert (set x | x in elim) == (set x | x in elim[1..]) + {e};
  }

  /** Members only reads the entries it is asked for. */
  lemma {:induction false} MembersUnchanged(c1: map<I32, seq<Loc>>, c2: map<I32, seq<Loc>>, elim: seq<I32>)
    requires forall e :: e in elim ==> e in c1 && e in c2 && c1[e] == c2[e]
    ensures Members(c1, elim) == Members(c2, elim)
    decreases |elim|
  {
    if elim != [] {
      MembersUnchanged(c1, c2, elim[1..]);
    }
  }

  // ----------------------------------------------------------------------
  // Removal (CheckIdsOnRemoval, PromulgateIdAfterDelete)

  /** The first of `checks` whose id is oldId. */
  function FirstCarrying(ids: map<Loc, I32>, checks: seq<Loc>, oldId: I32): Option<Loc> {
    if checks == [] then None
    else if IdOf(ids, checks[0]) == oldId then Some(checks[0])
    else FirstCarrying(ids, checks[1..], oldId)
  }

  /** A cell the search finds is one of checks and carries oldId. */
  lemma {:induction false} FirstCarryingFound(ids: map<Loc, I32>, checks: seq<Loc>, oldId: I32)
    ensures var r := FirstCarrying(ids, checks, oldId);
      r.Some? ==> r.value in checks && IdOf(ids, r.value) == oldId
  {
    if checks != [] && IdOf(ids, checks[0]) != oldId {
      FirstCarryingFound(ids, checks[1..], oldId);
    }
  }

  /** The search finds a cell of checks carrying oldId exactly when there is
      one, and then the earliest. */
  lemma {:induction false} FirstCarryingFacts(ids: map<Loc, I32>, checks: seq<Loc>, oldId: I32)
    ensures var r := FirstCarrying(ids, checks, oldId);
      (r.Some? ==> exists k :: 0 <= k < |checks| && checks[k] == r.value && IdOf(ids, r.value) == oldId &&
                     forall j :: 0 <= j < k ==> IdOf(ids, checks[j]) != oldId) &&
      (r.None? ==> forall l :: l in checks ==> IdOf(ids, l) != oldId)
  {
    if checks != [] {
      FirstCarryingFacts(ids, checks[1..], oldId);
      if IdOf(ids, checks[0]) != oldId {
        var r := FirstCarrying(ids, checks, oldId);
        if r.Some? {
          var k :| 0 <= k < |checks[1..]| && checks[1..][k] == r.value && IdOf(ids, r.value) == oldId &&
                   forall j :: 0 <= j < k ==> IdOf(ids, checks[1..][j]) != oldId;
          assert checks[k + 1] == r.value;
          assert forall j :: 0 <= j < k + 1 ==> IdOf(ids, checks[j]) != oldId by {
            forall j | 0 <= j < k + 1 ensures IdOf(ids, checks[j]) != oldId {
              if j > 0 {
                assert checks[j] == checks[1..][j - 1];
              }
            }
          }
        } else {
          assert forall l :: l in checks ==> l == checks[0] || l in checks[1..];
        }
      }
    }
  }

  /** `CheckIdsOnRemoval(loc, player)`: forget loc's chain, set loc's id to 0,
      and re-flood every like-coloured neighbour still carrying the old id.
      `fuel` bounds the number of rounds of the outer loop and of each flood:
      the source's loops carry no bound of their own (a flood stops only
      when its queue empties), and running out is reported as
      `FuelExhausted`. */
  function Removed(st: State, grid: map<Loc, Color>, loc: Loc, player: Color, n: int, fuel: nat): (Outcome, State) {
    if !IsValid(loc, n) then (Throw(IndexOutOfRangeException), st)
    else
      var oldId := IdOf(st.ids, loc);
      var st1 := st.(chains := st.chains - {oldId}, ids := PutId(st.ids, loc, 0));
      RemovalRounds(st1, grid, Like(grid, Adjacent(loc, n), player), oldId, n, fuel)
  }

  /** The `while` loop of `CheckIdsOnRemoval`. */
  function RemovalRounds(st: State, grid: map<Loc, Color>, checks: seq<Loc>, oldId: I32, n: int, fuel: nat): (Outcome, State)
    decreases fuel
  {
    match FirstCarrying(st.ids, checks, oldId)
    case None => (Pass, st)
    case Some(next) =>
      if fuel == 0 then (Throw(FuelExhausted), st)
      else
        var (o, st2) := Flooded(FreshChain(st, next), grid, next, n, fuel);
        if o.Throw? then (o, st2) else RemovalRounds(st2, grid, checks, oldId, n, fuel - 1)
  }

  /** The start of one round of the removal loop: a fresh id from the
      counter labels `next` and gets a new, empty list. */
  function FreshChain(st: State, next: Loc): State {
    var id := Increment(st.next);
    State(PutId(st.ids, next, id), st.chains[id := []], id)
  }

  /** The locals of `PromulgateIdAfterDelete`: the current id, the queue, the
      chain's list (always the dictionary's entry for id) and the cells
      labelled so far (`chainLocations`). */
  datatype Flood = Flood(st: State, id: I32, queue: seq<Loc>, list: seq<Loc>, placed: seq<Loc>)

  /** `PromulgateIdAfterDelete(loc)`: breadth-first relabelling from loc. */
  function Flooded(st: State, grid: map<Loc, Color>, loc: Loc, n: int, fuel: nat): (Outcome, State) {
    var id := IdOf(st.ids, loc);
    if id !in st.chains then (Throw(KeyNotFoundException), st)
    else FloodRounds(Flood(st, id, [loc], st.chains[id], []), grid, ColorAt(grid, loc), n, fuel)
  }

  /** The `while (queue.Count != 0)` loop, at most `fuel` rounds. */
  function FloodRounds(f: Flood, grid: map<Loc, Color>, player: Color, n: int, fuel: nat): (Outcome, State)
    decreases fuel
  {
    if f.queue == [] then (Pass, f.st)
    else if fuel == 0 then (Throw(FuelExhausted), f.st)
    else FloodRounds(FloodStep(f, grid, player, n), grid, player, n, fuel - 1)
  }

  /** One round: dequeue a cell, append it to the chain's list, and visit
      its neighbours. */
  function FloodStep(f: Flood, grid: map<Loc, Color>, player: Color, n: int): Flood
    requires f.queue != []
  {
    var cur := f.queue[0];
    var list := f.list + [cur];
    var f1 := f.(st := f.st.(chains := f.st.chains[f.id := list]), queue := f.queue[1..], list := list);
    Spread(f1, grid, player, cur, n, 0)
  }

  /** The neighbour loop of one round: offsets i .. 5 of cur. The source's
      `Where` is lazy, so each neighbour is tested against the id and the
      grid as they are when it is reached. */
  function Spread(f: Flood, grid: map<Loc, Color>, player: Color, cur: Loc, n: int, i: nat): Flood
    requires i <= 6
    decreases 6 - i, cur
  {
    if i == 6 then f
    else Spread(Visit(f, grid, player, Add(cur, Offsets[i]), n), grid, player, cur, n, i + 1)
  }

  /** One neighbour: if it has the colour and another id, it is labelled,
      recorded and queued, after the "turns out to be connected" check. */
  function Visit(f: Flood, grid: map<Loc, Color>, player: Color, nb: Loc, n: int): Flood {
    if !(IsValid(nb, n) && ColorAt(grid, nb) == player && IdOf(f.st.ids, nb) != f.id) then f
    else
      var f1 := Upgrade(f, grid, nb, n);
      f1.(st := f1.st.(ids := PutId(f1.st.ids, nb, f1.id)), placed := f1.placed + [nb], queue := f1.queue + [nb])
  }

  /** `if (!IsEdgeChain(id) && NewOrEdgeId(neighbor, ...) != 0)`: for a
      non-negative id this calls `NewOrEdgeId`, which is non-zero unless the
      counter wraps to 0, so the branch re-keys the list under
      `id | NewOrEdgeId(...)` (a second call) and relabels the cells placed so
      far. */
  function Upgrade(f: Flood, grid: map<Loc, Color>, nb: Loc, n: int): Flood {
    if f.id < 0 then f
    else
      var (probe, st1) := Candidate(f.st, nb, ColorAt(grid, nb), n);
      if probe == 0 then f.(st := st1)
      else
        var (side, st2) := Candidate(st1.(chains := st1.chains - {f.id}), nb, ColorAt(grid, nb), n);
        var id := OrI32(f.id, side);
        f.(st := st2.(chains := st2.chains[id := f.list], ids := Relabelled(st2.ids, f.placed, id)), id := id)
  }

  /** When the removal loop ends normally, no like-coloured neighbour of
      the removed cell still carries the removed chain's id. */
  lemma {:induction false} RemovalRoundsEnd(st: State, grid: map<Loc, Color>, checks: seq<Loc>, oldId: I32, n: int, fuel: nat)
    requires RemovalRounds(st, grid, checks, oldId, n, fuel).0 == Pass
    ensures forall l :: l in checks ==> IdOf(RemovalRounds(st, grid, checks, oldId, n, fuel).1.ids, l) != oldId
    decreases fuel
  {
    match FirstCarrying(st.ids, checks, oldId)
    case None => FirstCarryingFacts(st.ids, checks, oldId);
    case Some(next) =>
      var (o, st2) := Flooded(FreshChain(st, next), grid, next, n, fuel);
      RemovalRoundsEnd(st2, grid, checks, oldId, n, fuel - 1);
  }

  lemma RemovedEnd(st: State, grid: map<Loc, Color>, loc: Loc, player: Color, n: int, fuel: nat)
    requires IsValid(loc, n) && Removed(st, grid, loc, player, n, fuel).0 == Pass
    ensures forall l :: l in Adjacent(loc, n) && ColorAt(grid, l) == player ==>
      IdOf(Removed(st, grid, loc, player, n, fuel).1.ids, l) != IdOf(st.ids, loc)
  {
    var oldId := IdOf(st.ids, loc);
    var st1 := st.(chains := st.chains - {oldId}, ids := PutId(st.ids, loc, 0));
    var checks := Like(grid, Adjacent(loc, n), player);
    LikeMembers(grid, Adjacent(loc, n), player);
    RemovalRoundsEnd(st1, grid, checks, oldId, n, fuel);
  }

  /** Every cell the flood has labelled has the flood's colour. */
  ghost predicate PlacedAll(f: Flood, grid: map<Loc, Color>, player: Color) {
    forall p :: p in f.placed ==> ColorAt(grid, p) == player
  }

  /** A cell of another colour keeps its id through one re-keying, which
      also leaves the queue, the list and the placed cells alone. */
  lemma UpgradeKeeps(f: Flood, grid: map<Loc, Color>, player: Color, nb: Loc, n: int, l: Loc)
    requires PlacedAll(f, grid, player) && ColorAt(grid, l) != player
    ensures var f1 := Upgrade(f, grid, nb, n);
      f1.queue == f.queue && f1.list == f.list && f1.placed == f.placed &&
      IdOf(f1.st.ids, l) == IdOf(f.st.ids, l)
  {
    if f.id >= 0 {
      var (probe, st1) := Candidate(f.st, nb, ColorAt(grid, nb), n);
      var (side, st2) := Candidate(st1.(chains := st1.chains - {f.id}), nb, ColorAt(grid, nb), n);
      RelabelledAt(st2.ids, f.placed, OrI32(f.id, side), l);
    }
  }

  lemma {:induction false} SpreadKeeps(f: Flood, grid: map<Loc, Color>, player: Color, cur: Loc, n: int, i: nat, l: Loc)
    requires i <= 6 && PlacedAll(f, grid, player) && ColorAt(grid, l) != player
    ensures var f1 := Spread(f, grid, player, cur, n, i);
      PlacedAll(f1, grid, player) && f1.list == f.list && IdOf(f1.st.ids, l) == IdOf(f.st.ids, l)
    decreases 6 - i
  {
    if i < 6 {
      var nb := Add(cur, Offsets[i]);
      UpgradeKeeps(f, grid, player, nb, n, l);
      SpreadKeeps(Visit(f, grid, player, nb, n), grid, player, cur, n, i + 1, l);
    }
  }

  lemma {:induction false} FloodRoundsKeeps(f: Flood, grid: map<Loc, Color>, player: Color, n: int, fuel: nat, l: Loc)
    requires PlacedAll(f, grid, player) && ColorAt(grid, l) != player
    ensures IdOf(FloodRounds(f, grid, player, n, fuel).1.ids, l) == IdOf(f.st.ids, l)
    decreases fuel
  {
    if f.queue != [] && fuel > 0 {
      var cur := f.queue[0];
      var list := f.list + [cur];
      var f1 := f.(st := f.st.(chains := f.st.chains[f.id := list]), queue := f.queue[1..], list := list);
      SpreadKeeps(f1, grid, player, cur, n, 0, l);
      FloodRoundsKeeps(FloodStep(f, grid, player, n), grid, player, n, fuel - 1, l);
    }
  }

  lemma {:induction false} RemovalRoundsKeeps(st: State, grid: map<Loc, Color>, checks: seq<Loc>, player: Color,
                                              oldId: I32, n: int, fuel: nat, l: Loc)
    requires forall c :: c in checks ==> ColorAt(grid, c) == player
    requires ColorAt(grid, l) != player
    ensures IdOf(RemovalRounds(st, grid, checks, oldId, n, fuel).1.ids, l) == IdOf(st.ids, l)
    decreases fuel
  {
    match FirstCarrying(st.ids, checks, oldId)
    case None =>
    case Some(next) =>
      if fuel > 0 {
        FirstCarryingFound(st.ids, checks, oldId);
        var st1 := FreshChain(st, next);
        FloodedKeeps(st1, grid, next, n, fuel, l);
        var (o, st2) := Flooded(st1, grid, next, n, fuel);
        RemovalRoundsKeeps(st2, grid, checks, player, oldId, n, fuel - 1, l);
      }
  }

  /** `PromulgateIdAfterDelete` keeps the id of every cell whose colour
      differs from that of its starting cell. */
  lemma FloodedKeeps(st: State, grid: map<Loc, Color>, loc: Loc, n: int, fuel: nat, l: Loc)
    requires ColorAt(grid, l) != ColorAt(grid, loc)
    ensures IdOf(Flooded(st, grid, loc, n, fuel).1.ids, l) == IdOf(st.ids, l)
  {
    var id := IdOf(st.ids, loc);
    if id in st.chains {
      FloodRoundsKeeps(Flood(st, id, [loc], st.chains[id], []), grid, ColorAt(grid, loc), n, fuel, l);
    }
  }

  /** Removal relabels only cells of the removed stone's colour: the
      removed cell, once cleared on the board, ends with id 0, and every
      cell of another colour keeps its id. */
  lemma RemovedKeeps(st: State, grid: map<Loc, Color>, loc: Loc, player: Color, n: int, fuel: nat, l: Loc)
    requires IsValid(loc, n) && loc in st.ids && ColorAt(grid, l) != player
    ensures IdOf(Removed(st, grid, loc, player, n, fuel).1.ids, l) == if l == loc then 0 else IdOf(st.ids, l)
  {
    var oldId := IdOf(st.ids, loc);
    var st1 := st.(chains := st.chains - {oldId}, ids := PutId(st.ids, loc, 0));
    LikeMembers(grid, Adjacent(loc, n), player);
    RemovalRoundsKeeps(st1, grid, Like(grid, Adjacent(loc, n), player), player, oldId, n, fuel, l);
  }

  // ----------------------------------------------------------------------
  // Counting chains

  /** The ids whose list starts with a stone of colour player. */
  function ChainsOf(chains: map<I32, seq<Loc>>, grid: map<Loc, Color>, player: Color): set<I32> {
    set id | id in chains && chains[id] != [] && ColorAt(grid, chains[id][0]) == player
  }

  /** `ChainCount(player)`: all entries for `Unoccupied`, else the entries
      whose first cell has the colour; with a colour given, an empty list
      makes `entry.Value[0]` throw. */
  function ChainCounted(chains: map<I32, seq<Loc>>, grid: map<Loc, Color>, player: Color): Result<nat> {
    if player == Unoccupied then Ok(|chains|)
    else if exists id :: id in chains && chains[id] == [] then Fail(ArgumentOutOfRangeException)
    else Ok(|ChainsOf(chains, grid, player)|)
  }

  /** Counting one colour never counts more entries than there are, and
      when every list starts with a stone, the Black and White counts
      add up to the total. */
  lemma ChainCountSplit(chains: map<I32, seq<Loc>>, grid: map<Loc, Color>)
    requires forall id :: id in chains ==> chains[id] != [] && ColorAt(grid, chains[id][0]) != Unoccupied
    ensures ChainCounted(chains, grid, Black).Ok? && ChainCounted(chains, grid, White).Ok?
    ensures ChainCounted(chains, grid, Black).value + ChainCounted(chains, grid, White).value
         == ChainCounted(chains, grid, Unoccupied).value
  {
    var b := ChainsOf(chains, grid, Black);
    var w := ChainsOf(chains, grid, White);
    assert !exists id :: id in chains && chains[id] == [];
    assert b + w == chains.Keys by {
      forall id | id in chains ensures id in b + w {
        assert ColorAt(grid, chains[id][0]) == Black || ColorAt(grid, chains[id][0]) == White;
      }
    }
    assert b * w == {};
    assert |b + w| + |b * w| == |b| + |w|;
  }

  lemma ChainCountBound(chains: map<I32, seq<Loc>>, grid: map<Loc, Color>, player: Color)
    requires ChainCounted(chains, grid, player).Ok?
    ensures ChainCounted(chains, grid, player).value <= |chains|
  {
    if player != Unoccupied {
      assert ChainsOf(chains, grid, player) <= chains.Keys;
      SubsetCard(ChainsOf(chains, grid, player), chains.Keys);
    }
  }

  lemma SubsetCard<T>(a: set<T>, b: set<T>)
    requires a <= b
    ensures |a| <= |b|
  {
    assert b == a + (b - a);
  }
}
