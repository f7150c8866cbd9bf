# Hex: chain analysis, edge templates and the board, in Dafny

This project models the game engine of darrellp/Hex, a C# program for the
board game Hex, and proves properties of that model. It covers the engine's
two generations.

**The library (`HexLibrary`).**
- **The board** (`Board`): its colours, the player to move, the winner and
  the undo log. It also answers adjacency and bridge queries.
- **The incremental chain analysis** (`Analysis`): a chain id for every
  stone and a dictionary from each id to the cells of its chain. Edge
  chains carry the sentinels -1 .. -4. A placement that joins two
  different edges wins, and removing a stone splits its chain again by
  breadth-first relabelling.
- **The edge-template scanner** (`CheckState` driven by
  `EdgeTemplateCheck.Check`). It walks one side of the board as a state
  machine over a queue of 10-bit template masks, and reports every edge
  template whose cells it finds.
- **The template catalog** (`EdgeTemplate`), and the older template
  representation with its direct `Fit` oracle (`EdgeTemplateOld`).
- **The undo record** `BoardChange`, the fixed-size `CircularQueue` and
  `GridLocation` with its hash code and its printed form.

**The first generation (`Hex`).** Its `Board` and its `Analysis`. The
analysis encodes a chain's edge in the high bits of a 32-bit id: the sign
bit, then a five-bit group holding a side bit.

Two files of the two generations are the same code. The four
`Adjacent`/`Offsets` copies are one function in `Geometry`. The two
`GridLocation` files differ only in the library's `Nowhere`, and are one
model. The two boards' `Player` (`Hex/Board.cs:107-110`,
`HexLibrary/Board.cs:102-105`) are also the same code; each board class
keeps its own copy, `Boards.Board.Player` and `LegacyBoards.Board.Player`,
because each reads its own class's fields.

**How the model is built.**
- Code that changes state step by step is a class with `modifies` clauses:
  - the two `Analysis` classes;
  - the two `Board` classes;
  - `CheckState`;
  - `CircularQueue`.
- Each method of those classes is proved equal to a function on an
  abstract value of its state. Those functions are in `ChainSpec`,
  `LegacySpec`, `ScanSpec` and the board modules. The lemmas about the
  game are proved about the functions.
- C# `int` arithmetic is modelled where it matters: the id counter's
  `++`, the hash code's `<< 5`, and the shifts and ORs of the first
  generation's ids. `Int32` holds wrap-around and OR on integers.
- Every array access that can fall outside its array is an explicit
  `IndexOutOfRangeException` outcome. Every `throw` is an explicit error
  outcome, as are `KeyNotFoundException` on a missing dictionary key and
  `OverflowException` on a negative array size.
- The files map to the program as follows.

| file | module | models |
|---|---|---|
| errors.dfy | Errors | exception kinds, `Result`, `Outcome`, `Option` |
| int32.dfy | Int32 | C# `int` wrap-around, `++`, `\|` |
| geometry.dfy | Geometry | `GridLocation`, colours, offsets, adjacency |
| chain_spec.dfy | ChainSpec | `HexLibrary/Analysis.cs` as functions |
| chain_analysis.dfy | ChainAnalysis | `HexLibrary/Analysis.cs` as a class |
| board.dfy | Boards | `HexLibrary/Board.cs` |
| board_change.dfy | BoardChanges | `HexLibrary/BoardChange.cs` |
| circular_queue.dfy | CircularQueues | `HexLibrary/CircularQueue.cs` |
| edge_templates.dfy | EdgeTemplates | the catalog, `LengthMasks`, `TmpsByLength`, column heights |
| scan_spec.dfy | ScanSpec | `CheckState` and `EdgeTemplateCheck.Check` as functions |
| check_state.dfy | CheckStates | `HexLibrary/CheckState.cs` as a class |
| edge_template_check.dfy | EdgeTemplateChecks | `EdgeTemplateCheck.Check`'s loop |
| scan_properties.dfy | ScanProperties | what the column height covers |
| template_fit.dfy | TemplateFits | `EdgeTemplateOld` and its `Fit` |
| legacy_ids.dfy | LegacyIds | the first generation's id bit layout |
| legacy_spec.dfy | LegacySpec | `Hex/Analysis.cs` as functions |
| legacy_analysis.dfy | LegacyAnalysis | `Hex/Analysis.cs` as a class |
| legacy_board.dfy | LegacyBoards | `Hex/Board.cs` |
| chain_scenario.dfy | ChainScenarios | the library chain tests in `HexTest/ChainTest.cs`, step by step |

## Model

| member | source | states |
|---|---|---|
| Geometry.Other | HexLibrary/Board.cs:107-110 | the player who moves next is a real colour, and differs from any stone colour it is computed from |
| Geometry.OtherTwice | HexLibrary/Board.cs:107-110 | handing the move over twice gives it back to the same colour |
| Geometry.AddSubInverse | HexLibrary/GridLocation.cs:25-33 | `-` undoes `+` and `+` undoes `-`, and `+` is commutative |
| Geometry.NowhereIsNowhere | HexLibrary/GridLocation.cs:7-38 | `Nowhere()` is nowhere, no cell is on a board of size 0, and a nowhere location is never a cell of any board |
| Geometry.Hash | HexLibrary/GridLocation.cs:49-52 | `GetHashCode` always yields a 32-bit `int` |
| Geometry.ShiftLeft5 | HexLibrary/GridLocation.cs:49-52 | `Column << 5` is a 32-bit `int` congruent to 32 x Column modulo 2^32 |
| Geometry.ShiftLeft5Small | Hex/GridLocation.cs:46-49 | for columns below 2^27, `<< 5` is 32 x Column, less 2^32 once the product passes `int.MaxValue` |
| Geometry.HashInjective | HexLibrary/GridLocation.cs:40-52 | two locations with row below 32 and column below 2^27 that hash alike are equal, as the remarks promise |
| Geometry.HashCollision | HexLibrary/GridLocation.cs:40-52 | outside that range the promise fails: (0, 0) and (0, 2^27) are different locations with the same hash |
| Geometry.Digits | HexLibrary/GridLocation.cs:20-23 | the printed column is a non-empty run of decimal digits with no leading zero |
| Geometry.ToString | HexLibrary/GridLocation.cs:20-23 | the text is at least two characters, and its first is `'A' + Row` cut to 16 bits by the `(char)` cast |
| Geometry.ParseDigitsOfDigits | HexLibrary/GridLocation.cs:20-23 | reading the printed digits back gives the number printed |
| Geometry.ParseLoc | HexLibrary/GridLocation.cs:20-23 | the reader that inverts `ToString` never yields a negative column |
| Geometry.ToStringRoundTrip | HexLibrary/GridLocation.cs:20-23 | reading `ToString()` back gives the location, for every row whose letter fits in a `char` and every column below `int.MaxValue` |
| Geometry.ToStringInjective | Hex/GridLocation.cs:17-20 | in that range, two locations that print alike are equal |
| Geometry.IsAdjacentToSymmetric | HexLibrary/Board.cs:189-192 | a is adjacent to b exactly when b is adjacent to a |
| Geometry.NotAdjacentToSelf | HexLibrary/Board.cs:189-192 | no cell is adjacent to itself |
| Geometry.Adjacent | HexLibrary/Board.cs:135-145 | `Adjacent(loc)` yields at most six cells |
| Geometry.AdjacentFrom | HexLibrary/Board.cs:135-145 | the offsets from the i-th on yield at most 6 - i cells |
| Geometry.AdjacentMembers | HexLibrary/Analysis.cs:89-99 | a cell is yielded exactly when it is on the board and adjacent to loc |
| Geometry.AdjacentFromMembers | HexLibrary/Board.cs:135-145 | from offset i on, a cell is yielded exactly when it is on the board and lies at one of the offsets i .. 5 |
| Geometry.AdjacentDistinct | Hex/Analysis.cs:70-80 | `Adjacent` never yields a cell twice |
| Geometry.AdjacentFromDistinct | Hex/Board.cs:127-137 | nor does any tail of its loop |
| Geometry.AdjacentOfCorners | HexLibrary/Board.cs:112-145 | on an 11 x 11 board the corner (0, 0) has exactly the neighbours (1, 0) and (0, 1), and (10, 10) exactly (9, 10) and (10, 9), in the offsets' order |
| Int32.Increment | HexLibrary/Analysis.cs:116-119 | `++` adds one, and wraps `int.MaxValue` to `int.MinValue` |
| Int32.Wrap | HexLibrary/GridLocation.cs:49-52 | reduction to `int` gives a value in range, congruent modulo 2^32, and leaves values in range unchanged |
| Int32.Unsigned | Hex/Analysis.cs:137-140 | the two's-complement pattern of an `int` is below 2^32 |
| Int32.Signed | Hex/Analysis.cs:137-140 | reading a 32-bit pattern as an `int` gives a value in range whose pattern is the one read |
| Int32.Pow2 | Hex/Analysis.cs:137-140 | `1 << k` before wrapping is at least 1 |
| Int32.Or | HexLibrary/Analysis.cs:306 | `a \| b` on two `int`s is an `int` |
| Int32.OrNonNegative | Hex/Analysis.cs:391 | the OR of two non-negative `int`s is at least each of them |
| Int32.OrNegative | HexLibrary/Analysis.cs:302-307 | OR with a negative value is negative, so `id \|= sentinel` always makes an edge chain |
| Int32.OrMinusOne | HexLibrary/Analysis.cs:302-307 | OR with -1 is -1 |
| ChainSpec.ZeroIds | HexLibrary/Analysis.cs:21-25 | a fresh id grid covers exactly the board, and every id in it is 0 |
| ChainSpec.CandidateFacts | HexLibrary/Analysis.cs:138-165 | `NewOrEdgeId` always advances the counter and changes nothing else; it returns the sentinel -1 .. -4 on the colour's own edge, the new counter value elsewhere, and 0 only when the counter wraps to 0 off the edges |
| ChainSpec.EdgeIdCorners | HexLibrary/Analysis.cs:142-163 | at the four corners of an 11 x 11 board, Black gets the sentinels of columns 0 and 10 (-1, -3) and White those of rows 0 and 10 (-4, -2) |
| ChainSpec.Like | HexLibrary/Analysis.cs:184 | the like-coloured neighbours are at most the neighbours |
| ChainSpec.LikeMembers | HexLibrary/Analysis.cs:184 | a cell is a connection exactly when it is a neighbour of the player's colour |
| ChainSpec.IdsAt | HexLibrary/Analysis.cs:185 | the ids are read one per connection, in order |
| ChainSpec.RelabelledAt | HexLibrary/Analysis.cs:249-253 | relabelling a list of cells changes the id of exactly the listed cells of the board, to the new id |
| ChainSpec.RelabelledAppend | HexLibrary/Analysis.cs:249-255 | relabelling a + b is relabelling a and then b |
| ChainSpec.SeqMin | HexLibrary/Analysis.cs:196-214 | `minId` is one of the candidate and neighbour ids, and no larger than any of them |
| ChainSpec.SeqMinPrefersEdge | HexLibrary/Analysis.cs:187-191 | without two different negative ids, the minimum is the one negative id present, so edge ids are promulgated first |
| ChainSpec.PlacedUnoccupied | HexLibrary/Analysis.cs:177-180 | checking chain ids for an unoccupied colour throws `ArgumentException` and changes nothing |
| ChainSpec.PlacedWinKeeps | HexLibrary/Analysis.cs:198-207 | a winning placement returns before labelling, having changed only the counter |
| ChainSpec.PlacedLabel | HexLibrary/Analysis.cs:195-216 | with at most one edge among the ids, the placement does not win, and the stone's new id is the negative id found |
| ChainSpec.PromulgatedKeepsLoc | HexLibrary/Analysis.cs:228-259 | promulgation never changes the id of the cell it starts from |
| ChainSpec.AbsorbedKeepsId | HexLibrary/Analysis.cs:246-258 | a cell of the absorbing chain keeps its id through every absorption |
| ChainSpec.EliminatedMembers | HexLibrary/Analysis.cs:234-237 | the eliminated ids are exactly the ids other than loc's carried by like-coloured neighbours |
| ChainSpec.EliminatedDistinct | HexLibrary/Analysis.cs:234-237 | the eliminated ids form a set (no repeats) that does not hold loc's own id |
| ChainSpec.AbsorbedEffect | HexLibrary/Analysis.cs:246-258 | absorption succeeds exactly when every eliminated id has a list. It then relabels every cell of those lists with the absorbing id, appends the lists to its chain, and drops their keys |
| ChainSpec.AbsorbedEffectCombine | HexLibrary/Analysis.cs:246-258 | one absorption followed by the rest has the combined effect that AbsorbedEffect states |
| ChainSpec.ChainsCombine | HexLibrary/Analysis.cs:255-257 | moving one list into the chain and dropping its key, then the rest, leaves the same dictionary as moving them all at once |
| ChainSpec.MembersUnchanged | HexLibrary/Analysis.cs:249-255 | the cells gathered from lists are the same in two dictionaries that agree on those lists |
| ChainSpec.FirstCarryingFound | HexLibrary/Analysis.cs:270-272 | the location the removal loop picks is one of the checks and still carries the old id |
| ChainSpec.FirstCarryingFacts | HexLibrary/Analysis.cs:270-272 | the loop picks the first check still carrying the old id, and stops when none does |
| ChainSpec.RemovalRoundsEnd | HexLibrary/Analysis.cs:269-277 | when the loop ends normally, no check carries the old id |
| ChainSpec.RemovedEnd | HexLibrary/Analysis.cs:261-278 | after a removal that ends normally, no like-coloured neighbour of the removed cell still carries the removed chain's id |
| ChainSpec.UpgradeKeeps | HexLibrary/Analysis.cs:302-312 | re-keying the chain to an edge id leaves the queue, the list, the placed cells and every other colour's ids alone |
| ChainSpec.SpreadKeeps | HexLibrary/Analysis.cs:296-317 | visiting the neighbours labels only the player's stones and keeps the list |
| ChainSpec.FloodRoundsKeeps | HexLibrary/Analysis.cs:289-318 | the flood never changes the id of a cell of another colour |
| ChainSpec.RemovalRoundsKeeps | HexLibrary/Analysis.cs:269-277 | neither does the removal loop |
| ChainSpec.FloodedKeeps | HexLibrary/Analysis.cs:280-319 | `PromulgateIdAfterDelete` changes only ids of the colour it starts from |
| ChainSpec.RemovedKeeps | HexLibrary/Analysis.cs:261-278 | a removal sets the removed cell to 0 and leaves every other cell of another colour as it was |
| ChainSpec.ChainCountSplit | HexLibrary/Analysis.cs:53-58 | when every list starts with a stone, the Black and White counts succeed and add up to the total count |
| ChainSpec.ChainCountBound | HexLibrary/Analysis.cs:53-58 | a colour's count never exceeds the number of chains |
| ChainAnalysis.ListsOnBoardUpdate | HexLibrary/Analysis.cs:239-257 | storing a list of board cells or dropping a key keeps every stored list on the board |
| ChainAnalysis.FloodRoundsStep | HexLibrary/Analysis.cs:289-318 | one turn of the flood loop is one dequeue-and-visit round |
| ChainAnalysis.RemovalRoundsStep | HexLibrary/Analysis.cs:270-277 | one turn of the removal loop labels a fresh chain and floods it; a throw ends the loop |
| ChainAnalysis.ChainsOfStep | HexLibrary/Analysis.cs:57 | counting one more dictionary entry adds one exactly when its first cell has the colour |
| ChainAnalysis.PromulgatedStart | HexLibrary/Analysis.cs:228-259 | promulgation appends loc to its own list and then absorbs a repeat-free set of ids that excludes its own |
| ChainAnalysis.AbsorbedStep | HexLibrary/Analysis.cs:246-258 | absorbing the first eliminated id throws `KeyNotFoundException` when it has no list, and otherwise relabels its cells, moves its list and drops its key |
| ChainAnalysis.LikeStep | HexLibrary/Analysis.cs:184 | one turn of the neighbour filter appends the cell at the i-th offset exactly when it is on the board and of the colour |
| ChainAnalysis.AdjacentFromStep | HexLibrary/Analysis.cs:89-99 | one turn of `Adjacent`'s loop yields the cell at the i-th offset exactly when it is on the board |
| ChainAnalysis.LikeCons | HexLibrary/Analysis.cs:184 | the filter keeps a leading cell exactly when it has the colour |
| ChainAnalysis.ScanIds | HexLibrary/Analysis.cs:195-214 | the loop reports a win exactly when two different negative ids occur among the candidate and the neighbours, and otherwise returns their minimum |
| ChainAnalysis.CountColour | HexLibrary/Analysis.cs:57 | the counting loop gives the number of chains whose first cell has the colour, or the exception an empty list raises |
| ChainAnalysis.LikeNeighbours | HexLibrary/Analysis.cs:184 | the loop collects exactly the like-coloured neighbours, in offset order, all on the board |
| ChainAnalysis.LikeAt | HexLibrary/Analysis.cs:184 | one offset's step of that loop keeps its invariant |
| ChainAnalysis.Analysis.constructor | HexLibrary/Analysis.cs:21-25 | a new analysis has every id 0, no chains and the counter at 1 |
| ChainAnalysis.Analysis.Clear | HexLibrary/Analysis.cs:36-41 | clearing gives a fresh grid of zeros, no chains and the counter at 0 |
| ChainAnalysis.Analysis.ChainLocations | HexLibrary/Analysis.cs:62-65 | a chain's list is returned when the id is a key; otherwise the lookup fails with `KeyNotFoundException` |
| ChainAnalysis.Analysis.IdAt | HexLibrary/Analysis.cs:67-70 | the id of a cell on the board, and `IndexOutOfRangeException` off it |
| ChainAnalysis.Analysis.NextId | HexLibrary/Analysis.cs:116-119 | the counter is incremented first and the new value returned |
| ChainAnalysis.Analysis.SetChainId | HexLibrary/Analysis.cs:132-136 | exactly the one cell's id changes |
| ChainAnalysis.Analysis.NewOrEdgeId | HexLibrary/Analysis.cs:138-165 | the method returns the id and leaves the state CandidateFacts describes |
| ChainAnalysis.Analysis.IdsOf | HexLibrary/Analysis.cs:185 | the ids are read from the grid, one per connection |
| ChainAnalysis.Analysis.Relabel | HexLibrary/Analysis.cs:249-253 | the listed cells are relabelled as RelabelledAt describes |
| ChainAnalysis.Analysis.ScanPlacement | HexLibrary/Analysis.cs:183-214 | the candidate, connections and id scan of a placement, with the win test and minimum of ScanIds |
| ChainAnalysis.Analysis.CheckChainIds | HexLibrary/Analysis.cs:175-217 | the placement leaves exactly the outcome and state of the placement function, whose properties are the `Placed` lemmas above |
| ChainAnalysis.Analysis.EliminatedIds | HexLibrary/Analysis.cs:234-237 | the loop gathers exactly the eliminated ids of EliminatedMembers, without repeats |
| ChainAnalysis.Analysis.AbsorbChain | HexLibrary/Analysis.cs:249-257 | one absorption relabels the eliminated chain's cells, appends its list to the chain and drops its key |
| ChainAnalysis.Analysis.AbsorbAll | HexLibrary/Analysis.cs:246-258 | the absorption loop has the effect AbsorbedEffect states |
| ChainAnalysis.Analysis.AppendToOwnChain | HexLibrary/Analysis.cs:239-243 | loc is appended to its chain's list, which is created empty when missing |
| ChainAnalysis.Analysis.PromulgateId | HexLibrary/Analysis.cs:228-259 | promulgation leaves the state of the promulgation function |
| ChainAnalysis.Analysis.NextCarrying | HexLibrary/Analysis.cs:270-272 | the search returns the first check still carrying the old id (FirstCarryingFacts) |
| ChainAnalysis.Analysis.ReKey | HexLibrary/Analysis.cs:302-312 | the connected-after-all check, with its two `NewOrEdgeId` calls, re-keys the list and relabels the cells placed so far |
| ChainAnalysis.Analysis.MoveChain | HexLibrary/Analysis.cs:305-311 | the new key is `id \| sentinel`; the list moves to it, the placed cells take it, and the old key is gone |
| ChainAnalysis.Analysis.VisitNeighbour | HexLibrary/Analysis.cs:298-316 | one neighbour of the flood is tested, re-keyed if needed, labelled and queued |
| ChainAnalysis.Analysis.SpreadFrom | HexLibrary/Analysis.cs:296-317 | all six neighbours of the dequeued cell are visited in offset order |
| ChainAnalysis.Analysis.PromulgateIdAfterDelete | HexLibrary/Analysis.cs:280-319 | the flood leaves the outcome and state of the flood function; a missing list throws `KeyNotFoundException` |
| ChainAnalysis.Analysis.FloodLoop | HexLibrary/Analysis.cs:289-318 | the `while (queue.Count != 0)` loop runs the flood rounds |
| ChainAnalysis.Analysis.FloodRound | HexLibrary/Analysis.cs:292-317 | one round dequeues a cell, appends it to the chain's list and visits its neighbours |
| ChainAnalysis.Analysis.CheckIdsOnRemoval | HexLibrary/Analysis.cs:261-278 | the removal leaves the outcome and state of the removal function, of which RemovedEnd and RemovedKeeps hold |
| ChainAnalysis.Analysis.RemovalLoop | HexLibrary/Analysis.cs:269-277 | the `while` loop over the checks runs the removal rounds |
| ChainAnalysis.Analysis.StartFlood | HexLibrary/Analysis.cs:272-276 | a round labels the picked cell with a fresh id, gives that id an empty list, and floods from the cell |
| ChainAnalysis.Analysis.ChainCount | HexLibrary/Analysis.cs:53-58 | all chains for `Unoccupied`, the default colour; the chains whose first cell has the colour otherwise; an empty list throws |
| Boards.EmptyGrid | HexLibrary/Board.cs:39 | a new colour grid covers exactly the board, and every cell is unoccupied |
| Boards.WellFormedKept | HexLibrary/Board.cs:31-110 | new and cleared boards are well formed (colours cover exactly the board, the log holds board cells), and placing, clicking and undoing keep them so |
| Boards.PlacedWellFormed | HexLibrary/Board.cs:77-92 | placing a stone keeps a board well formed |
| Boards.UndoneWellFormed | HexLibrary/Board.cs:55-68 | undoing keeps a board well formed |
| Boards.PlaceRejected | HexLibrary/Board.cs:79-88 | once there is a winner, or on an occupied cell, placing does nothing |
| Boards.PlaceAccepted | HexLibrary/Board.cs:77-92 | otherwise exactly loc takes the colour and the analysis runs. On success the cell is logged and a win makes the player to move the winner. On a throw the log and the winner stay unchanged |
| Boards.ClickToggles | HexLibrary/Board.cs:94-98 | a click always hands the move over, even when the stone is refused (a game already won) |
| Boards.UndoEmpty | HexLibrary/Board.cs:57-60 | with an empty log, `Undo` returns `Nowhere` and changes nothing |
| Boards.ClickThenUndo | HexLibrary/Board.cs:55-98 | a click that places a stone, followed by `Undo`, restores the colours, the log and the player to move, and returns the clicked cell |
| Boards.UndoRestores | HexLibrary/Board.cs:55-68 | undoing the last logged stone restores the colours, the log and the player before it, whatever the analysis does |
| Boards.ClickAccepted | HexLibrary/Board.cs:94-98 | an accepted click colours exactly the cell with the player's colour, logs it and hands the move over |
| Boards.UndoneShape | HexLibrary/Board.cs:61-67 | `Undo` clears the last logged cell, shortens the log by one and hands the move back; on success it clears the winner and returns that cell |
| Boards.BridgeGeometry | HexLibrary/Board.cs:123-132 | every bridge offset's two support cells are adjacent to both ends and to each other, and the bridged cell is neither the start nor adjacent to it |
| Boards.SupportsOnBoard | HexLibrary/Board.cs:168-187 | when both ends of a bridge are on the board, so are its supports |
| Boards.BridgedToMembers | HexLibrary/Board.cs:147-166 | `BridgedTo` lists nothing for an empty or off-board cell, and otherwise exactly the bridge targets whose bridge check passes |
| Boards.BridgedFromMembers | HexLibrary/Board.cs:147-166 | from the k-th bridge offset on, exactly the targets whose check passes are listed |
| Boards.Board.constructor | HexLibrary/Board.cs:31-42 | a new board, 11 by 11 by default, is empty, White moves, there is no winner and no log, and the analysis is fresh |
| Boards.Board.Create | HexLibrary/Board.cs:31-42 | construction (size 11 by default) succeeds exactly for sizes 0 .. 26. A size above 26 throws `ArgumentException`, and a negative size makes the array allocation throw `OverflowException` |
| Boards.Board.Clear | HexLibrary/Board.cs:47-53 | the grid, the player, the winner and the analysis are reset and the log is kept |
| Boards.Board.SetWinner | HexLibrary/Board.cs:70-73 | the winner becomes the given colour |
| Boards.Board.ChangePlayer | HexLibrary/Board.cs:107-110 | the player to move is handed over |
| Boards.Board.Player | HexLibrary/Board.cs:102-105 | the colour of a cell on the board, and `IndexOutOfRangeException` off it |
| Boards.Board.PlaceStone | HexLibrary/Board.cs:77-92 | the method leaves exactly the board the placement function describes (PlaceRejected, PlaceAccepted) |
| Boards.Board.PutStone | HexLibrary/Board.cs:89-91 | the accepted branch of `PlaceStone` |
| Boards.Board.SetCell | HexLibrary/Board.cs:89 | exactly one cell's colour changes |
| Boards.Board.Record | HexLibrary/Board.cs:90-91 | after the analysis, a success logs the cell and a win sets the winner; a throw passes through |
| Boards.Board.Clicked | HexLibrary/Board.cs:94-98 | the method leaves exactly the board the click function describes (ClickToggles, ClickAccepted) |
| Boards.Board.Undo | HexLibrary/Board.cs:55-68 | the method leaves exactly the board the undo function describes (UndoEmpty, UndoneShape, UndoRestores) |
| Boards.Board.TakeBack | HexLibrary/Board.cs:61-64 | the last logged cell leaves the log and the grid, and the move is handed over |
| BoardChanges.NullChange | HexLibrary/BoardChange.cs:19-23 | the null change is null, at `Nowhere`, not a placement, with both colours `Unoccupied` |
| BoardChanges.MakeChange | HexLibrary/BoardChange.cs:25-35 | the record holds exactly the given location, old player, kind and stone colour |
| BoardChanges.MakeChangeDefaults | HexLibrary/BoardChange.cs:25-35 | a record built for a board cell is not null, and by default is a placement with no stone colour |
| BoardChanges.UndoCalls | HexLibrary/BoardChange.cs:37-49 | undo removes the stone of a placement or puts back the stone of a removal, and then restores the player to move |
| BoardChanges.UndoPlacement | HexLibrary/BoardChange.cs:37-49 | undoing the record of a placement restores the cells and the player from before it |
| BoardChanges.UndoRemoval | HexLibrary/BoardChange.cs:37-49 | undoing the record of a removal restores the cells and the player from before it |
| CircularQueues.Create | HexLibrary/CircularQueue.cs:17-21 | construction fails with `OverflowException` exactly when `1 << sizeLog` is negative; otherwise the queue is empty with capacity `1 << sizeLog` |
| CircularQueues.CircularQueue.constructor | HexLibrary/CircularQueue.cs:17-21 | a new queue is empty with capacity 2^(sizeLog mod 32) |
| CircularQueues.CircularQueue.Length | HexLibrary/CircularQueue.cs:13 | `Length` is the number of queued elements |
| CircularQueues.CircularQueue.Queue | HexLibrary/CircularQueue.cs:23-32 | a full queue throws `IndexOutOfRangeException` and is unchanged; otherwise the value is appended at the back |
| CircularQueues.CircularQueue.Dequeue | HexLibrary/CircularQueue.cs:34-40 | the front element is returned and removed |
| CircularQueues.CircularQueue.Clear | HexLibrary/CircularQueue.cs:42-45 | the queue becomes empty and keeps its start slot |
| CircularQueues.CircularQueue.Get | HexLibrary/CircularQueue.cs:49-57 | an index at or past `Length` throws; an index in range gives that element. The index is masked, so a negative index reads the element at index mod capacity when that is queued, and in any case the slot `(start + index) & mask` |
| CircularQueues.CircularQueue.Set | HexLibrary/CircularQueue.cs:58-66 | an index at or past `Length` throws and changes nothing. Otherwise the element at index mod capacity is replaced when it is queued, and the contents are untouched when it is not |
| CircularQueues.CircularQueue.Elements | HexLibrary/CircularQueue.cs:69-75 | enumeration yields exactly the queued elements, front first |
| CircularQueues.SlotAdvance | HexLibrary/CircularQueue.cs:37 | advancing the start slot by one shifts every element's slot by one |
| CircularQueues.SlotOfAnyIndex | HexLibrary/CircularQueue.cs:56 | the masked slot of an index depends only on the index mod capacity |
| CircularQueues.SlotsDistinct | HexLibrary/CircularQueue.cs:29 | distinct positions below the capacity occupy distinct slots, so no element overwrites another |
| CircularQueues.QueueingScenario | HexTest/CircularQueueTest.cs:21-43 | a queue of capacity 16 takes 0 .. 15 with lengths 1 .. 16, refuses a seventeenth element with `IndexOutOfRangeException`, then dequeues 0 .. 7 while staying full, and ends holding 8 .. 23 |
| EdgeTemplates.Template | HexLibrary/EdgeTemplate.cs:85-95 | a template holds its column heights and connecting column, and has no don't-care cell unless one is given |
| EdgeTemplates.CatalogShape | HexLibrary/EdgeTemplate.cs:28-82 | there are ten templates; each ends in a column of height 1, has its connecting column inside it, and every column height is 1 .. 5 |
| EdgeTemplates.CatalogLengthsAndDepths | HexLibrary/EdgeTemplate.cs:28-82 | the lengths of I .. Vb are 1, 2, 4, 4, 5, 7, 7, 8, 10, 10, and the connecting stones lie at depths 0, 1, 2, 2, 2, 3, 3, 3, 4, 4 |
| EdgeTemplates.CatalogDontCares | HexLibrary/EdgeTemplate.cs:28-82 | only IIIc (cell (0, 2)) and IVc (cell (1, 3)) have a don't-care cell |
| EdgeTemplates.LengthMasksAgree | HexLibrary/CheckState.cs:98-111 | template t's bit is set in `LengthMasks[len - 1]` exactly when t has length len |
| EdgeTemplates.LengthMembers | HexLibrary/CheckState.cs:98-111 | the templates of `LengthMasks[len - 1]` are exactly those of length len |
| EdgeTemplates.BuildTmpsByLength | HexLibrary/CheckState.cs:116-126 | the static constructor's loop fills the array with the table `TmpsByLength` |
| EdgeTemplates.TmpsByLengthMembers | HexLibrary/CheckState.cs:113-126 | template t is in `TmpsByLength[i]` exactly when its length is 2 .. i + 1 |
| EdgeTemplates.TmpsMembers | HexLibrary/CheckState.cs:113-126 | the same, as a set of templates |
| EdgeTemplates.TmpsByLengthShape | HexLibrary/CheckState.cs:113-126 | the entries grow with i, never hold template I, and the last is `0x3fe`, the scanner's starting mask |
| EdgeTemplates.TmpsLast | HexLibrary/CheckState.cs:169 | the last entry is `0x3fe` |
| EdgeTemplates.TmpsMonotone | HexLibrary/CheckState.cs:121-125 | each entry holds all templates of the entries before it |
| EdgeTemplates.TmpsNoSingleton | HexLibrary/CheckState.cs:121-125 | no entry holds template I |
| EdgeTemplates.IndexFromMask | HexLibrary/CheckState.cs:301-317 | a one-template mask gives that template's index; any other mask throws `ArgumentException` |
| EdgeTemplates.IndicesFrom | HexLibrary/CheckState.cs:319-333 | from template i on, the indices are exactly the mask's templates, in increasing order |
| EdgeTemplates.IndicesFromMask | HexLibrary/CheckState.cs:319-333 | the indices are exactly the templates whose bit is set, in increasing order |
| EdgeTemplates.RaiseTo | HexLibrary/CheckState.cs:352-363 | folding a template into the height list extends it to the template's length and raises every column to at least the template's height |
| EdgeTemplates.Heights | HexLibrary/EdgeTemplate.cs:28-82 | a template's height list has its length and heights 1 .. 5 |
| EdgeTemplates.HeightList | HexLibrary/CheckState.cs:344-369 | the height list of a mask has heights 0 .. 5 |
| EdgeTemplates.HeightsOf | HexLibrary/CheckState.cs:349-364 | folding templates keeps heights in 0 .. 5 |
| EdgeTemplates.HeightsOfKeeps | HexLibrary/CheckState.cs:349-364 | folding never lowers a column |
| EdgeTemplates.HeightsOfHead | HexLibrary/CheckState.cs:349-364 | after folding, each column is at least the first template's height there |
| EdgeTemplates.HeightsOfBound | HexLibrary/CheckState.cs:349-364 | after folding, each column is at least every folded template's height there |
| EdgeTemplates.HeightsOfAttained | HexLibrary/CheckState.cs:349-364 | each column's height is its starting value or some folded template's height there |
| EdgeTemplates.HeightAt | HexLibrary/CheckState.cs:373 | a template's height at any column is 0 .. 5 (0 past its end) |
| EdgeTemplates.HeightListIsMax | HexLibrary/CheckState.cs:344-376 | entry j of a mask's height list is the greatest height at column j of the mask's templates |
| EdgeTemplates.SlotHeight | HexLibrary/CheckState.cs:371-376 | the height a slot contributes is 0 .. 5 |
| EdgeTemplates.TallestFrom | HexLibrary/CheckState.cs:349-364 | the tallest of templates i .. 9 at a column is 0 .. 5 |
| EdgeTemplates.TallestFromIsMax | HexLibrary/CheckState.cs:349-364 | that is the maximum over those templates, and attained unless 0 |
| EdgeTemplates.SlotHeightIsMax | HexLibrary/CheckState.cs:371-376 | a slot's height at a column is the maximum of its templates' heights there, and attained unless 0 |
| EdgeTemplates.HeightListGivesSlotHeight | HexLibrary/CheckState.cs:344-376 | reading the memoised height list gives the same height as the direct maximum |
| ScanSpec.Owner | HexLibrary/EdgeTemplateCheck.cs:24 | sides 0 and 2 belong to Black, sides 1 and 3 to White |
| ScanSpec.Initial | HexLibrary/CheckState.cs:163-171 | a new scan starts at column 0, row 0, with a slot per column holding every template but I |
| ScanSpec.AllButIMembers | HexLibrary/CheckState.cs:169 | the mask `0x3fe` holds exactly templates II .. Vb |
| ScanSpec.PositionOnSide | HexLibrary/CheckState.cs:159 | on each side, the current cell is at the column along the edge and the row into the board, in that side's frame |
| ScanSpec.Slot | HexLibrary/CheckState.cs:185 | reading a mask slot succeeds exactly inside the array |
| ScanSpec.Store | HexLibrary/CheckState.cs:185 | writing a mask slot succeeds exactly inside the array and changes only that slot |
| ScanSpec.AllowOnly | HexLibrary/CheckState.cs:181-187 | when the slot is reachable, exactly the slot `pCol + tCol + relIndex` is narrowed to the mask; it throws when that slot is past the array |
| ScanSpec.Eliminate | HexLibrary/CheckState.cs:189-197 | likewise, the mask's templates are removed from exactly that slot |
| ScanSpec.AdvanceColumn | HexLibrary/CheckState.cs:199-203 | the scan moves to the top of the next column |
| ScanSpec.AdvanceQueue | HexLibrary/CheckState.cs:209-214 | the queue moves up by one slot without moving the current cell |
| ScanSpec.CheckMask | HexLibrary/CheckState.cs:221-227 | the queue skips exactly the empty slots before the first live one (or up to the current column), without moving the current cell |
| ScanSpec.AdvanceTo | HexLibrary/CheckState.cs:237-249 | the queue moves up until the current column is at most -relIndex ahead, without moving the current cell |
| ScanSpec.ConnectingStone | HexLibrary/CheckState.cs:267-295 | the `switch` only removes templates, and any row outside 0 .. 4 throws `InvalidOperationException` |
| ScanSpec.EliminateConnectingStone | HexLibrary/CheckState.cs:260-299 | the step only removes templates and leaves the queue at a live slot; an invalid row throws |
| ScanSpec.ConnectingStoneRemoves | HexLibrary/CheckState.cs:267-295 | the `switch` removes template t from slot j exactly when t, laid from j, has its connecting stone at the current cell's depth |
| ScanSpec.ConnectsNowhere | HexLibrary/CheckState.cs:269-270 | no template has its connecting stone at row 0 of a later column |
| ScanSpec.ConnectsAt1 | HexLibrary/CheckState.cs:272-274 | at row 1, only II from the current column |
| ScanSpec.ConnectsAt2 | HexLibrary/CheckState.cs:276-280 | at row 2, IIIa from the current column and IIIb, IIIc from the one before |
| ScanSpec.ConnectsAt3 | HexLibrary/CheckState.cs:282-286 | at row 3, IVa from one back and IVb, IVc from two back |
| ScanSpec.ConnectsAt4 | HexLibrary/CheckState.cs:288-291 | at row 4, Va from two back and Vb from three back |
| ScanSpec.LiveHeights | HexLibrary/CheckState.cs:338-377 | the loop's candidate heights are one per live slot, each that slot's height at its column |
| ScanSpec.ColumnHeight | HexLibrary/CheckState.cs:335-380 | the height is 0 .. 5, or `IndexOutOfRangeException` when a slot is past the array |
| ScanSpec.ColumnHeightIsMax | HexLibrary/CheckState.cs:335-380 | the column height is the greatest height any live template reaches in the current column, and is attained unless 0 |
| ScanSpec.HitLocationShifted | HexLibrary/CheckState.cs:411-412 | the reported location plus the side's `sideStart` is the cell of the template's connecting stone; on sides 1 and 2, which do not start at (0, 0), the two differ |
| ScanSpec.StoneOf | HexLibrary/CheckState.cs:411-412 | the connecting stone lies in the template's connecting column, at the depth of that column's height less one |
| ScanSpec.EdgeHit | HexLibrary/CheckState.cs:386-424 | the row-0 step only removes templates and reports at most one connection; its failures are the two exceptions of the block |
| ScanSpec.Report | HexLibrary/CheckState.cs:409-421 | a found template is appended with its connection cell and removed from its slot, and nothing else is reported |
| ScanSpec.EdgeHitCases | HexLibrary/CheckState.cs:391-423 | no template ending here reports nothing; two or more throw `InvalidOperationException`; exactly one is reported at its connection cell |
| ScanSpec.EdgeHitReports | HexLibrary/CheckState.cs:409-421 | a single template is reported at its connection cell |
| ScanSpec.EdgeHitSees | HexLibrary/CheckState.cs:389-393 | the mask tested is exactly the templates of the current slot that end in the current column |
| ScanSpec.SingleMask | HexLibrary/CheckState.cs:398-409 | a mask that passed the one-bit test names a template |
| ScanSpec.ProcessUnoccupied | HexLibrary/CheckState.cs:384-444 | an empty cell reports at most one template and moves one cell down or to the next column; a new column's slot is opened with `TmpsByLength`, and an invalid row throws |
| ScanSpec.MoveDown | HexLibrary/CheckState.cs:436-443 | the scan moves one row down, or opens the next column once the row reaches the column height |
| ScanSpec.NextColumn | HexLibrary/CheckState.cs:439-442 | the next column's slot is set from `TmpsByLength`, capped by the cells left on the side |
| ScanSpec.EliminateConnectingStoneRemoves | HexLibrary/CheckState.cs:260-299 | the step removes template t from slot j exactly when t's connecting stone would be at the given depth |
| ScanSpec.UnfriendlyRows | HexLibrary/CheckState.cs:449-452 | the loop only removes templates and keeps the current cell |
| ScanSpec.UnfriendlyRowsRemoves | HexLibrary/CheckState.cs:449-452 | the loop's first round removes for good every template whose connecting stone would be at the enemy stone's own depth |
| ScanSpec.PinDontCare | HexLibrary/CheckState.cs:457-473 | on a don't-care cell, the queue is pinned to the one template and the slots after it are cleared |
| ScanSpec.Enemy | HexLibrary/CheckState.cs:479-538 | an enemy stone at row 0 or 1 drops every template and restarts after it; at rows 2 .. 4 templates are only removed and the scan moves to the next column |
| ScanSpec.FinishColumn | HexLibrary/CheckState.cs:498-500 | `CheckMask` and `AdvanceColumn` move to the next column without touching the masks |
| ScanSpec.ProcessUnfriendly | HexLibrary/CheckState.cs:446-540 | an enemy stone moves the scan one cell on. At rows 0 and 1 it either restarts after the stone or pins the don't-care template |
| ScanSpec.DontCare | HexLibrary/CheckState.cs:455-474 | the don't-care `switch` either pins IIIc or IVc or falls through to the enemy step |
| ScanSpec.ProcessFriendly | HexLibrary/CheckState.cs:542-591 | own stone at row 0: template I is reported there and the scan restarts past it. At row 1 the slot is pinned to II. At rows 2 .. 4 templates are only narrowed. Beyond row 4 it throws |
| ScanSpec.FriendlyEdge | HexLibrary/CheckState.cs:547-561 | the row-0 case clears the stone's slot and restarts there |
| ScanSpec.FriendlyII | HexLibrary/CheckState.cs:563-566 | the row-1 case leaves only II at the stone's column |
| ScanSpec.FriendlyDeep | HexLibrary/CheckState.cs:568-584 | the row 2 .. 4 cases only narrow the masks and move to the next column |
| ScanSpec.Stone | HexLibrary/CheckState.cs:175-179 | the colour at the current cell, and `IndexOutOfRangeException` off the board |
| ScanSpec.StepScan | HexLibrary/EdgeTemplateCheck.cs:30-44 | one turn of the scan reads a cell on the board, only adds connections, and moves one cell on |
| ScanSpec.OnBoardColumn | HexLibrary/CheckState.cs:158-159 | a cell on the board is at most size - 1 columns along its side |
| ScanSpec.Scanned | HexLibrary/EdgeTemplateCheck.cs:28-45 | the loop only adds connections and stops with what it found once `Done` |
| ScanSpec.Check | HexLibrary/EdgeTemplateCheck.cs:20-48 | a side outside 0 .. 3 throws `IndexOutOfRangeException`, and a board of size 0 or 1 has no connections |
| ScanProperties.UnfriendlyRowsClears | HexLibrary/CheckState.cs:448-452 | after the loop no template is left whose connecting stone would be at the enemy stone's depth or any depth below it: those above the column height are removed, and the rest were already gone |
| ScanProperties.ColumnHeightCovers | HexLibrary/CheckState.cs:335-380 | every live template's height in the current column is within the column height, so the scan visits every cell a live template needs |
| EdgeTemplateChecks.Check | HexLibrary/EdgeTemplateCheck.cs:20-48 | the loop driving `CheckState` returns exactly the scan's result |
| CheckStates.HeightsSoFar | HexLibrary/CheckState.cs:338-377 | after i turns of `ColumnHeight`'s loop, i slot heights have been seen |
| CheckStates.HeightsSoFarStep | HexLibrary/CheckState.cs:338-377 | one more turn adds one slot's height and raises the maximum to it |
| CheckStates.RaiseEach | HexLibrary/CheckState.cs:352-363 | the inner loop computes the raised height list |
| CheckStates.HeightListOf | HexLibrary/CheckState.cs:347-364 | the loop over the mask's templates computes its height list |
| CheckStates.FoldTemplate | HexLibrary/CheckState.cs:349-364 | one template of that loop keeps heights 0 .. 5 and keeps its invariant |
| CheckStates.HeightsOfFrom | HexLibrary/CheckState.cs:349-364 | folding templates from i on is folding template i (if present) and then the rest |
| CheckStates.TallerOf | HexLibrary/CheckState.cs:371-376 | one turn keeps the larger of the height so far and the slot's height |
| CheckStates.CheckState.constructor | HexLibrary/CheckState.cs:163-171 | a new state is on the side's frame at the initial scan |
| CheckStates.CheckState.Done | HexLibrary/CheckState.cs:158 | `Done` is the scan's end test |
| CheckStates.CheckState.Position | HexLibrary/CheckState.cs:159 | `Position` is the scan's current cell (PositionOnSide) |
| CheckStates.CheckState.Stone | HexLibrary/CheckState.cs:175-179 | the method returns the current cell's colour as ScanSpec.Stone states |
| CheckStates.CheckState.AllowOnly | HexLibrary/CheckState.cs:181-187 | the array and cursor change as ScanSpec.AllowOnly states |
| CheckStates.CheckState.Eliminate | HexLibrary/CheckState.cs:189-197 | as ScanSpec.Eliminate states |
| CheckStates.CheckState.AdvanceColumn | HexLibrary/CheckState.cs:199-203 | as ScanSpec.AdvanceColumn states |
| CheckStates.CheckState.AdvanceQueue | HexLibrary/CheckState.cs:209-214 | as ScanSpec.AdvanceQueue states |
| CheckStates.CheckState.CheckMask | HexLibrary/CheckState.cs:221-227 | the loop leaves the state ScanSpec.CheckMask states |
| CheckStates.CheckState.AdvanceTo | HexLibrary/CheckState.cs:237-249 | the loop leaves the state ScanSpec.AdvanceTo states |
| CheckStates.CheckState.ConnectingStone | HexLibrary/CheckState.cs:267-295 | the `switch` leaves the state ScanSpec.ConnectingStone states |
| CheckStates.CheckState.EliminateConnectingStone | HexLibrary/CheckState.cs:260-299 | as ScanSpec.EliminateConnectingStone states |
| CheckStates.CheckState.ColumnHeight | HexLibrary/CheckState.cs:335-380 | the loop returns the height ScanSpec.ColumnHeight states (ColumnHeightIsMax) |
| CheckStates.CheckState.Report | HexLibrary/CheckState.cs:409-421 | as ScanSpec.Report states |
| CheckStates.CheckState.EdgeHit | HexLibrary/CheckState.cs:386-424 | as ScanSpec.EdgeHit states (EdgeHitCases) |
| CheckStates.CheckState.MoveDown | HexLibrary/CheckState.cs:436-443 | as ScanSpec.MoveDown states |
| CheckStates.CheckState.NextColumn | HexLibrary/CheckState.cs:439-442 | as ScanSpec.NextColumn states |
| CheckStates.CheckState.ProcessUnoccupied | HexLibrary/CheckState.cs:384-444 | as ScanSpec.ProcessUnoccupied states |
| CheckStates.CheckState.UnfriendlyRows | HexLibrary/CheckState.cs:449-452 | the loop leaves the state ScanSpec.UnfriendlyRows states |
| CheckStates.CheckState.PinDontCare | HexLibrary/CheckState.cs:457-473 | as ScanSpec.PinDontCare states |
| CheckStates.CheckState.Enemy | HexLibrary/CheckState.cs:479-538 | as ScanSpec.Enemy states |
| CheckStates.CheckState.EnemyAt2 | HexLibrary/CheckState.cs:488-501 | the row-2 case, as ScanSpec.Enemy states |
| CheckStates.CheckState.EnemyAt3 | HexLibrary/CheckState.cs:503-512 | the row-3 case, as ScanSpec.Enemy states |
| CheckStates.CheckState.EnemyAt4 | HexLibrary/CheckState.cs:514-538 | the row-4 case, as ScanSpec.Enemy states |
| CheckStates.CheckState.Drop | HexLibrary/CheckState.cs:516-535 | one guarded `&= ~mask` of the row-4 case is ScanSpec.Eliminate at that slot |
| CheckStates.CheckState.FinishColumn | HexLibrary/CheckState.cs:498-500 | as ScanSpec.FinishColumn states |
| CheckStates.CheckState.DontCare | HexLibrary/CheckState.cs:455-474 | as ScanSpec.DontCare states |
| CheckStates.CheckState.ProcessUnfriendly | HexLibrary/CheckState.cs:446-540 | as ScanSpec.ProcessUnfriendly states |
| CheckStates.CheckState.ProcessFriendly | HexLibrary/CheckState.cs:542-591 | as ScanSpec.ProcessFriendly states |
| CheckStates.CheckState.FriendlyDeep | HexLibrary/CheckState.cs:568-584 | as ScanSpec.FriendlyDeep states |
| TemplateFits.Plain | HexLibrary/EdgeTemplate.cs:188-190 | an old template holds its depth, plies and connecting offset, with no don't-care cell |
| TemplateFits.Expected | HexLibrary/EdgeTemplate.cs:237-239 | a cell must hold the player exactly at the connecting stone (last ply, connecting offset), and be empty everywhere else |
| TemplateFits.Fit | HexLibrary/EdgeTemplate.cs:222-251 | a side outside 0 .. 3 throws. `true` exactly when the template is well shaped and every cell but the don't-care holds its expected colour. `false` names a mismatching cell. A throw means some needed cell is off the board or a ply is missing |
| TemplateFits.FitFrame | HexLibrary/EdgeTemplate.cs:229-250 | the same, for the side's frame |
| TemplateFits.PlyStartStep | HexLibrary/EdgeTemplate.cs:231-247 | `start` moves by the ply offset, and then by `rowInc` to the next ply |
| TemplateFits.CellStep | HexLibrary/EdgeTemplate.cs:245 | `cur` moves by `colInc` to the next cell of the ply |
| TemplateFits.FitPly | HexLibrary/EdgeTemplate.cs:233-246 | the inner loop succeeds exactly when every cell of the ply fits; it names a mismatch or an off-board cell otherwise |
| TemplateFits.OldHeights | HexLibrary/EdgeTemplate.cs:102-106 | an old template's column heights span the width of its first ply |
| TemplateFits.ShortTemplatesAgree | HexLibrary/EdgeTemplate.cs:111-140 | the old I .. IIIb have the same heights, connecting column, depth and don't-care as the new ones |
| TemplateFits.MiddleTemplatesAgree | HexLibrary/EdgeTemplate.cs:141-155 | so do IIIc and IVa |
| TemplateFits.LongTemplatesAgree | HexLibrary/EdgeTemplate.cs:156-165 | so do IVb and IVc |
| TemplateFits.OldCatalogAgrees | HexLibrary/EdgeTemplate.cs:111-175 | the first eight old templates agree with the new catalog, while Va and Vb are malformed: each has five plies but only four ply offsets |
| TemplateFits.BlackFrame | HexLibrary/EdgeTemplate.cs:224-227 | on Black's sides the frame runs down column 0 inwards, or down column size - 1 inwards |
| TemplateFits.WhiteFrame | HexLibrary/EdgeTemplate.cs:224-227 | on White's sides the frame runs along row size - 1 or row 0, with `rowInc` pointing off the board |
| TemplateFits.ColumnCell | HexLibrary/EdgeTemplate.cs:229-248 | on Black's sides, cell (iRow, iCol) sits at the summed ply offsets plus iCol along the edge, and iRow inwards |
| TemplateFits.CellRowAcross | HexLibrary/EdgeTemplate.cs:229-248 | when the frame runs along a row, ply iRow lies iRow rows from the start |
| TemplateFits.CellsOffWhiteSides | HexLibrary/EdgeTemplate.cs:226 | on White's sides every ply after the first lies off the board |
| TemplateFits.OffBoardCellSpoils | HexLibrary/EdgeTemplate.cs:240 | a needed cell off the board means the template cannot fit |
| TemplateFits.NoFitOnWhiteSides | HexLibrary/EdgeTemplate.cs:222-251 | as written, no template of two or more plies fits on side 1 or 3 |
| LegacyIds.IdFromSideValue | Hex/Analysis.cs:137-140 | side s's id is (2^s - 16) x 2^27: the sign bit, bit 4 of the group and the side bit |
| LegacyIds.SideGroup | Hex/Analysis.cs:139 | `(1 << side) \| 0b10000` is the side bit plus 16 |
| LegacyIds.GroupShift | Hex/Analysis.cs:139 | shifting that group left by 27 puts its top bit on the sign bit |
| LegacyIds.OrBitsDisjoint | Hex/Analysis.cs:391 | OR of a multiple of 2^k and a number below 2^k is their sum |
| LegacyIds.EdgeIdOr | Hex/Analysis.cs:391 | a side id OR'd with low bits below 2^27 is their sum |
| LegacyIds.EdgeIdEncoding | Hex/Analysis.cs:116-146 | an edge id with counter bits below 2^27 is negative. `LowBitsFromId` gives back the counter and `HighBitsFromId` the side bit, and `SideFromId` reads the side back |
| LegacyIds.HighBitsMatchEdgeId | Hex/Analysis.cs:160-188 | `HighBitsFromLocation` is non-zero exactly where the library gives an edge sentinel, and then names the same side |
| LegacySpec.PutIdGrid | Hex/Analysis.cs:154-158 | setting one id keeps the id grid covering the board |
| LegacySpec.FirstEdge | Hex/Analysis.cs:308 | `ids.First(IsEdgeChain)` is an edge id among the ids; it is absent only when none is an edge id |
| LegacySpec.Placed | Hex/Analysis.cs:207-310 | checking chain ids keeps the id grid covering the board; its outcomes are the `Placed` lemmas below |
| LegacySpec.Attached | Hex/Analysis.cs:218-310 | the connected branch keeps the id grid |
| LegacySpec.JoinedCommon | Hex/Analysis.cs:229-272 | the all-same branch keeps the id grid |
| LegacySpec.Merged | Hex/Analysis.cs:285-295 | the all-compatible branch keeps the id grid |
| LegacySpec.Contested | Hex/Analysis.cs:296-309 | the high-bit collection branch keeps the id grid |
| LegacySpec.Relabel | Hex/Analysis.cs:258-259 | `SetChainId` then `PromulgateId` keeps the id grid |
| LegacySpec.Promulgated | Hex/Analysis.cs:312-343 | promulgation keeps the id grid (PromulgatedFacts says what it computes) |
| LegacySpec.Waves | Hex/Analysis.cs:328-342 | the breadth-first loop ends with an empty queue and keeps the id grid |
| LegacySpec.PendingPut | Hex/Analysis.cs:339 | labelling a like-coloured cell that still has another id takes it out of the cells left to label |
| LegacySpec.TouchShrinks | Hex/Analysis.cs:336-341 | visiting a neighbour never adds work left |
| LegacySpec.RippleShrinks | Hex/Analysis.cs:336-341 | nor does visiting all six |
| LegacySpec.WaveStepShrinks | Hex/Analysis.cs:328-342 | each round strictly reduces the work left, so the loop ends |
| LegacySpec.TouchKeeps | Hex/Analysis.cs:336-341 | visiting a neighbour keeps the flood's invariant and labels a like-coloured neighbour with the id |
| LegacySpec.RippleKeeps | Hex/Analysis.cs:336-341 | visiting the remaining offsets labels every like-coloured neighbour at them |
| LegacySpec.NeighbourAtOffset | Hex/Analysis.cs:60-68 | an adjacent cell lies at one of the six offsets |
| LegacySpec.WaveStepKeeps | Hex/Analysis.cs:328-342 | a round keeps the flood's invariant and its closure: every listed cell's like-coloured neighbours carry the id |
| LegacySpec.WavesKeep | Hex/Analysis.cs:328-342 | so does the whole loop |
| LegacySpec.PromulgatedFacts | Hex/Analysis.cs:312-343 | The new list starts at loc, repeats no cell, and holds only stones of loc's colour with loc's id that had another id before (or loc). Every like-coloured neighbour of a listed cell carries the id, and only such cells changed id. The neighbours' old ids lose their lists, other lists are kept, and the counter is untouched |
| LegacySpec.NeighbourIds | Hex/Analysis.cs:216-227 | the connections are exactly the like-coloured neighbours, empty exactly when there is none, and their ids are exactly those neighbours' ids |
| LegacySpec.PlacedAlone | Hex/Analysis.cs:218-224 | a stone with no like-coloured neighbour starts its own chain with the next counter value (post-increment), plus its edge bits when on an edge. With a counter below 2^27 that id is an edge id that reads back the stone's side |
| LegacySpec.PlacedAloneValue | Hex/Analysis.cs:218-224 | the exact state: the id is `highBits + NextId()` wrapped, and the chain lists just the stone |
| LegacySpec.CommonId | Hex/Analysis.cs:227-232 | when all like-coloured neighbours share an id, the all-same test holds with that id |
| LegacySpec.PlacedJoins | Hex/Analysis.cs:234-241 | off the edges, joining a single chain appends the stone to it, or throws `KeyNotFoundException` when its list is missing |
| LegacySpec.PlacedOnEdgeNextToPlainChain | Hex/Analysis.cs:255-261 | on an edge next to a chain with no edge bits, the chain is relabelled with the id plus the edge bits |
| LegacySpec.PlacedReachesEdge | Hex/Analysis.cs:255-261 | that makes the whole neighbouring chain an edge chain of the stone's side, listed from the stone, and the old id's list disappears |
| LegacySpec.RelabelFromEdge | Hex/Analysis.cs:258-259 | relabelling from loc gives loc and all its like-coloured neighbours the new id and drops the old list |
| LegacySpec.PlacedOnOwnEdgeWins | Hex/Analysis.cs:243-271 | on an edge, next to like-coloured neighbours that share one id with high bits, the placement is a win and changes nothing, even when those bits are the stone's own side: case 2 compares the four bits (0 .. 15) with the negative `highBitsWithSign` and never holds |
| LegacySpec.PlacedLinkingEdgesDoesNotWin | Hex/Analysis.cs:285-309 | a stone off the edges that joins chains of two different sides is labelled, not a win, because the high-bit collection ignores edge ids |
| LegacySpec.EdgeSideBits | Hex/Analysis.cs:143-146 | an edge id of side s has exactly s's bit among its high bits |
| LegacySpec.EdgeNeighbourIds | Hex/Analysis.cs:227 | the ids of two edge-chain neighbours are among the ids read, all of them edge ids |
| LegacySpec.TwoSidesNotSame | Hex/Analysis.cs:229-289 | ids of two different sides are not all the same and are not all compatible |
| LegacySpec.LinkingEdgesValue | Hex/Analysis.cs:296-309 | with only edge ids around, the collection is empty, and the stone takes the first edge id and promulgates it |
| LegacySpec.NoPlainBits | Hex/Analysis.cs:296-300 | the high-bit collection of edge ids alone, off the edges, is empty |
| LegacySpec.Removed | Hex/Analysis.cs:345-362 | the removal keeps the id grid |
| LegacySpec.RemovalRounds | Hex/Analysis.cs:353-361 | the removal loop keeps the id grid |
| LegacySpec.Flooded | Hex/Analysis.cs:364-404 | `PromulgateIdAfterDelete` keeps the id grid |
| LegacySpec.FloodRounds | Hex/Analysis.cs:373-403 | its loop keeps the id grid and ends (without a bound) |
| LegacySpec.VisitShrinks | Hex/Analysis.cs:380-402 | visiting a neighbour never adds work left, or turns the id into an edge id |
| LegacySpec.SpreadShrinks | Hex/Analysis.cs:380-402 | nor does visiting all six |
| LegacySpec.FloodStepShrinks | Hex/Analysis.cs:373-403 | a round strictly reduces the work left, or turns the id into an edge id, so the loop ends |
| LegacySpec.RemovalRoundsEnd | Hex/Analysis.cs:353-361 | when the loop ends normally no check carries the old id |
| LegacySpec.RemovedEnd | Hex/Analysis.cs:345-362 | after a removal that ends normally, no like-coloured neighbour still carries the removed chain's id |
| LegacySpec.UpgradeKeeps | Hex/Analysis.cs:387-397 | re-keying leaves the queue, the list, the placed cells and every other colour's ids alone |
| LegacySpec.SpreadKeeps | Hex/Analysis.cs:380-402 | visiting neighbours labels only the player's stones |
| LegacySpec.FloodRoundsKeeps | Hex/Analysis.cs:373-403 | the flood never changes the id of a cell of another colour |
| LegacySpec.FloodedKeeps | Hex/Analysis.cs:364-404 | `PromulgateIdAfterDelete` changes only ids of its own colour |
| LegacySpec.RemovalRoundsKeeps | Hex/Analysis.cs:353-361 | neither does the removal loop |
| LegacySpec.RemovedKeeps | Hex/Analysis.cs:345-362 | a removal sets the removed cell to 0 and leaves every other cell of another colour as it was |
| LegacySpec.FreshChainLagsLibrary | Hex/Analysis.cs:357-359 | a fresh chain here takes the counter before its increment, where the library's takes it after; both advance the counter alike |
| LegacyAnalysis.AllSameIds | Hex/Analysis.cs:229 | the loop decides whether every id equals the first |
| LegacyAnalysis.AllCompatible | Hex/Analysis.cs:285-289 | the loop decides whether every id has no high bits or the stone's high bits |
| LegacyAnalysis.HighBitCollection | Hex/Analysis.cs:296 | the loop collects exactly the high bits of the ids that are not edge ids |
| LegacyAnalysis.FirstEdgeId | Hex/Analysis.cs:308 | the loop finds the first edge id |
| LegacyAnalysis.DroppedIds | Hex/Analysis.cs:323-326 | the ids the drop loop removes are the like-coloured neighbours' ids other than loc's |
| LegacyAnalysis.DropKeeps | Hex/Analysis.cs:323-326 | dropping keys keeps every stored list on the board |
| LegacyAnalysis.DropAfterReset | Hex/Analysis.cs:317-326 | storing the new list and then dropping the other ids is the same as dropping and then storing |
| LegacyAnalysis.RemovalRoundsStep | Hex/Analysis.cs:354-361 | one turn of the removal loop labels a fresh chain and floods it; a throw ends the loop |
| LegacyAnalysis.Analysis.constructor | Hex/Analysis.cs:21-25 | a new analysis has every id 0, no chains and the counter at 1 |
| LegacyAnalysis.Analysis.Clear | Hex/Analysis.cs:29-34 | clearing gives a fresh grid of zeros, no chains and the counter at 0 |
| LegacyAnalysis.Analysis.NextId | Hex/Analysis.cs:101-104 | the old counter value is returned and the counter incremented (post-increment) |
| LegacyAnalysis.Analysis.SetChainId | Hex/Analysis.cs:154-158 | exactly the one cell's id changes |
| LegacyAnalysis.Analysis.IdsOf | Hex/Analysis.cs:227 | the ids are read one per connection |
| LegacyAnalysis.Analysis.CheckChainIds | Hex/Analysis.cs:207-310 | the placement leaves the outcome and state of the placement function (PlacedAlone .. LinkingEdgesValue) |
| LegacyAnalysis.Analysis.Attach | Hex/Analysis.cs:218-310 | the connected branch, as LegacySpec.Attached |
| LegacyAnalysis.Analysis.StartChain | Hex/Analysis.cs:218-224 | the stone starts its own chain (PlacedAloneValue) |
| LegacyAnalysis.Analysis.JoinCommon | Hex/Analysis.cs:229-272 | the all-same branch, as LegacySpec.JoinedCommon |
| LegacyAnalysis.Analysis.Join | Hex/Analysis.cs:237-239 | the stone takes the common id and joins its list, or `KeyNotFoundException` |
| LegacyAnalysis.Analysis.JoinSeveral | Hex/Analysis.cs:285-309 | the branch for differing ids, as LegacySpec.Merged |
| LegacyAnalysis.Analysis.Contest | Hex/Analysis.cs:296-309 | the high-bit collection test, as LegacySpec.Contested |
| LegacyAnalysis.Analysis.RelabelFrom | Hex/Analysis.cs:258-259 | `SetChainId` then `PromulgateId` |
| LegacyAnalysis.Analysis.PromulgateId | Hex/Analysis.cs:312-343 | promulgation leaves the state of the promulgation function (PromulgatedFacts) |
| LegacyAnalysis.Analysis.NewListDropping | Hex/Analysis.cs:317-326 | a new empty list for the id, and the neighbours' other ids dropped |
| LegacyAnalysis.Analysis.DropChains | Hex/Analysis.cs:323-326 | the loop drops exactly the other ids |
| LegacyAnalysis.Analysis.WaveLoop | Hex/Analysis.cs:328-342 | the breadth-first loop labels and lists as LegacySpec.Waves |
| LegacyAnalysis.Analysis.RippleFrom | Hex/Analysis.cs:336-341 | all six neighbours are visited in offset order |
| LegacyAnalysis.Analysis.TouchNeighbour | Hex/Analysis.cs:336-341 | one neighbour is labelled and queued if it has the colour and another id |
| LegacyAnalysis.Analysis.NextCarrying | Hex/Analysis.cs:354-356 | the search returns the first check still carrying the old id |
| LegacyAnalysis.Analysis.CheckIdsOnRemoval | Hex/Analysis.cs:345-362 | the removal leaves the outcome and state of the removal function (RemovedEnd, RemovedKeeps) |
| LegacyAnalysis.Analysis.RemovalLoop | Hex/Analysis.cs:353-361 | the loop runs the removal rounds |
| LegacyAnalysis.Analysis.StartFlood | Hex/Analysis.cs:356-360 | a round labels the picked cell with `NextId()`, gives it an empty list and floods |
| LegacyAnalysis.Analysis.PromulgateIdAfterDelete | Hex/Analysis.cs:364-404 | the flood leaves the state of the flood function; a missing list throws `KeyNotFoundException` |
| LegacyAnalysis.Analysis.FloodLoop | Hex/Analysis.cs:373-403 | the loop runs the flood rounds to the end |
| LegacyAnalysis.Analysis.FloodRound | Hex/Analysis.cs:376-402 | one round dequeues, lists and visits |
| LegacyAnalysis.Analysis.SpreadFrom | Hex/Analysis.cs:380-402 | all six neighbours are visited in offset order |
| LegacyAnalysis.Analysis.VisitNeighbour | Hex/Analysis.cs:380-402 | one neighbour is tested, re-keyed if needed, labelled and queued |
| LegacyAnalysis.Analysis.ReKey | Hex/Analysis.cs:387-397 | on reaching an edge cell the list moves to `id \| highBits` and the cells placed so far take it |
| LegacyAnalysis.Analysis.Relabel | Hex/Analysis.cs:393-396 | the listed cells are relabelled |
| LegacyAnalysis.Analysis.ChainCount | Hex/Analysis.cs:46-51 | all chains for `Unoccupied`; the chains whose first cell has the colour otherwise; an empty list throws |
| LegacyBoards.SoundKept | Hex/Board.cs:33-103 | new and cleared boards are sound (colours and ids cover the board, the log holds board cells), and clicks and undos keep them so |
| LegacyBoards.ClickKeepsSound | Hex/Board.cs:85-103 | a click keeps a board sound |
| LegacyBoards.UndoKeepsSound | Hex/Board.cs:63-76 | an undo keeps a board sound |
| LegacyBoards.ZeroIdsGrid | Hex/Analysis.cs:21-25 | the fresh id grid covers the board |
| LegacyBoards.ClickRejected | Hex/Board.cs:87-96 | once there is a winner, or on an occupied cell, a click does nothing at all, not even hand the move over |
| LegacyBoards.ClickAccepted | Hex/Board.cs:97-102 | otherwise exactly the cell takes the mover's colour and the analysis runs. On success the cell is logged, the move handed over and a win recorded. On a throw the log, the player and the winner stay unchanged |
| LegacyBoards.UndoEmpty | Hex/Board.cs:65-68 | with an empty log, `Undo` does nothing |
| LegacyBoards.ClickThenUndo | Hex/Board.cs:63-103 | an accepted click followed by `Undo` restores the colours, the log and the player to move |
| LegacyBoards.UndoRelabelsOwnColourOnly | Hex/Board.cs:63-76 | `Undo` sets the removed cell's id to 0 and changes no id outside the colour of the player now to move (the stone's colour). When it ends normally, no neighbour of that colour still carries the removed stone's chain id |
| LegacyBoards.Board.constructor | Hex/Board.cs:33-45 | a new board is empty, White moves, no winner and no log, with a fresh analysis |
| LegacyBoards.Board.Create | Hex/Board.cs:33-45 | construction succeeds exactly for sizes 0 .. 26; above 26 it throws `ArgumentException`, below 0 `OverflowException` |
| LegacyBoards.Board.Clear | Hex/Board.cs:49-56 | grid, player, winner and analysis are reset, the log kept |
| LegacyBoards.Board.SetWinner | Hex/Board.cs:78-81 | the winner becomes the given colour |
| LegacyBoards.Board.ChangePlayer | Hex/Board.cs:112-115 | the move is handed over |
| LegacyBoards.Board.Player | Hex/Board.cs:107-110 | the colour of a cell on the board, and `IndexOutOfRangeException` off it |
| LegacyBoards.Board.Clicked | Hex/Board.cs:85-103 | the method leaves exactly the board the click function describes (ClickRejected, ClickAccepted) |
| LegacyBoards.Board.PutStone | Hex/Board.cs:97-102 | the accepted branch of `Clicked` |
| LegacyBoards.Board.SetCell | Hex/Board.cs:97 | exactly one cell's colour changes |
| LegacyBoards.Board.Record | Hex/Board.cs:98-100 | after the analysis, a success logs the cell and a win sets the winner |
| LegacyBoards.Board.Undo | Hex/Board.cs:63-76 | the method leaves exactly the board the undo function describes (UndoEmpty, UndoRelabelsOwnColourOnly) |
| LegacyBoards.Board.TakeBack | Hex/Board.cs:69-72 | the last logged cell leaves the log and the grid, and the move is handed over |
| ChainScenarios.Isolated | HexLibrary/Analysis.cs:184-185 | a stone with no neighbour of its colour has no connections and absorbs nothing |
| ChainScenarios.PlacedAlone | HexLibrary/Analysis.cs:175-216 | `CheckChainIds` for a stone off its colour's edges with no neighbour of its colour: the stone takes the next counter value, whose list is the stone alone, and nothing else changes |
| ChainScenarios.StoneAlone | HexLibrary/Board.cs:77-92 | `PlaceStone` of such a stone on a free cell with no winner colours the cell, logs it and leaves that analysis; the player to move does not change |
| ChainScenarios.OneInsert | HexTest/ChainTest.cs:14-21 | a lone White stone at (6, 6) on a fresh board of size 10 or more gets the non-zero id 2, whose list is [(6, 6)] |
| ChainScenarios.SecondInsert | HexTest/ChainTest.cs:38-43 | a White stone at (8, 6) after that gets a different id, 3, whose list is [(8, 6)], and (6, 6) keeps its chain |
| ChainScenarios.TwoChains | HexTest/ChainTest.cs:44 | White then has two chains |
| ChainScenarios.MiddleNeighbours | HexLibrary/Analysis.cs:184 | the White neighbours of (7, 6) are (8, 6) and then (6, 6), in offset order |
| ChainScenarios.MiddleAbsorbs | HexLibrary/Analysis.cs:234-237 | with (7, 6) labelled 2, the scan eliminates only id 3: (6, 6) already carries 2 |
| ChainScenarios.MiddleJoins | HexLibrary/Analysis.cs:228-259 | `PromulgateId` at (7, 6) relabels (8, 6) to 2 and leaves one chain 2 listing (6, 6), (7, 6), (8, 6); chain 3 is gone |
| ChainScenarios.MiddlePlaced | HexLibrary/Analysis.cs:175-216 | `CheckChainIds` at (7, 6) compares the candidate 4 with the neighbours' 3 and 2, takes the least, 2, and leaves the merged analysis |
| ChainScenarios.Amalgamation | HexTest/ChainTest.cs:46-50 | the stone at (7, 6) joins the two chains into one chain of the three stones, in the order they joined it |
| ChainScenarios.OneChain | HexTest/ChainTest.cs:51 | White then has one chain |
| ChainScenarios.TakenBackMiddle | HexLibrary/Board.cs:57-64 | `Undo` takes (7, 6) off the log and the grid and hands the move to Black, since `PlaceStone` never handed it over |
| ChainScenarios.RemovedAlone | HexLibrary/Analysis.cs:261-278 | removing a cell with no neighbour of the given colour drops its chain's list, clears its id and rebuilds nothing |
| ChainScenarios.RemovalAsBlack | HexLibrary/Analysis.cs:261-278 | the tests' removal of (7, 6) as Black drops chain 2's list and leaves (8, 6) and (6, 6) with id 2 |
| ChainScenarios.UndoAsWritten | HexTest/ChainTest.cs:53-58 | after the tests' `Undo`, (8, 6) still carries 2, which has no list, and White has no chain to count, so the expected list [(8, 6)] and count 2 do not hold as written |
| ChainScenarios.FloodAlone | HexLibrary/Analysis.cs:280-319 | `PromulgateIdAfterDelete` from a stone with no neighbour of its colour and an empty list makes the list the stone alone and changes nothing else |
| ChainScenarios.RebuildAlone | HexLibrary/Analysis.cs:273-276 | one round of the removal loop from such a stone gives it the next counter value as a one-stone chain |
| ChainScenarios.RoundAlone | HexLibrary/Analysis.cs:269-277 | a round of the removal loop that picks such a stone moves on from that one-stone chain |
| ChainScenarios.Carriers | HexLibrary/Analysis.cs:270-272 | the removal loop picks (8, 6), then (6, 6), then stops |
| ChainScenarios.FirstRound | HexLibrary/Analysis.cs:269-277 | the first round of removing (7, 6) as White makes (8, 6) chain 5 |
| ChainScenarios.SecondRound | HexLibrary/Analysis.cs:269-277 | the second round makes (6, 6) chain 6 |
| ChainScenarios.RemovalAsWhite | HexLibrary/Analysis.cs:261-319 | removing (7, 6) as White, the stone's colour, splits the chain again: (8, 6) gets id 5 with list [(8, 6)] and (6, 6) id 6 with list [(6, 6)] |
| ChainScenarios.TwoChainsAgain | HexTest/ChainTest.cs:58 | White then has two chains again, the count the test expects |
| ChainScenarios.FirstStone | HexTest/ChainTest.cs:14-21 | through the board class: the first placement leaves the first analysis, and the first stone's list is [(6, 6)] |
| ChainScenarios.SecondStone | HexTest/ChainTest.cs:38-44 | the second placement's list is [(8, 6)] and the White count 2 |
| ChainScenarios.ThirdStone | HexTest/ChainTest.cs:46-51 | the third placement's list is [(6, 6), (7, 6), (8, 6)], the White count 1 and the count of all chains 1 |
| ChainScenarios.AmalgamationScenario | HexTest/ChainTest.cs:25-58 | the test run through `new Board()` with the default size: the lists and counts above, and after `Undo` the list lookup for (8, 6)'s id fails with `KeyNotFoundException` |

## Left out

- ChainScenarios.RemovalAsWhite: requires a fuel of at least 2, the two rounds the removal loop runs. The scenario lemmas hold on every board of size 10 or more, the default 11 included.
- `Console.WriteLine` logging is not modelled. Neither are `TemplateNames` and the first generation's `IdToString`, which only format text for it.
- The first generation's drawing is not modelled: `BoardDrawing`, `DrawStone`, `Resize` and the redraw in `Clear`. They only paint the window.
- The library `Analysis` copy constructor is not modelled. Neither are the path-finding stubs (`DeterminePaths`, `FindPath`, `TakeAStep`, `TakeInitialSteps`), which have no effect.
- `GridLocation` `+` and `-` are unbounded here: coordinates never leave a few units of the board, so the 32-bit wrap of the row and column sums is not modelled.
- The `TmplSetsToHeights` memo is not modelled. `ColumnHeight` computes each slot's height list afresh (`HeightListOf`), and HeightListGivesSlotHeight shows it equals what the memo would hold.
- The `HashSet<int>` of eliminated ids is enumerated in first-insertion order. That is the order the .NET set gives when nothing has been removed, and the language does not promise it.
- The lists in the chain dictionaries are values. The source shares one list object between a key and a local (`ourLocList`). The model stores the list under its key after each change, so the sharing itself is not modelled.
- The board's colours reach the analysis as a map argument, not through the `_board` back-reference. A win is returned to the board, which sets the winner, instead of being set through that reference.
- `BoardChange.Undo` calls `RemoveStone(loc, false)`, `PlaceStone(loc, color, false)` and `ChangePlayer(color)`. No `Board` in the repository defines these. The model records the calls and gives them their evident meaning (clear a cell, colour a cell, set the player to move) on the colours and the player alone.
- The non-generic `IEnumerable.GetEnumerator` of `CircularQueue` is the same loop as the generic one and has no separate member.
- ChainSpec.Removed: the library's removal loop and flood loop carry no bound of their own. The model gives both a fuel bound, and running out ends with a `FuelExhausted` outcome the source does not have.
- ChainSpec.RemovalRounds: bounded by the same fuel.
- ChainSpec.Flooded: bounded by the same fuel.
- ChainSpec.FloodRounds: bounded by the same fuel.
- ChainAnalysis.Analysis.CheckIdsOnRemoval: takes that fuel bound.
- ChainAnalysis.Analysis.RemovalLoop: takes that fuel bound.
- ChainAnalysis.Analysis.PromulgateIdAfterDelete: takes that fuel bound.
- ChainAnalysis.Analysis.FloodLoop: takes that fuel bound.
- Boards.Undone: passes the fuel bound to the library removal.
- Boards.Board.Undo: takes that fuel bound.
- LegacySpec.Removed: the first generation's removal loop takes a fuel bound, with `FuelExhausted` when it runs out. Its flood needs none, because each round shrinks a measure or turns the id into an edge id.
- LegacySpec.RemovalRounds: bounded by the same fuel.
- LegacyAnalysis.Analysis.CheckIdsOnRemoval: takes that fuel bound.
- LegacyAnalysis.Analysis.RemovalLoop: takes that fuel bound.
- LegacyBoards.Board.Undo: takes that fuel bound.
- CircularQueues.CircularQueue.constructor: requires `sizeLog % 32 != 31`. For 31, `1 << sizeLog` is negative and the allocation throws `OverflowException`; that case is CircularQueues.Create's.
- CircularQueues.CircularQueue.Dequeue: requires a non-empty queue. The source does not check: dequeuing an empty queue returns a stale slot and makes `Length` negative, which the model does not follow.
- Boards.Board.constructor: requires a size of 0 .. 26. The two throwing sizes are Boards.Board.Create's.
- LegacyBoards.Board.constructor: requires a size of 0 .. 26. The two throwing sizes are LegacyBoards.Board.Create's.
- Geometry.HashInjective: holds only for rows below 32 and columns below 2^27. Geometry.HashCollision shows the hash is not injective beyond.
- Geometry.ToStringRoundTrip: holds only for rows whose letter fits in one `char` and for non-negative columns below `int.MaxValue`. Outside that range the text can repeat.
- The `Hex` board's `Analysis.PlaceStone`/`RemoveStone` wrappers are folded into the board operations that call them.

## Where the model follows the code over its comments

- `TmpsByLength[i]` is commented as the templates of length at most i. The static constructor starts at i = 1, and `LengthMasks[i]` is length i + 1, so the entry holds lengths 2 .. i + 1. The model follows the code (TmpsByLengthMembers).
- The edge scanner reports a template at its connecting stone's column and depth, scaled by the side's column and row steps, without adding the side's start cell (HexLibrary/CheckState.cs:411-412). On sides 1 and 2, which start at (size - 1, 0) and (0, size - 1), the reported location is therefore not the connecting stone's cell. On side 1 its row is the negated depth of the stone, negative for every template but I. The model reports what the code computes (ScanSpec.HitLocationShifted).
- `GetHashCode`'s remarks promise different values for different locations. Geometry.HashCollision shows two locations with the same hash.
- The library `Board.Clicked` hands the move over even when the stone is refused (Boards.ClickToggles). The first generation's `Clicked` returns first (LegacyBoards.ClickRejected). Each model follows its own code.
- `Board.Undo` hands the move back before it calls `RemoveStone`, so the removal runs for the player now to move. After `Clicked` that is the colour of the removed stone (UndoRelabelsOwnColourOnly).
- The library chain test `TestAmalgamation` places its stones with `PlaceStone`, which does not hand the move over. Its `Undo` therefore removes the White stone at (7, 6) as Black. No Black stone is next to it, so the joined chain's list is dropped and nothing is rebuilt. (8, 6) keeps id 2, which has no list, so the expected list [(8, 6)] and White count 2 (HexTest/ChainTest.cs:53-58) do not follow from the code (ChainScenarios.UndoAsWritten). Removing the stone as White gives them (ChainScenarios.RemovalAsWhite, ChainScenarios.TwoChainsAgain).
- The first generation's `CheckChainIds` treats an edge stone next to a chain of its own edge as a win: its case 2 test can never hold (PlacedOnOwnEdgeWins).
- The library `PromulgateIdAfterDelete` calls `NewOrEdgeId` twice for each edge cell it reaches, once in the test and once for the OR, and each call advances the counter. The model makes both calls.
- `EdgeTemplateOld` Va and Vb have five plies but four ply offsets, so `Fit` throws on their last ply (OldCatalogAgrees). Its `rowInc` for sides 1 and 3 points off the board (NoFitOnWhiteSides).
