# A verified model of the game server's item, money, time and protocol logic

This project models the parts of the server whose correctness rests on invariants that no single
function states: the heap of nested items and its cached weights, the queries that predict what a
move will do, three ways of writing that heap down and reading it back, a creature's walk cache,
money, the decay timing wheel, conditions and damage over time, trading, the database task queue
and the authenticator secret decoder. `dafny verify dfyconfig.toml` checks all of it.

Code that changes things step by step is modelled by classes, arrays and methods with loops. Each
such method is proved against a specification on values (a `State` of parents and contents, a byte
sequence, a grid, a step relation), and the promises are proved about that specification: for every
input, every reachable state or every run.

## How the modules fit together

* `Containment` - items and containers as objects with `parent`, `itemlist` and `totalWeight`. A
  `World` holds the live items and a ghost copy of the heap; `World.Valid` says that the copy
  mirrors the objects, that parents and contents form a forest, and that every cached weight is
  right (the ledger). Weights are 32-bit and wrap around, so the ledger holds without any
  assumption about overflow.
* `Transfer` - `queryAdd`, `queryMaxCount`, `queryRemove` and `queryDestination`, and the
  operations they guard, `internalAddItem`, `internalMoveItem` and `internalRemoveItem`, over the same heap.
* `MoveWeights` - what a move does to the cached weights.
* `Iteration` - `ContainerIterator` and the counts built on it.
* `PlayerItems` - the breadth-first rows of `saveItems` and the rebuild in `loadPlayer`.
* `ItemBytes` and `ItemStreams` - the recursive byte format of items: the specification on byte
  sequences with its round trip, and the methods over `PropStream` and `PropWriteStream` that are
  proved to compute it.
* `Otb` - the bracket-and-escape format of OTB files: the parser over a stack of nodes, proved to
  accept exactly the spellings of documents.
* `WalkCache` - the cache of walkable tiles, shifted in place.
* `Money`, `DecayWheel`, `DamageList`, `Conditions`, `Trade`, `DatabaseTasks`, `Base32` - one
  component each.
* `Runs` - short runs that reach the exceptional cases, and turns of a creature's conditions;
  `Basics` - what several modules share.

## What the code does that its reader may not expect

Each of these is stated by a lemma or an `ensures` clause, together with the exact condition under
which the expected behaviour holds.

* After a step south-east or south-west the first and last row of the walk cache show the
  neighbouring tile's answer: `getDistanceY` is an absolute value, so the branch for `dy < 0`
  never runs. All rows between them are exact, and the whole is if and only if those rows happen to
  repeat their neighbours (`WalkCache.SouthDiagonalStep`, with a concrete failure in
  `WalkCache.SouthDiagonalGoesWrong`).
* `addMoney` never returns when some denomination needs 65536 coins or more, because the count of
  coins is cut to 16 bits inside the loop (`Money.InnerLoopEnds`, `Money.Purse.RemoveMoney`). The
  endless loop makes at least one coin in every turn (`Money.MintsForever`).
* Saved items do not always come back as they were. An item holding a blank custom attribute cannot
  be loaded at all; action ids below 100 become 100; a spent item gets its charges back; strings
  longer than 65535 bytes become empty; some item ids are created as other ids; owners, unique ids,
  reflection and boosts are lost. An item other than a container that is loaded onto a tile, can
  decay and has time left is decaying again whatever its state was; one that can decay and has no
  time left decays at once; one that cannot decay loses the state TRUE to PENDING. Whether an item
  can decay depends on its own duration before that of its type. `ItemBytes.SameExactly` gives the
  exact condition for the parsed tree and `ItemBytes.LiveExactly` the one for the tree on its tile.
* The smallest well-formed OTB file, seven bytes long, is refused (`Otb.SmallestIsRefused`).
* A trade can be accepted by a player who has not offered anything. Once both have accepted, the
  server reads through the missing item if a handler for `onTradeAccept` or `onTradeCompleted` is
  registered, as it is in `data/events/events.xml`, or if the one offered item is the backpack its
  owner wears; only otherwise does the trade end with nothing exchanged (`Trade.Game.AcceptTrade`; the run
  `Runs.OfferOwnBackpack` reaches the backpack's case).
* A stack aimed at an equal one with automatic stacking switched off leaves the pieces that do not fit
  on it over, although the queries agreed to all of them, exactly when the container is full and its
  limit counts; if nothing fits on it, the stack is laid beside it over the capacity
  (`Transfer.InternalAddItem`; the run `Runs.ThirdStack` reaches both).
* A change of an item's type or the removal of an item refreshes the walk cache only for items that
  block; where walkability changed for another reason (a floor change or a teleport), the cache stays
  wrong (`WalkCache.Creature.OnTileChange`).
* A paralysis drives out haste and haste drives out paralysis only when a condition of a new sort is
  added; merging into a condition of the same sort does not (`Conditions.Creature.AddCondition`).

## Model

| member | source | states |
|---|---|---|
| `Containment.Item.UpdateItemWeight` | server/src/container.cpp:101-107 | the recursion up the parents ends, and changes exactly the caches of the container and everything around it, each by the difference, modulo 2^32 |
| `Containment.Item.GetThingIndex` | server/src/container.cpp:524-534 | the position of the thing, or -1 exactly when it is not here |
| `Containment.Item.AddThing` | server/src/container.cpp:410-429 | a detached item becomes the first content and its weight is added to every cache around it, or nothing happens beyond the last slot; forest and all cached weights stay right |
| `Containment.Item.AddItemBack` | server/src/container.cpp:431-440 | the item becomes the last content; forest and cached weights stay right although the weight is pushed after the insertion |
| `Containment.Item.InternalAddThing` | server/src/container.cpp:608-618 | the item becomes the first content whatever the capacity; forest and cached weights stay right |
| `Containment.Item.UpdateThing` | server/src/container.cpp:442-463 | type and sub type of something held here change as `setID` and `setSubType` say and nothing else does; cached weights stay right all the way up |
| `Containment.Item.ReplaceThing` | server/src/container.cpp:465-487 | the content at the position is exchanged for a detached item, the old one ends up detached; cached weights stay right although they are pushed halfway through |
| `Containment.Item.RemoveThing` | server/src/container.cpp:489-522 | part of a stack lowers its count (cut to 8 bits), anything else leaves the container; the caches of the container and of everything around it fall by what was taken, which for m pieces of a stack is m times the weight of one, and no other cache changes |
| `Containment.Item.Clone` | server/src/item.cpp:160-172 | a new detached item of the same type and attributes; no other item changes |
| `Containment.World.constructor` | server/src/container.h:116-116 | the empty heap is valid, so what every operation keeps holds over every run |
| `Containment.AttachKeepsForest` | server/src/container.cpp:410-429 | hanging a detached item below a container that is not inside it leaves a forest and the container's own chain as it was |
| `Containment.DetachKeepsForest` | server/src/container.cpp:489-522 | so does taking a content out |
| `Containment.LedgerRestored` | server/src/container.cpp:101-107 | pushing one difference up from a container that balances again restores every cache on the way and disturbs none beside it |
| `Containment.AttachKeepsLedger` | server/src/container.cpp:410-429 | pushing the weight of what was added leaves every cached weight right |
| `Containment.DetachKeepsLedger` | server/src/container.cpp:489-522 | pushing minus the weight of what was removed leaves every cached weight right |
| `Containment.EditKeepsLedger` | server/src/container.cpp:442-463 | pushing the difference of an item's own weight leaves every cached weight right |
| `Containment.ReplaceKeepsLedger` | server/src/container.cpp:465-487 | one push of the difference of two weights, made while both items still name the container as parent, leaves every cached weight right |
| `Containment.CacheIsRecomputation` | server/src/container.cpp:101-109 | in every valid world each cached weight equals the recursive sum over its contents, modulo 2^32 |
| `Containment.PiecesWeigh` | server/src/item.cpp:907-914 | a stack of a + b pieces weighs what a stack of a and a stack of b weigh together, modulo 2^32 |
| `Containment.PieceWeighs` | server/src/item.h:744-750 | one piece weighs what its weight attribute says, or else what its type weighs |
| `Containment.StackChanges` | server/src/item.cpp:907-914 | m pieces more or fewer change the weight of a stack by m times the weight of one |
| `Containment.CachesAreUnique` | server/src/container.cpp:101-109 | two ways of filling the caches of one forest that both balance are the same |
| `Containment.SetIDKeeps` | server/src/item.cpp:235-254 | a change of type keeps the count and every attribute but the decay state, the duration and the corpse's owner, and always forgets the last; when the time goes on, starts anew or is lost |
| `Containment.SubTypeReadsBack` | server/src/item.cpp:314-341 | a sub type of up to 255 reads back as it was set, and nothing else changes; a count forgets all beyond its eight bits |
| `Containment.ReducedExact` | server/src/container.cpp:500-507 | taking at most what is there leaves the difference, and taking more leaves nothing unless the 32-bit difference wraps round to a positive one |
| `Transfer.HoldsFromAbove` | server/src/container.cpp:216-239 | the upward walk ends and finds the item exactly when the item properly contains the container |
| `Transfer.GetTopParent` | server/src/item.cpp:275-292 | the container itself if it lies nowhere, and otherwise the one of its ancestors (or itself) that lies directly in the outermost |
| `Transfer.QueryAdd` | server/src/container.cpp:192-252 | the result for a container, including the recursion to its top parent, which never objects |
| `Transfer.QueryAddGuardsForest` | server/src/container.cpp:212-239 | for pickupable items the answer is THISISIMPOSSIBLE exactly when hanging the item there would leave parents that no ranking can order (a loop); an accepted add leaves a forest |
| `Transfer.QueryMaxCount` | server/src/container.cpp:254-304 | the loop over contents, whose position counter does not matter, adds up exactly the room on equal stacks, on top of the free slots |
| `Transfer.QueryRemove` | server/src/container.cpp:306-337 | no error exactly when the thing is here, moveable, and the count is positive and available |
| `Transfer.QueryDestination` | server/src/container.cpp:339-406 | exactly where an item aimed at a position goes: the parent for 254, a container lying there, the stack aimed at if it has room, else the first stack with room, else the position |
| `Transfer.FindStack` | server/src/container.cpp:393-402 | the first stack with room, or none exactly when there is none |
| `Transfer.InternalAddItem` | server/src/game.cpp:1317-1399 | succeeds exactly when the queries agree, at the destination they name; on success the destination gains exactly the item's count less `remainderCount`, no other container and no other type changes, and a remainder is left exactly when automatic stacking is off, the equal stack aimed at took some but not all, and the container is full and limited; a plain stackable add succeeds if and only if the count is at most free slots times stack size plus the room on equal stacks; a limited add goes over the capacity exactly when the container is full and a new stack is laid, which no add without flags or position does; failure and test mode change nothing; stacks stay within their size; the recursion ends; what is new in the destination has the item's type and attributes, what was there keeps its lasting attributes and loses nothing, only contents equal to the item are touched at all, and the stack aimed at takes as much as fits; the code on failure is that of the first query that objects |
| `Transfer.CheckAdd` | server/src/game.cpp:1324-1344 | the queries of an add; when they agree, an item meets an equal stack only in the container aimed at, and its pieces fit there |
| `Transfer.AddChecked` | server/src/game.cpp:1349-1390 | the mutation after the queries: merge or attach, gaining every piece that is not reported as remainder |
| `Transfer.MergeStack` | server/src/game.cpp:1349-1371 | the stack aimed at is filled and the rest goes through the whole procedure again; the gains and the remainder add up to the count |
| `Transfer.AddRest` | server/src/game.cpp:1355-1371 | the rest is added in full, as the item itself when nothing went onto the stack and as a copy otherwise, or, exactly when a full and limited container is not searched for stacks, reported in full as remainder |
| `Transfer.FittingPasses` | server/src/game.cpp:1359-1364 | an add of at most the capacity, at no particular position, passes both queries unless a full and limited container is not searched for stacks, so the recursive add fails in that case only |
| `Transfer.ResolveDestination` | server/src/game.cpp:1110-1121 | the loop of redirections ends after at most one, which is then aimed nowhere in particular and without flags |
| `Transfer.CheckMove` | server/src/game.cpp:1130-1218 | the queries of a move let it through exactly when the destination takes the item, the source gives it, at least one piece fits and is there, and it does not end inside what is being traded; and the amount is min(count, limit) |
| `Transfer.InternalMoveItem` | server/src/game.cpp:1096-1308 | for every type and container the total over source and destination is preserved whatever code is returned; the move happens exactly when its checks pass, moves exactly min(count, limit) of a stackable item or the whole of any other, reports an error exactly when it moved less than asked, and never takes the destination over capacity; the heap and all data after the move are given in full: what fits goes onto the stack aimed at, the rest is laid at the front as a copy with the same type and attributes or, if it does not stack, as the item itself |
| `Transfer.Relocate` | server/src/game.cpp:1220-1254 | removal, merge and new stack together transfer exactly the amount, and leave exactly the heap and the data that `TakenOut` and `Deposited` describe; forest, weights and stack sizes stay right in between and after |
| `Transfer.PutStack` | server/src/game.cpp:1225-1254 | of m pieces as many as fit go onto an equal stack aimed at, and a copy of the item holding exactly the others is laid at the front; no other item is touched |
| `Transfer.WhatLands` | server/src/game.cpp:1220-1254 | whatever is new in the destination is of the moved item's type and attributes, all items but the moved one and the stack aimed at keep their data in full, those two keep their kind, and no other item changes its place |
| `MoveWeights.MoveShiftsWeight` | server/src/game.cpp:1220-1254 | after every move the caches around the source are lower by what was moved (m times the weight of a piece, or the item with its contents), those around the destination higher by it, and all others as before, modulo 2^32; a split or a merge inside one container changes no cache |
| `MoveWeights.MoveAndWeigh` | server/src/game.cpp:1096-1308 | the same read off the cached weights of the objects around a call of `internalMoveItem`; a move that does not happen changes none |
| `Transfer.InternalRemoveItem` | server/src/game.cpp:1401-1439 | succeeds exactly when the item lies somewhere, may be removed, and the count is positive and there; then exactly that count leaves its container and no other count changes, and an item removed whole ends up detached; failure and test mode change nothing |
| `Transfer.LossAndGain` | server/src/game.cpp:1220-1254 | a loss in one container followed by an equal gain in another changes no other container and no other type |
| `Transfer.FillLowersCapacity` | server/src/game.cpp:1349-1355 | filling one stack lowers the remaining capacity by exactly what it took, so the recursive add still fits |
| `Transfer.LayLowersCapacity` | server/src/container.cpp:254-304 | laying a stack into a free slot lowers the capacity by the pieces of one slot, less the room that is left on the stack |
| `Transfer.CapacityIsMost` | server/src/container.cpp:254-304 | no gain of pieces equal to the item that stays within the slots and the stack size can be larger than the capacity the queries compute: what they refuse would not fit in any arrangement |
| `Iteration.ContainerIterator.Advance` | server/src/container.cpp:651-669 | one step visits one more item; when nothing is left, the visited items are all nested items, each once, in breadth-first order |
| `Iteration.ContainerIterator.Current` | server/src/container.cpp:649-649 | the current item has not been visited before |
| `Iteration.NextIsNew` | server/src/container.cpp:639-669 | no nested item can come up twice |
| `Iteration.Finished` | server/src/container.cpp:639-669 | an empty work list means that everything nested at any depth was visited |
| `Iteration.GetItemHoldingCount` | server/src/container.cpp:119-126 | the number of proper descendants; the loop ends |
| `Iteration.IsHoldingItem` | server/src/container.cpp:128-136 | true exactly for proper descendants |
| `PlayerItems.SaveItems` | server/src/iologindata.cpp:605-659 | for every forest the rows are numbered 101, 102, ... , every parent before its children, and list the contents of every container under its number, in order; the growing work list ends |
| `PlayerItems.SaveContainer` | server/src/iologindata.cpp:634-657 | one round of the work list writes exactly one container's contents and queues the containers among them |
| `PlayerItems.CreateItems` | server/src/iologindata.cpp:989-1011 | one detached item for every row, in a map sorted by number, whatever order the rows come in |
| `PlayerItems.Rebuild` | server/src/iologindata.cpp:473-501 | walking the numbers downwards and adding at the front gives every container its rows' items in ascending order; every cached weight is right because children arrive before their parent is hung up |
| `PlayerItems.IncreasingIsUnique` | server/src/iologindata.cpp:1002-1009 | the sorted map forgets nothing but the order in which rows were returned |
| `PlayerItems.RebuiltTree` | server/src/iologindata.cpp:473-564 | every rebuilt item has the same type, count, attributes and contents at every depth as the item it was saved from |
| `PlayerItems.ForestRoundTrip` | server/src/iologindata.cpp:473-564 | the items under every slot number are the same trees in the same order, for any order of the rows returned |
| `PlayerItems.SaveAndReload` | server/src/iologindata.cpp:605-659 | saving any forest and rebuilding it in another world gives equal trees in every slot, and both worlds stay valid |
| `WalkCache.Creature.UpdateTileOffset` | server/src/creature.cpp:328-334 | one cell is set and no other; offsets out of range change nothing |
| `WalkCache.Creature.UpdateTileCache` | server/src/creature.cpp:336-344 | the cell of that tile, if on this floor and in range, is read afresh; no other changes |
| `WalkCache.Creature.UpdateMapCache` | server/src/creature.cpp:312-326 | afterwards every cell shows what the map says |
| `WalkCache.Creature.AnswersLikeTheMap` | server/src/creature.cpp:346-372 | with an exact cache, `getWalkCache` answers 1 exactly for the creature's own tile and for walkable tiles in range on its floor, 2 exactly for tiles of its floor that are out of range or when there is no cache, and 0 for all others |
| `WalkCache.Creature.MoveRows` | server/src/creature.cpp:516-540 | the in-place row shift and the edge row, as a function of the old cache |
| `WalkCache.Creature.MoveColumns` | server/src/creature.cpp:542-588 | the in-place column shift over part of the rows and the edge column, as a function of the old cache |
| `WalkCache.Creature.OnOwnMove` | server/src/creature.cpp:505-592 | for all half-widths and half-heights from 1: an exact cache stays exact over every step, teleport and change of floor that is not a diagonal step south; after one of those every cell is known, and the cache is exact if and only if the first and last row happen to show the right answers |
| `WalkCache.Creature.OnOtherMove` | server/src/creature.cpp:593-605 | another creature's move keeps an exact cache exact |
| `WalkCache.Creature.OnTileChange` | server/src/creature.cpp:374-406 | after a change of the items on a tile an exact cache stays exact if and only if it is refreshed, does not cover the tile, or the tile's answer did not change |
| `WalkCache.Creature.OnAddTileItem` | server/src/creature.cpp:374-379 | an added item always leaves it exact |
| `WalkCache.Creature.OnUpdateTileItem` | server/src/creature.cpp:381-393 | a changed item leaves it exact if and only if the old or the new type blocks, or the change does not matter |
| `WalkCache.Creature.OnRemoveTileItem` | server/src/creature.cpp:395-406 | a removed item leaves it exact if and only if its type blocks or is the ground, or the change does not matter |
| `WalkCache.Creature.LoadMap` | server/src/creature.cpp:408-414 | the cache is exact from its first loading |
| `WalkCache.StepKeepsExact` | server/src/creature.cpp:505-592 | shift and edge read refine a full rescan for steps N, E, S, W, NE and NW, for all half-widths and half-heights from 1 |
| `WalkCache.SouthDiagonalStep` | server/src/creature.cpp:505-592 | for all half-widths and half-heights from 1: after a step SE or SW every cell outside the first and last row is exact, each of those rows shows the neighbouring tile (one cell of a cache three rows high shows what it held for the creature's own tile), and the whole is exact if and only if what is shown agrees |
| `WalkCache.SouthDiagonalGoesWrong` | server/src/position.h:50-50 | for every such step there is an unchanging map, walkable where the creature stands before and after, on which an exact cache becomes wrong |
| `Otb.StartChild` | server/src/fileloader.cpp:50-64 | a START byte ends the parent's properties at its first child, and the new node is the last child of the innermost open one |
| `Otb.EndNode` | server/src/fileloader.cpp:65-72 | an END byte closes the innermost node, whose children and property range are then final |
| `Otb.ParseTree` | server/src/fileloader.cpp:37-89 | accepts exactly the spellings of a document followed by text, each stacked node always being the last child of the one below, and builds a tree of that document with the right property ranges |
| `Otb.RunIsSound` | server/src/fileloader.cpp:37-89 | whatever is accepted was properly nested: re-rendering what was parsed gives the bytes back |
| `Otb.RunIsComplete` | server/src/fileloader.cpp:37-89 | every document is accepted and parsed as itself |
| `Otb.SpellingIsUnique` | server/src/fileloader.cpp:37-89 | no byte sequence spells two documents |
| `Otb.GetProps` | server/src/fileloader.cpp:91-107 | the bytes of the node's range with the escape marks filtered out; false exactly for an empty range |
| `Otb.KeptText` | server/src/fileloader.cpp:91-107 | that filter inverts the escaping of any payload, also of escaped escape bytes |
| `Otb.EncodeMeans` | server/src/fileloader.h:14-38 | escaping a tree of types, payloads and ordered children loses nothing |
| `Otb.ParsedShows` | server/src/fileloader.cpp:91-107 | `getProps` on every node of a parsed tree gives the payload of the corresponding node of the document |
| `Otb.Load` | server/src/fileloader.cpp:14-89 | a file loads exactly when it is longer than seven bytes, carries the accepted or the wildcard identifier and spells a document; the tree read is the only one it spells |
| `Otb.SmallestIsRefused` | server/src/fileloader.cpp:16-19 | the only well-formed document the length check turns away is the single empty node |
| `Otb.WriteThenLoad` | server/src/fileloader.cpp:14-107 | writing any tree and loading it gives the same types, payloads and children in order, unless it is that single empty node |
| `ItemBytes.LeIsModulo` | server/src/fileloader.h:119-124 | a little-endian write keeps the value modulo its width |
| `ItemBytes.ReadWritten` | server/src/fileloader.h:65-76 | a read undoes a write up to truncation to the width and signedness, and consumes just its bytes |
| `ItemBytes.ReadWrittenString` | server/src/fileloader.h:78-94 | so does `readString` for `writeString`; longer strings come back empty |
| `ItemBytes.RowReads` | server/src/item.cpp:343-722 | reading what `serializeAttr` wrote under one tag is one setter call |
| `ItemBytes.EntriesRead` | server/src/item.h:210-255 | custom attributes are read back in full unless one of them is blank, which fails |
| `ItemBytes.LoadSaved` | server/src/iomapserialize.cpp:94-145 | for every nested item and any bytes after it, parsing the bytes of `saveItem` succeeds exactly when no custom attribute in the tree is blank, consumes exactly those bytes, and gives back the tree with contents in order (before any decaying starts) |
| `ItemBytes.KidsLoad` | server/src/iomapserialize.cpp:94-112 | the contents, saved in reverse and added at the front, come back in their order |
| `ItemBytes.AttrBack` | server/src/item.cpp:724-872 | the value every attribute of the loaded item has, in closed form |
| `ItemBytes.SurvivesExactly` | server/src/item.cpp:743-872 | an attribute comes back unchanged if and only if its value passes a check made on the saved item alone |
| `ItemBytes.CustomBack` | server/src/item.h:210-255 | the custom attributes come back unchanged if and only if there are none or some, but not an empty table, with no string too long |
| `ItemBytes.SameExactly` | server/src/iomapserialize.cpp:114-137 | as parsed, before its decaying starts, a whole tree is unchanged if and only if every item in it passes those checks, carries neither reflection nor boosts, and is created under its own id |
| `ItemBytes.LiveExactly` | server/src/iomapserialize.cpp:114-145 | loaded onto a tile, with its decaying started, a whole tree is unchanged and nothing in it decays at once if and only if every item that can decay (judged by its own target and duration before those of its type) was decaying with time left and every other value survives |
| `ItemStreams.PropWriteStream.Write` | server/src/fileloader.h:119-124 | appends the little-endian bytes |
| `ItemStreams.PropWriteStream.WriteString` | server/src/fileloader.h:126-136 | appends length and bytes, or length 0 for a string that is too long |
| `ItemStreams.PropStream.Read` | server/src/fileloader.h:65-76 | reads and advances, or fails and stays |
| `ItemStreams.PropStream.ReadString` | server/src/fileloader.h:78-94 | reads a string and advances past it, or fails |
| `ItemStreams.SerializeAttr` | server/src/item.cpp:743-872 | appends exactly the specified attribute bytes |
| `ItemStreams.SaveItem` | server/src/iomapserialize.cpp:197-215 | appends exactly the specified bytes of the item tree |
| `ItemStreams.ReadAttr` | server/src/item.cpp:343-722 | reads one attribute under any tag as specified, reflection, boosts and custom attributes in loops |
| `ItemStreams.UnserializeAttr` | server/src/item.cpp:724-741 | reads attributes up to the end mark or the contents as specified |
| `ItemStreams.LoadItem` | server/src/iomapserialize.cpp:114-137 | parses an item tree as specified and leaves the cursor behind it |
| `ItemStreams.StartDecaying` | server/src/container.cpp:620-625 | the walk over a tree just put down marks exactly the items in it that can decay and have time left, passing over containers themselves, and tells whether some item decays at once |
| `ItemStreams.LoadOntoTile` | server/src/iomapserialize.cpp:114-145 | parsing followed by the start of decaying, which only the outermost call of the recursion effects |
| `ItemStreams.LoadContainer` | server/src/iomapserialize.cpp:94-112 | reads the announced number of contents, each added at the front, and the end mark |
| `ItemStreams.SaveThenLoad` | server/src/iomapserialize.cpp:94-215 | saved to one stream and loaded onto a tile from another: success exactly for readable trees, the bytes after it untouched, and the same tree with nothing decayed exactly under the condition of `ItemBytes.LiveExactly` |
| `Money.InnerLoopEnds` | server/src/game.cpp:1604-1615 | the loop that hands out stacks of at most 100 ends if and only if the count of coins is below 65536 |
| `Money.MintsForever` | server/src/game.cpp:1604-1615 | a loop that does not end makes at least one coin in every turn, as an item created with count 0 gets count 1 |
| `Money.MintsExactly` | server/src/game.cpp:1604-1615 | a loop that ends has made exactly the coins asked for |
| `Money.MakeStacks` | server/src/game.cpp:1604-1615 | full stacks of 100 coins followed by the rest, added behind what was made before, and worth together exactly the denomination's share |
| `Money.AddMoney` | server/src/game.cpp:1589-1617 | runs forever exactly when some denomination in turn gets 65536 coins or more; otherwise the stacks and what the smallest denomination leaves are worth exactly the amount |
| `Money.ChangeIsExact` | server/src/game.cpp:1589-1617 | nothing is left when a coin worth 1 exists and no number of coins outgrows 32 bits |
| `Money.SmallChangeEnds` | server/src/game.cpp:1589-1617 | it ends, with nothing left, when neighbouring denominations and the amount are at most a factor of 65536 apart |
| `Money.SingleDenomination` | server/src/game.cpp:1589-1617 | with a coin worth 1 alone it works if and only if the amount is below 65536 |
| `Money.Purse.Scan` | server/src/game.cpp:1520-1563 | the map of stacks by worth is complete, sorted, without repetition, and its sum is the purse's total |
| `Money.Purse.RemoveMoney` | server/src/game.cpp:1510-1587 | true exactly when the purse holds enough, false leaves it untouched; when it returns, the coins left and the change are worth exactly the amount less than before; cheaper stacks go first, whole, and one stack at most is broken, whose change is worth less than one of its coins |
| `Money.Purse.BreakStack` | server/src/game.cpp:1574-1580 | the change is worth less than a coin of the broken stack, so none of it can merge into that stack |
| `Money.CoinsToBreak` | server/src/game.cpp:1575-1576 | the fewest coins of the stack that cover the rest |
| `DecayWheel.ExtraIs` | server/src/game.cpp:4693-4714 | the number of further ticks after an item's next visit, in closed form |
| `DecayWheel.FiledIsDue` | server/src/game.cpp:4742-4764 | an item filed with duration d decays after one tick if d < 1000 and otherwise after 4*(d/1000) ticks, plus one more exactly when d%1000 >= 875 |
| `DecayWheel.Punctual` | server/src/game.h:57-58 | so with ticks of 250 ms it is never late and less than 875 ms early from a second on, and late below 250 ms only |
| `DecayWheel.Wheel.StartDecay` | server/src/game.cpp:4642-4660 | queues an item that is not yet decaying and has time left; one with none decays at once |
| `DecayWheel.Wheel.Cleanup` | server/src/game.cpp:4742-4764 | empties the queue into the buckets and moves nothing else |
| `DecayWheel.Wheel.VisitItem` | server/src/game.cpp:4684-4714 | a visit drops, decays, moves or keeps the item so that its due time is met; no other item is touched |
| `DecayWheel.Wheel.CheckDecay` | server/src/game.cpp:4676-4719 | every decayable item decays in this tick exactly if it was one tick from being due, and otherwise comes one tick closer, whatever else is in the buckets; each item stays in one list, once |
| `DecayWheel.Wheel.RunUntilDecay` | server/src/game.cpp:4642-4764 | over any run of ticks, with other items starting to decay and the queue being emptied in between, an item decays in exactly the tick its filing promised |
| `DamageList.GenerateDamageList` | server/src/condition.cpp:1629-1647 | ends; the list never increases and holds every value from start down to 1 and no other; its total is between the amount and the amount plus start*(start+1)/2; and at each value the running total is the one nearest to that value's share of the amount |
| `DamageList.DealValue` | server/src/condition.cpp:1639-1645 | the inner loop stops at the first repetition that does not bring the running total nearer to its target |
| `DamageList.NearerMeans` | server/src/condition.cpp:1643-1645 | the test on quotients decides exactly whether twice the missing amount exceeds the value |
| `DamageList.ConditionDamage.AddDamage` | server/src/condition.cpp:1360-1390 | appends the rounds with pauses of at least the think interval and lengthens the condition by them; refuses during periodic damage |
| `DamageList.ConditionDamage.Init` | server/src/condition.cpp:1392-1419 | from an empty list, the hits cover the drawn amount within that bound and the condition lasts one pause for each; the first hit is the one given, cut to the greatest damage, or a twentieth of the amount if none is given |
| `DamageList.ConditionDamage.Twentieth` | server/src/condition.cpp:1409-1410 | the least number, but at least 1, of which twenty make up the amount |
| `DamageList.ConditionDamage.GetTotalDamage` | server/src/condition.cpp:1577-1587 | the absolute value of the sum of all hits, or of the middle of the range before there are any |
| `Conditions.Creature.ChangeSpeed` | server/src/game.cpp:3824-3829 | the speed modifier grows by the difference |
| `Conditions.Creature.StartCondition` | server/src/condition.cpp:340-346 | the modifiers grow by exactly the effect the condition then records; a timed condition without an end gets one, its time after now, and any other keeps its end |
| `Conditions.Creature.EndCondition` | server/src/condition.cpp:600-636 | they shrink by exactly the recorded effect |
| `Conditions.Creature.RefreshSpeed` | server/src/condition.cpp:1748-1777 | the old effect is replaced by the new one, in the creature and in the record alike, unless a permanent condition meets a timed one; time and end are then those of the new one |
| `Conditions.Creature.RefreshAttributes` | server/src/condition.cpp:419-444 | the same for attributes, whenever the new condition lasts at least as long; time and end are then those of the new one |
| `Conditions.TakesOverExactly` | server/src/condition.cpp:363-378 | a condition takes over the time of a new one exactly when that does not bring its end nearer and does not make a permanent one temporary; a change of speed gives way whatever its end |
| `Conditions.Creature.AddCondition` | server/src/creature.cpp:1195-1225 | the ledger holds: modifiers equal base plus the sum of the active conditions' effects; exactly when the condition is added, put off or refused; one of a sort already active is merged into it, any other goes to the end of the list and drives out its opposite; the resulting list and every effect afterwards are given; a started paralysis leaves no haste in force, and a started haste no paralysis unless that must wait; when every condition ends afterwards: the added one by its own time, one that took over the values by the new time, all others as before |
| `Conditions.Creature.OnAddCondition` | server/src/creature.cpp:1063-1070 | exactly the conditions of the opposite type go, in order, if one is in force, unless the creature is a monster or a paralysis must wait |
| `Conditions.Creature.HasCondition` | server/src/creature.cpp:1374-1391 | true exactly when a condition of the type without a sub id has not run out and the type is not suppressed |
| `Conditions.Creature.RemoveConditions` | server/src/creature.cpp:1240-1266 | exactly the conditions of the type go and the others stay in order, unless paralysis must wait, and the ledger holds |
| `Conditions.Creature.EraseAt` | server/src/creature.cpp:1310-1331 | one condition leaves the list and the ledger still holds |
| `Conditions.Creature.Execute` | server/src/condition.cpp:181-190 | the time left falls by the interval, down to 0, unless there is no end; the end stays, and the condition goes on exactly when it has not come |
| `Conditions.Creature.ExecuteConditions` | server/src/creature.cpp:1353-1372 | exactly the conditions without an end or whose end has not come stay, ends do not change, the time left of each falls by the interval, and the ledger holds |
| `Conditions.Creature.BackToBase` | server/src/condition.cpp:1746-1746 | with no condition left every modifier is what it was before the first |
| `Conditions.TotalUpdate` | server/src/condition.cpp:1748-1777 | exchanging one condition's effect changes the sum by the difference |
| `Trade.Game.AlreadyTraded` | server/src/game.cpp:2728-2763 | finds exactly the items that are on offer, contain one that is, or lie inside one |
| `Trade.Game.RequestTrade` | server/src/game.cpp:2656-2775 | a trade starts exactly when the partner differs, the item is free in that sense and not more than 100 items, and both desks allow it; the one who asks has then not accepted, whatever it did before; refusal changes nothing |
| `Trade.Game.InternalStartTrade` | server/src/game.cpp:2777-2808 | both players then name each other, the item is on offer, and the partner is asked or the counter-offer completes; a new offer takes back its maker's acceptance and nobody else's |
| `Trade.Game.AcceptTrade` | server/src/game.cpp:2810-2932 | for every state of both desks: ignored, agreed, or settled with both desks cleared and both offers withdrawn; a missing item is read through, after which nothing is promised, exactly when the players reach each other and a handler is registered or the one offered item is its owner's worn backpack; items change hands only if both sides offered one; over every run a player is ignored exactly when it trades with nobody or has accepted since its own last offer, and anything but a mere agreement needs the partner to have accepted since its own |
| `Trade.Game.InternalCloseTrade` | server/src/game.cpp:3015-3062 | clears both desks and withdraws exactly their two offers |
| `Trade.StartKeeps` | server/src/game.cpp:2777-2808 | starting keeps the protocol's invariant: partners are mutual and never oneself, NONE means no partner, ACKNOWLEDGE means no item, INITIATED means one, the offers are exactly the players' items, each once, and no offered item contains another |
| `Trade.AgreeKeeps` | server/src/game.cpp:2810-2829 | accepting while waiting for the other keeps it |
| `Trade.PartKeeps` | server/src/game.cpp:3015-3062 | parting keeps it, whatever the two had offered |
| `Trade.AgreeRecords` | server/src/game.cpp:2810-2829 | accepting keeps the state ACCEPT for exactly the players who have accepted since their own last offer |
| `Trade.StartRecords` | server/src/game.cpp:2777-2808 | a new offer keeps that too, with its maker no longer among them |
| `Trade.PartRecords` | server/src/game.cpp:3015-3062 | so does parting, with neither of the two among them |
| `DatabaseTasks.InitInv` | server/src/databasetasks.cpp:12-16 | the started queue satisfies the invariant |
| `DatabaseTasks.NextInv` | server/src/databasetasks.cpp:18-90 | every step of the worker, of any producer, of any flusher and of a shutdown keeps the whole invariant |
| `DatabaseTasks.StepFifo` | server/src/databasetasks.cpp:27-30 | what was popped followed by what is queued is always what was accepted, in order |
| `DatabaseTasks.StepLocked` | server/src/databasetasks.cpp:18-52 | exactly the thread at a place inside the critical section holds the lock |
| `DatabaseTasks.StepHanded` | server/src/databasetasks.cpp:27-34 | each popped task is in the hands of the one thread that popped it until it has run |
| `DatabaseTasks.StepWakes` | server/src/databasetasks.cpp:41-51 | while the worker waits and the queue is not empty, some thread is about to notify |
| `DatabaseTasks.StepShut` | server/src/databasetasks.cpp:83-90 | after TERMINATED no thread is admitted and once the last flush is over the queue is empty |
| `DatabaseTasks.RunInv` | server/src/databasetasks.cpp:18-90 | so the invariant holds in every state of every run, for any number of threads |
| `DatabaseTasks.PoppedInOrder` | server/src/databasetasks.cpp:18-81 | over any run, tasks are popped once each in the order of acceptance, and none is accepted after TERMINATED |
| `DatabaseTasks.AcceptedExactly` | server/src/databasetasks.cpp:38-52 | over any run the accepted tasks are exactly those whose `addTask` saw the queue running, in the order of the lock, except one that is just being stored; a task is turned away only when its check saw another state |
| `DatabaseTasks.EmptyForGood` | server/src/databasetasks.cpp:83-90 | once the flush of a shutdown has returned, the queue stays empty for the rest of the run |
| `DatabaseTasks.NothingForgotten` | server/src/databasetasks.cpp:18-52 | when the worker waits and all others are idle, every accepted task has run: no wake-up is lost |
| `DatabaseTasks.AddTaskRuns` | server/src/databasetasks.cpp:38-52 | a thread let through takes three steps to store its task while the queue is running, and is to notify exactly if the queue was empty |
| `DatabaseTasks.WorkerRuns` | server/src/databasetasks.cpp:18-36 | the worker let through pops and runs the oldest task in five steps |
| `DatabaseTasks.WorkerSleepsAndWakes` | server/src/databasetasks.cpp:23-25 | the worker goes to sleep on an empty queue and a notification wakes it |
| `DatabaseTasks.FlushReturnsEmpty` | server/src/databasetasks.cpp:71-81 | a flush, plain or of a shutdown, returns only when it has seen the queue empty |
| `DatabaseTasks.FlushEmpties` | server/src/databasetasks.cpp:71-81 | a flush let through runs every queued task, in order, and returns with the queue empty |
| `DatabaseTasks.ShutdownRuns` | server/src/databasetasks.cpp:83-90 | a shutdown let through terminates the queue and comes to its flush |
| `Base32.DecodeSecret` | server/src/iologindata.cpp:31-58 | the whole bytes at the front of the bits the characters spell, computed in a 32-bit buffer that wraps; empty for any character outside the alphabet |
| `Base32.ShiftedBits` | server/src/iologindata.cpp:39-43 | the wrapping shift keeps every bit that is still to be used |
| `Base32.TakeByte` | server/src/iologindata.cpp:50-54 | the byte cut out of the buffer is the oldest eight of those bits |
| `Base32.EncodedBits` | server/src/iologindata.cpp:31-58 | the unpadded encoding of section 6 of RFC 4648 spells the bits followed by fewer than five zeros |
| `Base32.DecodeEncode` | server/src/iologindata.cpp:31-58 | decoding the encoding of any byte string gives that byte string |
| `Base32.LeftOverBits` | server/src/iologindata.cpp:31-58 | fewer than eight bits of a secret are ever dropped |
| `Runs.OfferOwnBackpack` | server/src/game.cpp:2864-2868 | from an empty world, three calls lead to a read through a missing item although no handler is registered |
| `Runs.ThirdStack` | server/src/game.cpp:1349-1390 | from an empty world, an add that the queries agree to leaves pieces over, or goes over the capacity |
| `Runs.AddedLasts` | server/src/condition.cpp:181-190 | a timed condition without an end that is added at some time and left alone is still there after any turns exactly when none of them comes after that time plus its ticks; one without an end always is |
| `Runs.RefreshedLasts` | server/src/condition.cpp:174-179 | after an accepted refresh the same holds with the time of the new condition |
| `Runs.Turns` | server/src/creature.cpp:1353-1372 | over any sequence of turns a condition leaves exactly when a turn comes after its end |

## Left out

Items and containers:

- House invitations and the `actor` checks, scripts, events, spectator notifications, reference counts
  and the release of items are not modelled; an item that was merged away simply stays detached.
- The insertions into the decay list in `internalAddItem` and `Item::clone`, and the decay state TRUE
  that both give an item with time left.
- Destinations are plain containers: the overrides in players, tiles and depots, and the NEEDEXCHANGE path, are not modelled.
- `Transfer` assumes of the item types that stackable types are not fluids and that stack sizes are
  at most 255, and keeps as an invariant that no stack exceeds its type's size.
- Transfer.InternalAddItem: the flag CHILDISOWNER, which only queries pass to each other, is excluded. As
  the decay state TRUE of copies is not modelled, the results for stacks hold for items without a
  duration; the copy of a stack with time left can stop equalling the other stacks halfway.
- Transfer.AddRest: the same holds for the copy it makes.
- Transfer.CheckMove: NOLIMIT and CHILDISOWNER moves are excluded, as in `InternalMoveItem`.
- Containment.Item.Clone: the decay state TRUE of a copy with time left, and the default duration that a
  copy of an item without any attributes draws, are not modelled (items with a default duration draw it when they are made, so they have attributes), nor
  is the exchange of a few ring and boot ids on creation, which are not stackable.
- MoveWeights.MoveAndWeigh: speaks of stacks of at least one piece, as an empty stack weighs as much as one
  piece, and takes it that nothing both stacks and contains items.
- Transfer.InternalMoveItem: NOLIMIT moves are excluded, as they may exceed the capacity on purpose.
- Weights are exact modulo 2^32; counts are exact where the source cuts to 8 or 16 bits.
- PlayerItems.SaveItems: the column of attribute bytes is carried as data (its round trip is in
  `ItemBytes`), rows that the database refuses and the 32-bit width of the running number are not modelled.
- PlayerItems.CreateItems: an id that names no item type, and ids that are created as other ids, are
  in `ItemBytes` only.
- `Container::addItem`, which appends without adding the weight, is used for map loading only and is not modelled.

Files and bytes:

- Otb.ParseTree: nodes are objects held by reference; that a growing vector of children may move
  nodes in memory is not modelled.
- `ItemBytes` covers plain items and containers; teleports, beds, doors, depots, mailboxes and other
  special classes override the reading and writing of attributes.
- ItemStreams.LoadItem: the branch for stationary items of a tile is not modelled; the parent is a container or the item is moveable.
- ItemStreams.LoadOntoTile: what `internalDecayItem` makes of an item that decays at once is not
  modelled; `lasts` is false then, and the tree is given as it was handed over.
- ItemStreams.ReadAttr: a unique id read is taken as free in the server's register of unique items.
- ItemBytes.CustomBack: the custom table is an association list in the order it is written; the order
  in which a hash table visits its entries after a reload is not modelled.
- Custom numbers with a fraction are kept as their eight bytes.

Creatures:

- Coordinates do not wrap at 16 bits; a missing tile counts as not walkable.
- Walkability changes only at the tiles a creature left and entered, and at a tile whose items changed.
- Experience rates in attribute conditions, percentages and random draws (they enter as parameters),
  conditions set up from scripts, and other callers of `changeSpeed` are not modelled; conditions of other kinds are carried with no effect on the modifiers.
- Conditions.Creature.ExecuteConditions: a condition's own turn does not add or remove other conditions,
  and conditions of other kinds end by their time only.
- Conditions.Creature.AddCondition: that a haste put off by paralysis is added later is not modelled; a call of its own adds it.
- DamageList.GenerateDamageList: quotients are exact reals instead of floats, and integers do not overflow.
- The serialization of conditions is left out: writer and reader disagree about widths and tags.

Money and time:

- Money.Purse.RemoveMoney: assumes that the worth of each stack is below 2^32, the width it is
  computed in, that coins can be removed and that change finds a place; merging change into other
  stacks is left to `Transfer`. Worths are exact integers instead of doubles.
- DecayWheel.Wheel.CheckDecay: what decay turns an item into enters as the duration it starts over
  with; items enter the wheel through `startDecay` only.

Protocols:

- DatabaseTasks.NextInv: each step between two lock operations is atomic, running a task has no
  effect of its own, and a queue is not started again after a shutdown. That the worker ends after a
  shutdown is not claimed: it tests the state outside the lock.
- Trade.Game.RequestTrade: distance, sight and the checks of event handlers enter as one condition.
- Trade.Game.AcceptTrade: whether the players reach each other, the handlers' answer, the worn
  backpacks and whether the items can be exchanged enter as a value; the exchange itself is a
  removal and an addition as in `Transfer`, and the forest is fixed while items are on offer.
- Base32.DecodeSecret: the bitwise OR is an addition, as the bits it joins never overlap.

Actions, chat, bans, configuration, registration of events, groups, mounts, networking and the
database itself are tables, text or foreign code and would only add easy members.
