/**
 Moving and adding items between plain containers: the queries that predict whether a container
 can take an item (server/src/container.cpp) and the game operations that then change both
 containers (server/src/game.cpp). No scripts run, and no actor restricts house items.
 */
module Transfer {
  import opened Containment

  datatype ReturnValue =
    | NoError | NotPossible | CannotPickup | ThisIsImpossible | ContainerNotEnoughRoom | NotMoveable | NotEnoughRoom

  datatype Flags = Flags(noLimit: bool, childIsOwner: bool, ignoreNotMoveable: bool, ignoreAutoStack: bool)

  const NO_FLAGS := Flags(false, false, false, false)
  const INDEX_WHEREEVER: int := -1
  const MAP_MAX_LAYERS: nat := 16

  // ----- Stacks -----

  function StackSize(types: Types, c: Cell): nat
  {
    if types(c.id).stackable then types(c.id).stackSize else 1
  }

  /** What tells one pile of goods from another: the type and the attributes. */
  datatype Kind = Kind(id: nat, attrs: Attributes)

  function KindOf(c: Cell): Kind
  {
    Kind(c.id, c.attrs)
  }

  /** Item::equals on two items and their data. */
  predicate Equal(i: Item, c: Cell, j: Item, d: Cell)
  {
    c.id == d.id && c.attrs == d.attrs && (c.attrs.custom ==> i == j)
  }

  /**
   Every stack is within its type's stack size, which is an 8-bit number, and types do not mix
   stacks with fluids. An invariant of the operations below.
   */
  ghost predicate Stacked(types: Types, cell: map<Item, Cell>)
  {
    forall i {:trigger cell[i]} :: i in cell && types(cell[i].id).stackable ==>
      && !types(cell[i].id).fluidOrSplash
      && cell[i].count <= types(cell[i].id).stackSize <= 255
  }

  /** How much of `item` fits on top of the stack `i`. */
  function RoomAt(types: Types, cell: map<Item, Cell>, i: Item, item: Item): nat
  {
    if i in cell && item in cell && i != item && Equal(i, cell[i], item, cell[item])
       && cell[i].count < StackSize(types, cell[i])
    then StackSize(types, cell[i]) - cell[i].count
    else 0
  }

  function Rooms(types: Types, cell: map<Item, Cell>, list: seq<Item>, item: Item): (r: seq<int>)
    ensures |r| == |list|
  {
    seq(|list|, k requires 0 <= k < |list| => RoomAt(types, cell, list[k], item))
  }

  /** How much of `item` fits on top of the stacks already in `list`. */
  function Room(types: Types, cell: map<Item, Cell>, list: seq<Item>, item: Item): int
  {
    Sum(Rooms(types, cell, list, item))
  }

  function FreeSlots(c: Item, list: seq<Item>): nat
  {
    if |list| < c.maxSize then c.maxSize - |list| else 0
  }

  // ----- Container::queryAdd -----

  ghost function QueryAddResult(
      types: Types, s: State, cell: map<Item, Cell>, c: Item, index: int, item: Item, flags: Flags): ReturnValue
    requires item in cell && c in s.list
  {
    if flags.childIsOwner then NoError
    else if !types(cell[item].id).pickupable then CannotPickup
    else if item in Ancestry(s, c) then ThisIsImpossible
    else if !flags.noLimit && index == INDEX_WHEREEVER && |s.list[c]| >= c.maxSize then ContainerNotEnoughRoom
    else NoError
  }

  /** Item::getTopParent: the container just below the top of the chain, or the container itself. */
  method GetTopParent(c: Item, w: World) returns (top: Item)
    requires w.Linked() && Climbing(w.heap) && c in w.heap.parent && c.isContainer
    ensures top in Ancestry(w.heap, c) && top.isContainer && top in w.heap.parent
    ensures if w.heap.parent[c] == null then top == c
            else w.heap.parent[top] != null && w.heap.parent[top] in w.heap.parent
                 && w.heap.parent[w.heap.parent[top]] == null
  {
    AncestryClosed(w.heap, c);
    w.LinkAt(c);
    top := c;
    var aux := c.parent;
    if aux == null {
      return;
    }
    w.LinkAt(aux);
    while aux.parent != null
      invariant aux != null && aux in Ancestry(w.heap, c) && aux in w.heap.parent
      invariant top in Ancestry(w.heap, c) && top.isContainer && top in w.heap.parent
      invariant w.heap.parent[top] == aux && w.heap.parent[aux] == aux.parent
      decreases Above(w.heap, aux)
    {
      AboveShrinks(w.heap, aux);
      w.LinkAt(aux.parent);
      top, aux := aux, aux.parent;
    }
  }

  /** The upward walk of queryAdd: whether `item` holds `c` at some depth. */
  method HoldsFromAbove(c: Item, item: Item, w: World) returns (holds: bool)
    requires w.Linked() && Climbing(w.heap) && c in w.heap.parent
    ensures holds <==> item != c && item in Ancestry(w.heap, c)
  {
    hide World.ShapeLinked, World.CellsLinked, World.OwnLinked, World.TotalLinked;
    w.LinkAt(c);
    AncestryClosed(w.heap, c);
    var cylinder := c.parent;
    while cylinder != null
      invariant cylinder != null ==> cylinder in w.heap.parent && cylinder in Ancestry(w.heap, c) && cylinder != c
      invariant item in Ancestry(w.heap, c) <==> item == c || (cylinder != null && item in Ancestry(w.heap, cylinder))
      decreases cylinder != null, if cylinder == null then {} else Above(w.heap, cylinder)
    {
      if cylinder == item {
        return true;
      }
      w.LinkAt(cylinder);
      if cylinder.parent != null {
        AboveShrinks(w.heap, cylinder);
      }
      cylinder := cylinder.parent;
    }
    holds := false;
  }

  method QueryAdd(c: Item, index: int, item: Item, count: nat, flags: Flags, w: World) returns (ret: ReturnValue)
    requires w.Linked() && Climbing(w.heap) && c in w.heap.parent && c.isContainer && item in w.heap.parent
    ensures item in w.cell && c in w.heap.list
    ensures ret == QueryAddResult(w.types, w.heap, w.cell, c, index, item, flags)
    decreases if flags.childIsOwner then 0 else 1
  {
    hide Climbing, World.ShapeLinked, World.CellsLinked, World.OwnLinked, World.TotalLinked;
    w.LinkAt(c);
    w.LinkAt(item);
    if flags.childIsOwner {
      return NoError;
    }
    if !w.types(item.id).pickupable {
      return CannotPickup;
    }
    AncestryClosed(w.heap, c);
    if item == c {
      return ThisIsImpossible;
    }
    var holds := HoldsFromAbove(c, item, w);
    if holds {
      return ThisIsImpossible;
    }
    if !flags.noLimit && index == INDEX_WHEREEVER && |c.itemlist| >= c.maxSize {
      return ContainerNotEnoughRoom;
    }
    var topParent := GetTopParent(c, w);
    if topParent != c {
      ret := QueryAdd(topParent, INDEX_WHEREEVER, item, count, flags.(childIsOwner := true), w);
    } else {
      ret := NoError;
    }
  }

  /** Hanging `x` under something inside `x` makes a loop that no ranking can climb. */
  lemma {:induction false} HangingInsideItselfLoops(s: State, c: Item, x: Item, rank: map<Item, nat>)
    requires Climbing(s) && c in s.parent && x in Ancestry(s, c)
    ensures !Climbing(Hung(s, c, x, rank))
  {
    if Climbing(Hung(s, c, x, rank)) {
      ChainRises(s, Hung(s, c, x, rank), c, x);
    }
  }

  ghost function Hung(s: State, c: Item, x: Item, rank: map<Item, nat>): State
  {
    s.(parent := s.parent[x := c], rank := rank)
  }

  lemma {:induction false} ChainRises(s: State, t: State, i: Item, x: Item)
    requires Climbing(s) && Climbing(t) && i in s.parent && x in Ancestry(s, i)
    requires forall j <- s.parent :: j in t.parent && (j != x ==> t.parent[j] == s.parent[j])
    ensures i in t.rank && x in t.rank && t.rank[i] <= t.rank[x]
    decreases Above(s, i)
  {
    if i != x {
      AboveShrinks(s, i);
      ChainRises(s, t, s.parent[i], x);
    }
  }

  /** queryAdd refuses exactly the adds after which no order of the containers would be left. */
  lemma {:induction false} QueryAddGuardsForest(
      types: Types, s: State, cell: map<Item, Cell>, c: Item, index: int, item: Item, flags: Flags)
    requires Forest(s) && c in s.parent && c.isContainer && item in s.parent && s.parent[item] == null
    requires item in cell && types(cell[item].id).pickupable && !flags.childIsOwner
    ensures c in s.list
    ensures QueryAddResult(types, s, cell, c, index, item, flags) == ThisIsImpossible
            <==> forall rank: map<Item, nat> :: !Climbing(Hung(s, c, item, rank))
    ensures QueryAddResult(types, s, cell, c, index, item, flags) == NoError ==>
              item in s.rank && Forest(Attached(s, c, item, 0))
  {
    ContentsLive(s, c);
    ContentsLive(s, item);
    if item in Ancestry(s, c) {
      forall rank: map<Item, nat> ensures !Climbing(Hung(s, c, item, rank)) {
        HangingInsideItselfLoops(s, c, item, rank);
      }
    } else {
      AttachKeepsForest(s, c, item, 0);
      assert Climbing(Hung(s, c, item, Attached(s, c, item, 0).rank));
    }
  }

  // ----- Container::queryMaxCount, queryRemove, queryDestination -----

  /** The room on top of stacks that counts towards the limit: everywhere, or at one position. */
  ghost function StackRoom(types: Types, cell: map<Item, Cell>, list: seq<Item>, index: int, item: Item): int
    requires item in cell
  {
    if index == INDEX_WHEREEVER then Room(types, cell, list, item)
    else if 0 <= index < |list| && list[index] in cell && Equal(item, cell[item], list[index], cell[list[index]])
            && cell[list[index]].count < StackSize(types, cell[list[index]])
    then StackSize(types, cell[list[index]]) - cell[list[index]].count
    else 0
  }

  ghost function MaxCount(
      types: Types, s: State, cell: map<Item, Cell>, c: Item, index: int, item: Item, count: nat, flags: Flags): int
    requires item in cell && c in s.list
  {
    if flags.noLimit then (if count == 0 then 1 else count)
    else if !types(cell[item].id).stackable then FreeSlots(c, s.list[c])
    else
      FreeSlots(c, s.list[c]) * StackSize(types, cell[item])
      + if QueryAddResult(types, s, cell, c, 0, item, flags) == NoError
        then StackRoom(types, cell, s.list[c], index, item) else 0
  }

  ghost function MaxCountResult(
      types: Types, s: State, cell: map<Item, Cell>, c: Item, index: int, item: Item, count: nat, flags: Flags):
      ReturnValue
    requires item in cell && c in s.list
  {
    var limit := MaxCount(types, s, cell, c, index, item, count, flags);
    if flags.noLimit then NoError
    else if limit < (if types(cell[item].id).stackable then count else 1) then ContainerNotEnoughRoom
    else NoError
  }

  lemma {:induction false} RoomStep(types: Types, cell: map<Item, Cell>, list: seq<Item>, k: nat, item: Item)
    requires k < |list|
    ensures Room(types, cell, list[..k + 1], item)
         == Room(types, cell, list[..k], item) + RoomAt(types, cell, list[k], item)
  {
    SumConcat(Rooms(types, cell, list[..k], item), [RoomAt(types, cell, list[k], item)]);
    assert Rooms(types, cell, list[..k + 1], item)
        == Rooms(types, cell, list[..k], item) + [RoomAt(types, cell, list[k], item)];
  }

  method QueryMaxCount(c: Item, index: int, item: Item, count: nat, flags: Flags, w: World)
    returns (ret: ReturnValue, maxQueryCount: nat)
    requires w.Linked() && Climbing(w.heap) && c in w.heap.parent && c.isContainer && item in w.heap.parent
    requires forall i <- w.heap.list[c] :: i in w.heap.parent
    ensures item in w.cell && c in w.heap.list
    ensures maxQueryCount == MaxCount(w.types, w.heap, w.cell, c, index, item, count, flags)
    ensures ret == MaxCountResult(w.types, w.heap, w.cell, c, index, item, count, flags)
  {
    hide Climbing, World.ShapeLinked, World.CellsLinked, World.OwnLinked, World.TotalLinked, Ancestry;
    w.LinkAt(c);
    w.LinkAt(item);
    if flags.noLimit {
      return NoError, if count == 0 then 1 else count;
    }
    var freeSlots := FreeSlots(c, c.itemlist);
    if w.types(item.id).stackable {
      var n := 0;
      if index == INDEX_WHEREEVER {
        n := StackableRoom(c, item, count, flags, w);
      } else if 0 <= index < |c.itemlist| {
        var destItem := c.itemlist[index];
        assert destItem in w.heap.list[c];
        w.LinkAt(destItem);
        if Equal(item, item.CellOf(), destItem, destItem.CellOf())
           && destItem.count < StackSize(w.types, destItem.CellOf()) {
          var r := QueryAdd(c, index, item, count, flags, w);
          if r == NoError {
            n := StackSize(w.types, destItem.CellOf()) - destItem.count;
          }
        }
      }
      maxQueryCount := freeSlots * StackSize(w.types, item.CellOf()) + n;
      ret := if maxQueryCount < count then ContainerNotEnoughRoom else NoError;
    } else {
      maxQueryCount := freeSlots;
      ret := if maxQueryCount == 0 then ContainerNotEnoughRoom else NoError;
    }
  }

  /** The loop of queryMaxCount over all contents. */
  method StackableRoom(c: Item, item: Item, count: nat, flags: Flags, w: World) returns (n: nat)
    requires w.Linked() && Climbing(w.heap) && c in w.heap.parent && c.isContainer && item in w.heap.parent
    requires c in w.heap.list && forall i <- w.heap.list[c] :: i in w.heap.parent
    ensures item in w.cell
    ensures n == if QueryAddResult(w.types, w.heap, w.cell, c, 0, item, flags) == NoError
                 then Room(w.types, w.cell, w.heap.list[c], item) else 0
  {
    hide Climbing, World.ShapeLinked, World.CellsLinked, World.OwnLinked, World.TotalLinked, Ancestry, Room;
    w.LinkAt(c);
    w.LinkAt(item);
    n := 0;
    var slotIndex, k := 0, 0;
    EmptyRoom(w.types, w.cell, item);
    while k < |c.itemlist|
      invariant k <= |c.itemlist|
      invariant n == if QueryAddResult(w.types, w.heap, w.cell, c, 0, item, flags) == NoError
                     then Room(w.types, w.cell, c.itemlist[..k], item) else 0
    {
      var containerItem := c.itemlist[k];
      assert containerItem in w.heap.list[c];
      w.LinkAt(containerItem);
      RoomStep(w.types, w.cell, c.itemlist, k, item);
      if containerItem != item && Equal(containerItem, containerItem.CellOf(), item, item.CellOf())
         && containerItem.count < StackSize(w.types, containerItem.CellOf()) {
        var r := QueryAdd(c, slotIndex, item, count, flags, w);
        slotIndex := slotIndex + 1;
        if r == NoError {
          n := n + (StackSize(w.types, containerItem.CellOf()) - containerItem.count);
        }
      }
      k := k + 1;
    }
    assert c.itemlist[..k] == c.itemlist;
  }

  lemma EmptyRoom(types: Types, cell: map<Item, Cell>, item: Item)
    ensures Room(types, cell, [], item) == 0
  {
  }

  method QueryRemove(c: Item, thing: Item, count: nat, flags: Flags, w: World) returns (ret: ReturnValue)
    ensures ret == NoError <==>
              && thing in c.itemlist
              && count != 0 && (w.types(thing.id).stackable ==> count <= thing.count)
              && (w.types(thing.id).moveable || flags.ignoreNotMoveable)
  {
    var index := c.GetThingIndex(thing);
    if index == -1 {
      return NotPossible;
    }
    if count == 0 || (w.types(thing.id).stackable && count > thing.count) {
      return NotPossible;
    }
    if !w.types(thing.id).moveable && !flags.ignoreNotMoveable {
      return NotMoveable;
    }
    ret := NoError;
  }

  /** Whether `i` is a stack with room that `item` could be put on. */
  predicate Stackable(types: Types, cell: map<Item, Cell>, i: Item, item: Item)
  {
    i in cell && item in cell && i != item && Equal(i, cell[i], item, cell[item])
    && cell[i].count < StackSize(types, cell[i])
  }

  /** The position a client means: 255 and everything beyond the last slot mean no position at all. */
  function Position(c: Item, index: int): int
  {
    if index == 255 || index >= c.maxSize then INDEX_WHEREEVER else index
  }

  function Autostacks(types: Types, s: State, cell: map<Item, Cell>, c: Item, item: Item, flags: Flags): bool
    requires item in cell && item in s.parent
  {
    !flags.ignoreAutoStack && types(cell[item].id).stackable && s.parent[item] != c
  }

  /**
   Where an item aimed at position `index` of `c` goes: 254 means the container around `c`, a
   container lying at the position takes it in, and otherwise it stays in `c`, on the stack aimed
   at if that has room, or else on the first stack that has room, or else at the position itself.
   */
  ghost predicate Aimed(
      types: Types, s: State, cell: map<Item, Cell>, c: Item, index: int, item: Item, flags: Flags,
      dest: Item, index': int, toItem: Item?)
    requires item in cell && item in s.parent && c in s.list && c in s.parent
  {
    var list, at := s.list[c], Position(c, index);
    if index == 254 then
      && dest == (if s.parent[c] == null then c else s.parent[c])
      && index' == INDEX_WHEREEVER && toItem == null
    else if 0 <= at < |list| && list[at].isContainer then
      dest == list[at] && index' == INDEX_WHEREEVER && toItem == null
    else
      && dest == c
      && if Autostacks(types, s, cell, c, item, flags) && exists i <- list :: Stackable(types, cell, i, item) then
           && 0 <= index' < |list| && toItem == list[index'] && Stackable(types, cell, list[index'], item)
           && (index' == at
               || ((0 <= at < |list| ==> !Stackable(types, cell, list[at], item))
                   && forall k | 0 <= k < index' :: !Stackable(types, cell, list[k], item)))
         else index' == at && toItem == (if 0 <= at < |list| then list[at] else null)
  }

  /** The place a move ends at: a redirected one is aimed once more, at no position and with no flags. */
  ghost predicate Resolved(
      types: Types, s: State, cell: map<Item, Cell>, to: Item, index: int, item: Item, flags: Flags,
      dest: Item, index': int, toItem: Item?)
    requires item in cell && item in s.parent && to in s.list && to in s.parent
  {
    if dest == to then Aimed(types, s, cell, to, index, item, flags, to, index', toItem)
    else
      && Aimed(types, s, cell, to, index, item, flags, dest, INDEX_WHEREEVER, null)
      && dest in s.list && dest in s.parent
      && Aimed(types, s, cell, dest, INDEX_WHEREEVER, item, NO_FLAGS, dest, index', toItem)
  }

  method QueryDestination(c: Item, index: int, item: Item, flags: Flags, w: World)
    returns (dest: Item, index': int, destItem: Item?)
    requires w.Linked() && Climbing(w.heap) && c in w.heap.parent && c.isContainer && item in w.heap.parent
    requires c in w.heap.list && forall i <- w.heap.list[c] :: i in w.heap.parent && w.heap.parent[i] == c
    ensures dest in w.heap.parent && dest.isContainer
    ensures dest != c ==> index' == INDEX_WHEREEVER && destItem == null
    ensures index == INDEX_WHEREEVER ==> dest == c
    ensures destItem != null ==>
              0 <= index' < |w.heap.list[c]| && w.heap.list[c][index'] == destItem && destItem in w.cell
    ensures 0 <= index' < |w.heap.list[dest]| ==> destItem != null
    ensures index' < c.maxSize
            || (destItem != null && Stackable(w.types, w.cell, destItem, item) && w.types(w.cell[item].id).stackable)
    // aimed nowhere in particular, a stack goes onto the first stack that has room for it
    ensures index == INDEX_WHEREEVER && destItem != null ==> Stackable(w.types, w.cell, destItem, item)
    ensures index == INDEX_WHEREEVER && destItem == null ==> index' == INDEX_WHEREEVER
    ensures (index == INDEX_WHEREEVER && destItem == null && !flags.ignoreAutoStack
             && w.types(item.id).stackable && item.parent != c) ==>
              forall i <- w.heap.list[c] :: !Stackable(w.types, w.cell, i, item)
    ensures item in w.cell && Aimed(w.types, w.heap, w.cell, c, index, item, flags, dest, index', destItem)
  {
    hide Climbing, World.ShapeLinked, World.CellsLinked, World.OwnLinked, World.TotalLinked;
    w.LinkAt(c);
    w.LinkAt(item);
    dest, destItem := c, null;
    if index == 254 {
      if c.parent != null {
        ParentClimbs(w.heap, c);
        dest := c.parent;
      }
      return dest, INDEX_WHEREEVER, null;
    }
    index' := if index == 255 || index >= c.maxSize then INDEX_WHEREEVER else index;
    if index' != INDEX_WHEREEVER && 0 <= index' < |c.itemlist| {
      destItem := c.itemlist[index'];
      assert destItem in w.heap.list[c];
      w.LinkAt(destItem);
      if destItem.isContainer {
        return destItem, INDEX_WHEREEVER, null;
      }
    }
    if !flags.ignoreAutoStack && w.types(item.id).stackable && item.parent != c {
      if destItem != null && Equal(destItem, destItem.CellOf(), item, item.CellOf())
         && destItem.count < StackSize(w.types, destItem.CellOf()) {
        return;
      }
      var n := FindStack(c, item, w);
      if n < |c.itemlist| {
        return c, n, c.itemlist[n];
      }
    }
  }

  lemma ParentClimbs(s: State, c: Item)
    requires Climbing(s) && c in s.parent && s.parent[c] != null
    ensures s.parent[c] in s.parent && s.parent[c].isContainer
  {
  }

  /** The search of queryDestination: the first stack with room, or the number of items. */
  method FindStack(c: Item, item: Item, w: World) returns (n: nat)
    requires w.Linked() && c in w.heap.parent && item in w.heap.parent
    requires c in w.heap.list && forall i <- w.heap.list[c] :: i in w.heap.parent
    ensures n <= |w.heap.list[c]|
    ensures forall k | 0 <= k < n :: !Stackable(w.types, w.cell, w.heap.list[c][k], item)
    ensures n < |w.heap.list[c]| ==> Stackable(w.types, w.cell, w.heap.list[c][n], item)
  {
    hide World.ShapeLinked, World.CellsLinked, World.OwnLinked, World.TotalLinked;
    w.LinkAt(c);
    w.LinkAt(item);
    n := 0;
    while n < |c.itemlist|
      invariant n <= |c.itemlist|
      invariant forall k | 0 <= k < n :: !Stackable(w.types, w.cell, w.heap.list[c][k], item)
    {
      var listItem := c.itemlist[n];
      assert listItem in w.heap.list[c];
      w.LinkAt(listItem);
      if listItem != item && Equal(listItem, listItem.CellOf(), item, item.CellOf())
         && listItem.count < StackSize(w.types, listItem.CellOf()) {
        return;
      }
      n := n + 1;
    }
  }

  // ----- Counting -----

  function CountAt(cell: map<Item, Cell>, i: Item, id: nat): nat
  {
    if i in cell && cell[i].id == id then cell[i].count else 0
  }

  function Tally(cell: map<Item, Cell>, list: seq<Item>, id: nat): (r: seq<int>)
    ensures |r| == |list|
  {
    seq(|list|, k requires 0 <= k < |list| => CountAt(cell, list[k], id))
  }

  /** How many pieces of type `id` lie directly in `list`. */
  function Count(cell: map<Item, Cell>, list: seq<Item>, id: nat): int
  {
    Sum(Tally(cell, list, id))
  }

  lemma CountInsert(cell: map<Item, Cell>, list: seq<Item>, k: nat, x: Item, id: nat)
    requires k <= |list|
    ensures Count(cell, Insert(list, k, x), id) == Count(cell, list, id) + CountAt(cell, x, id)
  {
    SumInsert(Tally(cell, list, id), k, CountAt(cell, x, id));
    assert Tally(cell, Insert(list, k, x), id) == Insert(Tally(cell, list, id), k, CountAt(cell, x, id));
  }

  lemma CountRemove(cell: map<Item, Cell>, list: seq<Item>, k: nat, id: nat)
    requires k < |list|
    ensures Count(cell, Remove(list, k), id) == Count(cell, list, id) - CountAt(cell, list[k], id)
  {
    SumRemove(Tally(cell, list, id), k);
    assert Tally(cell, Remove(list, k), id) == Remove(Tally(cell, list, id), k);
  }

  lemma CountEdit(cell: map<Item, Cell>, list: seq<Item>, k: nat, c: Cell, id: nat)
    requires k < |list| && Distinct(list) && list[k] in cell
    ensures var cell' := cell[list[k] := c];
            Count(cell', list, id) == Count(cell, list, id) - CountAt(cell, list[k], id) + CountAt(cell', list[k], id)
  {
    var cell' := cell[list[k] := c];
    SumUpdate(Tally(cell, list, id), k, CountAt(cell', list[k], id));
    assert Tally(cell', list, id) == Tally(cell, list, id)[k := CountAt(cell', list[k], id)];
  }

  lemma CountSame(cell: map<Item, Cell>, cell': map<Item, Cell>, list: seq<Item>, id: nat)
    requires forall i <- list :: CountAt(cell, i, id) == CountAt(cell', i, id)
    ensures Count(cell, list, id) == Count(cell', list, id)
  {
    assert Tally(cell, list, id) == Tally(cell', list, id);
  }

  /** Filling up the stack at `k` takes exactly its room away and leaves the other room alone. */
  lemma RoomFilled(
      types: Types, cell: map<Item, Cell>, list: seq<Item>, k: nat, c: Cell, item: Item, item': Item)
    requires k < |list| && Distinct(list) && list[k] in cell && item in cell && item' in cell
    requires item !in list && item' !in list && cell[item'].id == cell[item].id && cell[item'].attrs == cell[item].attrs
    requires !cell[item].attrs.custom
    requires Stackable(types, cell, list[k], item) && c.count >= StackSize(types, c)
    ensures Room(types, cell[list[k] := c], list, item')
         == Room(types, cell, list, item) - (StackSize(types, cell[list[k]]) - cell[list[k]].count)
  {
    var cell' := cell[list[k] := c];
    var was, now := Rooms(types, cell, list, item), Rooms(types, cell', list, item');
    forall l | 0 <= l < |list| && l != k ensures now[l] == was[l] {
      assert list[l] != list[k] && list[l] in list;
    }
    assert now == was[k := 0];
    SumUpdate(was, k, 0);
  }

  // ----- Game::internalAddItem -----

  /** How much of `item` a container can still take: free slots, and room on equal stacks. */
  ghost function Capacity(types: Types, s: State, cell: map<Item, Cell>, c: Item, item: Item): int
    requires item in cell && c in s.list
  {
    FreeSlots(c, s.list[c]) * StackSize(types, cell[item]) + Room(types, cell, s.list[c], item)
  }

  /** From (s, cell) to (s', cell'), nothing but the contents of `c` changed; items may be new. */
  ghost predicate OnlyIn(s: State, cell: map<Item, Cell>, s': State, cell': map<Item, Cell>, c: Item)
    requires c in s.list
  {
    && (forall d {:trigger s.list[d]} {:trigger s'.list[d]} :: d in s.list && d != c ==>
          d in s'.list && s'.list[d] == s.list[d])
    && (forall i {:trigger cell[i]} {:trigger cell'[i]} :: i in cell && i !in s.list[c] ==>
          i in cell' && cell'[i] == cell[i])
  }

  lemma UpdatedStack(types: Types, c: Cell, newDuration: nat, n: nat)
    requires types(c.id).stackable && !types(c.id).fluidOrSplash && n <= 255
    ensures var r := SetSubType(types, SetID(types, c, c.id, newDuration), n % 65536); Retouched(c, r) && r.count == n
  {
    hide SetID;
    SetIDKeeps(types, c, c.id, newDuration);
  }

  lemma StackedEdit(types: Types, cell: map<Item, Cell>, x: Item, c: Cell)
    requires Stacked(types, cell)
    requires types(c.id).stackable ==> !types(c.id).fluidOrSplash && c.count <= types(c.id).stackSize <= 255
    ensures Stacked(types, cell[x := c])
  {
  }

  /** Puts `n` more pieces onto the stack `toItem` held by `c`. */
  method AddToStack(c: Item, toItem: Item, ghost k: nat, n: nat, w: World)
    requires w.Valid() && Stacked(w.types, w.cell) && c in w.heap.parent && c.isContainer && toItem in w.heap.parent
    requires c in w.heap.list && k < |w.heap.list[c]| && w.heap.list[c][k] == toItem && toItem in w.cell
    requires w.types(w.cell[toItem].id).stackable
    requires w.cell[toItem].count + n <= w.types(w.cell[toItem].id).stackSize
    modifies w`cell, w`own, w`total, toItem`id, toItem`count, toItem`attrs, w.items`totalWeight
    ensures w.Valid() && Stacked(w.types, w.cell)
    ensures toItem in w.cell && w.cell == old(w.cell)[toItem := w.cell[toItem]]
    ensures Retouched(old(w.cell)[toItem], w.cell[toItem]) && w.cell[toItem].count == old(w.cell)[toItem].count + n
  {
    hide Forest, Ledger, Lasting, SetID, SetSubType, World.ShapeLinked, World.CellsLinked, World.OwnLinked,
         World.TotalLinked;
    w.LinkAt(c);
    w.LinkAt(toItem);
    var newDuration: nat := *;
    UpdatedStack(w.types, toItem.CellOf(), newDuration, toItem.count + n);
    ghost var cell := w.cell;
    c.UpdateThing(toItem, toItem.id, toItem.count + n, newDuration, w);
    StackedEdit(w.types, cell, toItem, w.cell[toItem]);
  }

  /** An add of a stack with no flags and no particular position, of an item the container may take. */
  ghost predicate PlainAdd(
      types: Types, s: State, cell: map<Item, Cell>, to: Item, item: Item, index: int, flags: Flags)
  {
    && index == INDEX_WHEREEVER && flags == NO_FLAGS && item in cell
    && types(cell[item].id).stackable && 1 <= cell[item].count && types(cell[item].id).pickupable
    && item !in Ancestry(s, to)
  }

  /** The contents of `c` changed by `k` pieces of type `id`, and nothing else did. */
  ghost predicate Shifted(s: State, cell: map<Item, Cell>, s': State, cell': map<Item, Cell>, c: Item, id: nat, k: int)
    requires c in s.list
  {
    && OnlyIn(s, cell, s', cell', c) && c in s'.list
    && forall d :: Count(cell', s'.list[c], d) == Count(cell, s.list[c], d) + if d == id then k else 0
  }

  /**
   What came into `to` is of the given kind. What was there stays and loses nothing, and only what
   is of that kind is touched at all.
   */
  ghost predicate Laid(s: State, cell: map<Item, Cell>, s': State, cell': map<Item, Cell>, to: Item, kind: Kind)
    requires to in s.list
  {
    && to in s'.list
    && (forall j <- s'.list[to] :: j in s.list[to] || (j in cell' && KindOf(cell'[j]) == kind))
    && (forall j <- s.list[to] :: j in s'.list[to])
    && forall j <- s.list[to] :: j in cell ==>
         && j in cell' && Retouched(cell[j], cell'[j]) && cell[j].count <= cell'[j].count
         && (KindOf(cell[j]) != kind ==> cell'[j] == cell[j])
  }

  /**
   `to` gained exactly `k` pieces of the given kind and nothing else changed; when `limited`, it
   also stayed within its capacity.
   */
  ghost predicate Gained(
      s: State, cell: map<Item, Cell>, s': State, cell': map<Item, Cell>, to: Item, kind: Kind, k: nat, limited: bool)
    requires to in s.list
  {
    && Shifted(s, cell, s', cell', to, kind.id, k) && Laid(s, cell, s', cell', to, kind)
    && (limited && |s.list[to]| <= to.maxSize ==> |s'.list[to]| <= to.maxSize)
  }

  lemma GainedLoosely(
      s: State, cell: map<Item, Cell>, s': State, cell': map<Item, Cell>, to: Item, kind: Kind, k: nat,
      limited: bool, loose: bool)
    requires to in s.list && Gained(s, cell, s', cell', to, kind, k, limited) && (loose ==> limited)
    ensures Gained(s, cell, s', cell', to, kind, k, loose)
  {
  }

  lemma NoRoom(types: Types, cell: map<Item, Cell>, list: seq<Item>, item: Item)
    requires forall i <- list :: !Stackable(types, cell, i, item)
    ensures Room(types, cell, list, item) == 0
    decreases |list|
  {
    if list != [] {
      assert Rooms(types, cell, list, item)[1..] == Rooms(types, cell, list[1..], item);
      assert list[0] in list;
      NoRoom(types, cell, list[1..], item);
    }
  }

  /** Filling the stack at `k` lowers the capacity by exactly the room that stack had. */
  lemma FillLowersCapacity(types: Types, s: State, cell: map<Item, Cell>, to: Item, k: nat, c: Cell, item: Item)
    requires Forest(s) && to in s.parent && k < |s.list[to]| && item in cell && item in s.parent
    requires s.parent[item] == null && Stackable(types, cell, s.list[to][k], item)
    requires c.count == StackSize(types, c) && c.id == cell[s.list[to][k]].id
    ensures Capacity(types, s, cell[s.list[to][k] := c], to, item)
         == Capacity(types, s, cell, to, item) - RoomAt(types, cell, s.list[to][k], item)
  {
    assert Distinct(s.list[to]);
    assert item !in s.list[to];
    RoomFilled(types, cell, s.list[to], k, c, item, item);
  }

  /** A detached copy of a detached item finds the same capacity. */
  lemma CloneFits(types: Types, s: State, cell: map<Item, Cell>, to: Item, item: Item, x: Item, left: nat)
    requires Forest(s) && to in s.parent && item in cell && item in s.parent && s.parent[item] == null
    requires x !in s.parent
    ensures to in WithNew(s, x).list && Forest(WithNew(s, x)) && x !in Ancestry(WithNew(s, x), to)
    ensures Capacity(types, WithNew(s, x), cell[x := Cell(cell[item].id, left, cell[item].attrs)], to, x)
         == Capacity(types, s, cell, to, item)
  {
    var withX := cell[x := Cell(cell[item].id, left, cell[item].attrs)];
    assert item !in s.list[to] && x !in s.list[to];
    forall k | 0 <= k < |s.list[to]|
      ensures RoomAt(types, withX, s.list[to][k], x) == RoomAt(types, cell, s.list[to][k], item)
    {
      assert s.list[to][k] in s.list[to];
    }
    assert Rooms(types, withX, s.list[to], x) == Rooms(types, cell, s.list[to], item);
    NewKeepsForest(s, x);
    AncestryClosed(s, to);
    AncestryKept(s, WithNew(s, x), to);
  }

  /** A stack laid into a free slot lowers the capacity by a slot, less the room left on it. */
  lemma LayLowersCapacity(types: Types, s: State, cell: map<Item, Cell>, to: Item, x: Item, item: Item)
    requires CanAttach(s, to, x) && item in cell && x in s.rank && to in s.list && |s.list[to]| < to.maxSize
    ensures var t := Attached(s, to, x, 0);
            to in t.list && Capacity(types, t, cell, to, item)
              == Capacity(types, s, cell, to, item) - StackSize(types, cell[item]) + RoomAt(types, cell, x, item)
  {
    hide Forest, Ancestry, RoomAt;
    var list, size, slots := s.list[to], StackSize(types, cell[item]), FreeSlots(to, s.list[to]);
    SumInsert(Rooms(types, cell, list, item), 0, RoomAt(types, cell, x, item));
    assert Rooms(types, cell, Insert(list, 0, x), item)
        == Insert(Rooms(types, cell, list, item), 0, RoomAt(types, cell, x, item));
    assert FreeSlots(to, Insert(list, 0, x)) == slots - 1;
    assert (slots - 1) * size == slots * size - size;
  }

  lemma CountAfterFill(
      cell: map<Item, Cell>, list: seq<Item>, k: nat, c: Cell, n: nat, id: nat)
    requires k < |list| && Distinct(list) && list[k] in cell
    requires c.id == cell[list[k]].id && c.count == cell[list[k]].count + n
    ensures Count(cell[list[k] := c], list, id) == Count(cell, list, id) + if id == c.id then n else 0
  {
    CountEdit(cell, list, k, c, id);
  }

  lemma ContentsLive(s: State, c: Item)
    requires Forest(s) && c in s.parent
    ensures Climbing(s) && c in s.list && c in s.rank && Distinct(s.list[c])
    ensures forall i <- s.list[c] :: i in s.parent && s.parent[i] == c
  {
  }

  /** What a content of the right type can have gained at most: the room it had, or a whole stack if it is new. */
  ghost predicate Filled(
      types: Types, cell: map<Item, Cell>, cell': map<Item, Cell>, list: seq<Item>, j: Item, item: Item, size: nat)
    requires item in cell
  {
    && (j in list ==> CountAt(cell', j, cell[item].id)
                      <= CountAt(cell, j, cell[item].id) + RoomAt(types, cell, j, item))
    && (j !in list ==> CountAt(cell', j, cell[item].id) <= size)
  }

  lemma {:induction false} GainIsBounded(
      types: Types, cell: map<Item, Cell>, cell': map<Item, Cell>, list: seq<Item>, list': seq<Item>, item: Item,
      size: nat)
    requires item in cell && Distinct(list) && Distinct(list') && forall j <- list :: j in list'
    requires forall j <- list' :: Filled(types, cell, cell', list, j, item, size)
    ensures |list| <= |list'|
    ensures Count(cell', list', cell[item].id)
         <= Count(cell, list, cell[item].id) + Room(types, cell, list, item) + (|list'| - |list|) * size
    decreases |list'|
  {
    hide CountAt, RoomAt;
    var id := cell[item].id;
    if list != [] {
      var x := list[0];
      assert x in list;
      var k :| 0 <= k < |list'| && list'[k] == x;
      RemoveAt(list', k);
      forall j <- Remove(list', k) ensures Filled(types, cell, cell', list[1..], j, item, size) {
        assert Filled(types, cell, cell', list, j, item, size) && (j in list <==> j in list[1..]);
      }
      forall j <- list[1..] ensures j in Remove(list', k) {
        assert j in list;
      }
      GainIsBounded(types, cell, cell', list[1..], Remove(list', k), item, size);
      CountRemove(cell', list', k, id);
      assert Tally(cell, list, id)[1..] == Tally(cell, list[1..], id);
      assert Rooms(types, cell, list, item)[1..] == Rooms(types, cell, list[1..], item);
      assert Filled(types, cell, cell', list, x, item, size);
    } else if list' != [] {
      assert list'[0] in list' && Filled(types, cell, cell', list, list'[0], item, size);
      RemoveAt(list', 0);
      GainIsBounded(types, cell, cell', [], list'[1..], item, size);
      assert Tally(cell', list', id)[1..] == Tally(cell', list'[1..], id);
      assert |list'| * size == (|list'| - 1) * size + size;
    }
  }

  /**
   The capacity is the most that any gain within the slots can bring in: so what the queries refuse
   would not fit in whatever way it were spread.
   */
  lemma {:induction false} CapacityIsMost(
      types: Types, s: State, cell: map<Item, Cell>, s': State, cell': map<Item, Cell>, to: Item, item: Item, k: nat)
    requires Forest(s) && Forest(s') && to in s.parent && to in s'.parent && item in cell && item in s.parent
    requires s.parent[item] == null && !cell[item].attrs.custom && types(cell[item].id).stackable
    requires cell.Keys == s.parent.Keys && Stacked(types, cell) && Stacked(types, cell')
    requires to in s.list && to in s'.list && |s'.list[to]| <= to.maxSize
    requires Gained(s, cell, s', cell', to, KindOf(cell[item]), k, true)
    ensures k <= Capacity(types, s, cell, to, item)
  {
    hide Room, Count, Forest, Gained, Stacked, Filled, RoomAt, CountAt;
    var list, list', size := s.list[to], s'.list[to], types(cell[item].id).stackSize;
    ContentsLive(s, to);
    ContentsLive(s', to);
    forall j <- list' ensures Filled(types, cell, cell', list, j, item, size) {
      MostAt(types, s, cell, s', cell', to, item, k, j);
    }
    GainCounts(s, cell, s', cell', to, KindOf(cell[item]), k);
    GainIsBounded(types, cell, cell', list, list', item, size);
    Slots(|list'| - |list|, FreeSlots(to, list), size);
  }

  lemma GainCounts(
      s: State, cell: map<Item, Cell>, s': State, cell': map<Item, Cell>, to: Item, kind: Kind, k: nat)
    requires to in s.list && to in s'.list && Gained(s, cell, s', cell', to, kind, k, true)
    ensures Count(cell', s'.list[to], kind.id) == Count(cell, s.list[to], kind.id) + k
    ensures forall j <- s.list[to] :: j in s'.list[to]
  {
    hide Count;
  }

  lemma Slots(a: int, b: int, size: nat)
    requires a <= b
    ensures a * size <= b * size
  {
  }

  lemma MostAt(
      types: Types, s: State, cell: map<Item, Cell>, s': State, cell': map<Item, Cell>, to: Item, item: Item, k: nat,
      j: Item)
    requires to in s.list && to in s'.list && item in cell && item !in s.list[to] && j in s'.list[to]
    requires j in s.list[to] ==> j in cell
    requires !cell[item].attrs.custom && types(cell[item].id).stackable && Stacked(types, cell')
    requires Gained(s, cell, s', cell', to, KindOf(cell[item]), k, true)
    ensures Filled(types, cell, cell', s.list[to], j, item, types(cell[item].id).stackSize)
  {
    hide Lasting, Count;
  }

  method InternalAddItem(to: Item, item: Item, index: int, flags: Flags, test: bool, w: World)
    returns (ret: ReturnValue, remainderCount: nat, ghost dest: Item, ghost slot: int, ghost toItem: Item?)
    requires w.Valid() && Stacked(w.types, w.cell) && !flags.childIsOwner
    requires to in w.heap.parent && to.isContainer && item in w.heap.parent && w.heap.parent[item] == null
    requires item in w.cell && to in w.heap.list
    modifies w`items, w`heap, w`cell, w`own, w`total, w.items
    ensures w.Valid() && Stacked(w.types, w.cell)
    ensures ret != NoError || test ==> w.heap == old(w.heap) && w.cell == old(w.cell) && remainderCount == 0
    // the queries decide, and say where the item goes
    ensures Aimed(w.types, old(w.heap), old(w.cell), to, index, item, flags, dest, slot, toItem)
    ensures dest in old(w.heap).list
    ensures ret == var add := QueryAddResult(w.types, old(w.heap), old(w.cell), dest, slot, item, flags);
                   if add != NoError then add
                   else MaxCountResult(w.types, old(w.heap), old(w.cell), to, INDEX_WHEREEVER, item,
                                       old(w.cell)[item].count, flags)
    ensures ret == NoError ==> w.types(old(w.cell)[item].id).pickupable && item !in Ancestry(old(w.heap), dest)
    ensures ret == NoError && !test && !Onto(w.types, old(w.cell), item, toItem) ==>
              && CanAttach(old(w.heap), dest, item) && remainderCount == 0
              && w.heap == Attached(old(w.heap), dest, item, 0) && w.cell == old(w.cell)
    // every piece is accounted for; only a stack aimed at on its own can leave some over
    ensures ret == NoError && !test ==>
              && remainderCount == LeftOver(w.types, old(w.heap), old(w.cell), dest, item, toItem, flags)
              && remainderCount <= old(w.cell)[item].count
              && (remainderCount > 0 ==> index != INDEX_WHEREEVER)
              && Gained(old(w.heap), old(w.cell), w.heap, w.cell, dest, KindOf(old(w.cell)[item]),
                        old(w.cell)[item].count - remainderCount,
                        !flags.noLimit && !Overfills(w.types, old(w.heap), old(w.cell), dest, item, toItem))
    // the stack aimed at takes what fits on it
    ensures ret == NoError && !test && Onto(w.types, old(w.cell), item, toItem) ==>
              && toItem in w.cell
              && w.cell[toItem].count == old(w.cell)[toItem].count
                   + Merged(w.types, old(w.cell), item, toItem, old(w.cell)[item].count)
    // a limited add goes over capacity exactly when it overfills, which no plain one does
    ensures ret == NoError && !test && Overfills(w.types, old(w.heap), old(w.cell), dest, item, toItem) ==>
              dest in w.heap.list && |w.heap.list[dest]| == |old(w.heap).list[dest]| + 1
    ensures ret == NoError && !flags.noLimit
            && (index == INDEX_WHEREEVER || (flags == NO_FLAGS && old(w.cell)[item].count >= 1)) ==>
              !Overfills(w.types, old(w.heap), old(w.cell), dest, item, toItem)
    // the capacity query is exact
    ensures PlainAdd(w.types, old(w.heap), old(w.cell), to, item, index, flags) ==>
              && dest == to && remainderCount == 0
              && (ret == NoError <==>
                    old(w.cell)[item].count <= Capacity(w.types, old(w.heap), old(w.cell), to, item))
    decreases w.cell[item].count, 4
  {
    hide Climbing, Forest, Ledger, Ancestry, Gained, Aimed, Attached, CanAttach, PlainAdd, Fits, Capacity, Onto,
         Overfills, Stacked, MaxCountResult, QueryAddResult, World.Linked;
    remainderCount := 0;
    var destCylinder, index', target, maxQueryCount;
    ret, destCylinder, index', target, maxQueryCount := CheckAdd(to, item, index, flags, w);
    dest, slot, toItem := destCylinder, index', target;
    if ret != NoError || test {
      return;
    }
    remainderCount := AddChecked(to, destCylinder, index', target, item, flags, maxQueryCount, w);
  }

  /** The queries of an add, and where it goes. */
  method CheckAdd(to: Item, item: Item, index: int, flags: Flags, w: World)
    returns (ret: ReturnValue, dest: Item, slot: int, toItem: Item?, maxQueryCount: nat)
    requires w.Valid() && !flags.childIsOwner && item in w.heap.parent && w.heap.parent[item] == null
    requires to in w.heap.parent && to.isContainer && item in w.cell && to in w.heap.list
    ensures Aimed(w.types, w.heap, w.cell, to, index, item, flags, dest, slot, toItem)
    ensures dest in w.heap.parent && dest in w.heap.list && dest.isContainer
    ensures toItem != null ==>
              0 <= slot < |w.heap.list[dest]| && w.heap.list[dest][slot] == toItem && toItem in w.cell
    ensures slot < dest.maxSize || (Onto(w.types, w.cell, item, toItem) && Stackable(w.types, w.cell, toItem, item))
    ensures ret == var add := QueryAddResult(w.types, w.heap, w.cell, dest, slot, item, flags);
                   if add != NoError then add
                   else MaxCountResult(w.types, w.heap, w.cell, to, INDEX_WHEREEVER, item, w.cell[item].count, flags)
    ensures ret == NoError ==> item !in Ancestry(w.heap, dest) && w.types(w.cell[item].id).pickupable
    ensures ret == NoError && Onto(w.types, w.cell, item, toItem) ==>
              && dest == to && w.cell[item].count <= maxQueryCount
              && (index == INDEX_WHEREEVER ==> !flags.ignoreAutoStack)
              && Fits(w.types, w.heap, w.cell, to, item, w.cell[item].count, flags)
    ensures ret == NoError && !flags.noLimit
            && (index == INDEX_WHEREEVER || (flags == NO_FLAGS && w.cell[item].count >= 1)) ==>
              !Overfills(w.types, w.heap, w.cell, dest, item, toItem)
    ensures PlainAdd(w.types, w.heap, w.cell, to, item, index, flags) ==>
              && dest == to && index == INDEX_WHEREEVER && !flags.ignoreAutoStack
              && (ret == NoError <==> w.cell[item].count <= Capacity(w.types, w.heap, w.cell, to, item))
  {
    hide Climbing, Forest, Ledger, Ancestry, Aimed, PlainAdd, Fits, Capacity, Overfills, MaxCount, MaxCountResult,
         QueryAddResult, World.Linked;
    w.LinkAt(item);
    ContentsLive(w.heap, to);
    maxQueryCount := 0;
    dest, slot, toItem := QueryDestination(to, index, item, flags, w);
    ContentsLive(w.heap, dest);
    if PlainAdd(w.types, w.heap, w.cell, to, item, index, flags) {
      PlainFits(w.types, w.heap, w.cell, to, item, index, flags, dest, slot, toItem);
    }
    ret := QueryAdd(dest, slot, item, item.count, flags, w);
    if ret != NoError {
      return;
    }
    ret, maxQueryCount := QueryMaxCount(to, INDEX_WHEREEVER, item, item.count, flags, w);
    if ret == NoError {
      Passed(w.types, w.heap, w.cell, to, index, item, flags, dest, slot, toItem);
    }
  }

  /** Pieces of `item` may be added at no particular position and have the room. */
  ghost predicate Fits(
      types: Types, s: State, cell: map<Item, Cell>, to: Item, item: Item, count: nat, flags: Flags)
  {
    && item in cell && types(cell[item].id).pickupable && to in s.list
    && (flags.noLimit || count <= Capacity(types, s, cell, to, item))
  }

  /** A full container takes no new stack, and without automatic stacking there is nothing else to try. */
  ghost predicate Blocked(s: State, to: Item, flags: Flags)
    requires to in s.list
  {
    flags.ignoreAutoStack && !flags.noLimit && |s.list[to]| >= to.maxSize
  }

  /** What an add onto the stack aimed at leaves over: the rest, if the stack took some and nothing else may. */
  ghost function LeftOver(
      types: Types, s: State, cell: map<Item, Cell>, dest: Item, item: Item, toItem: Item?, flags: Flags): nat
    requires item in cell && dest in s.list
  {
    if Onto(types, cell, item, toItem) && Blocked(s, dest, flags) then
      var room := StackSize(types, cell[toItem]) - cell[toItem].count;
      if 0 < room < cell[item].count then cell[item].count - room else 0
    else 0
  }

  /** An add at no particular position that fits passes the queries, unless the container is blocked. */
  lemma FittingPasses(
      types: Types, s: State, cell: map<Item, Cell>, to: Item, item: Item, flags: Flags, dest: Item, slot: int,
      toItem: Item?)
    requires item in cell && item in s.parent && s.parent[item] == null && to in s.list && to in s.parent
    requires item !in Ancestry(s, to) && types(cell[item].id).stackable && 1 <= cell[item].count
    requires !flags.childIsOwner
    requires Fits(types, s, cell, to, item, cell[item].count, flags)
    requires Aimed(types, s, cell, to, INDEX_WHEREEVER, item, flags, dest, slot, toItem)
    ensures dest == to
    ensures QueryAddResult(types, s, cell, to, slot, item, flags) == NoError <==> !Blocked(s, to, flags)
    ensures MaxCountResult(types, s, cell, to, INDEX_WHEREEVER, item, cell[item].count, flags) == NoError
    ensures !Onto(types, cell, item, toItem) || !flags.ignoreAutoStack
  {
    hide Ancestry, Room, Stackable;
    if toItem == null && !flags.ignoreAutoStack {
      NoRoom(types, cell, s.list[to], item);
    }
  }

  lemma PlainFits(
      types: Types, s: State, cell: map<Item, Cell>, to: Item, item: Item, index: int, flags: Flags, dest: Item,
      slot: int, toItem: Item?)
    requires item in cell && item in s.parent && s.parent[item] == null && to in s.list && to in s.parent
    requires PlainAdd(types, s, cell, to, item, index, flags)
    requires Aimed(types, s, cell, to, index, item, flags, dest, slot, toItem)
    ensures dest == to && index == INDEX_WHEREEVER && !flags.ignoreAutoStack
    ensures (QueryAddResult(types, s, cell, to, slot, item, flags) == NoError
             && MaxCountResult(types, s, cell, to, INDEX_WHEREEVER, item, cell[item].count, flags) == NoError)
            <==> cell[item].count <= Capacity(types, s, cell, to, item)
  {
    hide Ancestry, Room, Stackable;
    if Fits(types, s, cell, to, item, cell[item].count, flags) {
      FittingPasses(types, s, cell, to, item, flags, dest, slot, toItem);
    }
  }

  /** What the answers of the queries mean for the adding. */
  lemma Passed(
      types: Types, s: State, cell: map<Item, Cell>, to: Item, index: int, item: Item, flags: Flags, dest: Item,
      slot: int, toItem: Item?)
    requires item in cell && item in s.parent && s.parent[item] == null && to in s.list && to in s.parent
    requires dest in s.list && !flags.childIsOwner
    requires Aimed(types, s, cell, to, index, item, flags, dest, slot, toItem)
    requires QueryAddResult(types, s, cell, dest, slot, item, flags) == NoError
    requires MaxCountResult(types, s, cell, to, INDEX_WHEREEVER, item, cell[item].count, flags) == NoError
    ensures item !in Ancestry(s, dest) && types(cell[item].id).pickupable
    ensures Onto(types, cell, item, toItem) ==>
              && dest == to && (index == INDEX_WHEREEVER ==> !flags.ignoreAutoStack)
              && Fits(types, s, cell, to, item, cell[item].count, flags)
              && cell[item].count <= MaxCount(types, s, cell, to, INDEX_WHEREEVER, item, cell[item].count, flags)
    ensures !flags.noLimit && (index == INDEX_WHEREEVER || (flags == NO_FLAGS && cell[item].count >= 1)) ==>
              !Overfills(types, s, cell, dest, item, toItem)
  {
    hide Ancestry, Room;
    if types(cell[item].id).stackable && dest == to && forall i <- s.list[to] :: !Stackable(types, cell, i, item) {
      NoRoom(types, cell, s.list[to], item);
    }
  }

  /** A new stack is to be laid into a container that has no free slot. */
  ghost predicate Overfills(
      types: Types, s: State, cell: map<Item, Cell>, dest: Item, item: Item, toItem: Item?)
    requires dest in s.list
  {
    && |s.list[dest]| >= dest.maxSize
    && (Onto(types, cell, item, toItem) ==>
          StackSize(types, cell[toItem]) <= cell[toItem].count && cell[item].count > 0)
  }

  /** The adding itself, once the queries have agreed. */
  method AddChecked(
      to: Item, dest: Item, index: int, toItem: Item?, item: Item, flags: Flags, maxQueryCount: nat, w: World)
    returns (remainderCount: nat)
    requires w.Valid() && Stacked(w.types, w.cell) && !flags.childIsOwner
    requires to in w.heap.parent && to.isContainer && item in w.heap.parent && w.heap.parent[item] == null
    requires item in w.cell && to in w.heap.list && dest in w.heap.parent && dest in w.heap.list && dest.isContainer
    requires item !in Ancestry(w.heap, dest)
    requires toItem != null ==>
               && 0 <= index < |w.heap.list[dest]| && w.heap.list[dest][index] == toItem && toItem in w.cell
    requires index < dest.maxSize
             || (Onto(w.types, w.cell, item, toItem) && Stackable(w.types, w.cell, toItem, item))
    requires Onto(w.types, w.cell, item, toItem) ==>
               && dest == to && w.cell[item].count <= maxQueryCount
               && Fits(w.types, w.heap, w.cell, to, item, w.cell[item].count, flags)
    modifies w`items, w`heap, w`cell, w`own, w`total, w.items
    ensures w.Valid() && Stacked(w.types, w.cell)
    ensures !Onto(w.types, old(w.cell), item, toItem) ==>
              && CanAttach(old(w.heap), dest, item) && remainderCount == 0
              && w.heap == Attached(old(w.heap), dest, item, 0) && w.cell == old(w.cell)
    ensures remainderCount <= old(w.cell)[item].count
    ensures remainderCount == LeftOver(w.types, old(w.heap), old(w.cell), dest, item, toItem, flags)
    ensures Gained(old(w.heap), old(w.cell), w.heap, w.cell, dest, KindOf(old(w.cell)[item]),
                   old(w.cell)[item].count - remainderCount,
                   !flags.noLimit && !Overfills(w.types, old(w.heap), old(w.cell), dest, item, toItem))
    ensures Onto(w.types, old(w.cell), item, toItem) ==>
              && toItem in w.cell
              && w.cell[toItem].count == old(w.cell)[toItem].count
                   + Merged(w.types, old(w.cell), item, toItem, old(w.cell)[item].count)
    ensures Overfills(w.types, old(w.heap), old(w.cell), dest, item, toItem) ==>
              dest in w.heap.list && |w.heap.list[dest]| == |old(w.heap).list[dest]| + 1
    decreases w.cell[item].count, 3
  {
    hide Climbing, Forest, Ledger, Ancestry, Capacity, Gained, Attached, Fits, Stacked, Stackable, Equal, World.Linked;
    remainderCount := 0;
    ghost var limited := !flags.noLimit && !Overfills(w.types, w.heap, w.cell, dest, item, toItem);
    w.LinkAt(item);
    w.LinkAt(dest);
    if toItem != null {
      ContentsLive(w.heap, dest);
      assert toItem in w.heap.list[dest];
      w.LinkAt(toItem);
    }
    assert CanAttach(w.heap, dest, item);
    if w.types(item.id).stackable && toItem != null && Equal(item, item.CellOf(), toItem, toItem.CellOf()) {
      remainderCount := MergeStack(to, toItem, index, item, flags, maxQueryCount, w);
    } else {
      GainedWhole(w.heap, w.cell, dest, item, limited);
      dest.AddThing(index, item, w);
    }
  }

  /** Whether an add goes onto the item aimed at instead of into a slot. */
  predicate Onto(types: Types, cell: map<Item, Cell>, item: Item, toItem: Item?)
  {
    item in cell && types(cell[item].id).stackable && toItem != null && toItem in cell
    && Equal(item, cell[item], toItem, cell[toItem])
  }

  lemma GainedWhole(s: State, cell: map<Item, Cell>, to: Item, item: Item, limited: bool)
    requires CanAttach(s, to, item) && item in cell && (limited ==> |s.list[to]| < to.maxSize)
    ensures Gained(s, cell, Attached(s, to, item, 0), cell, to, KindOf(cell[item]), cell[item].count, limited)
    ensures to in Attached(s, to, item, 0).list && |Attached(s, to, item, 0).list[to]| == |s.list[to]| + 1
  {
    var list := s.list[to];
    forall d ensures Count(cell, Insert(list, 0, item), d)
                  == Count(cell, list, d) + if d == cell[item].id then cell[item].count else 0 {
      CountInsert(cell, list, 0, item, d);
    }
  }

  lemma GainedOnStack(s: State, cell: map<Item, Cell>, to: Item, k: nat, c: Cell, n: nat, limited: bool)
    requires to in s.list && k < |s.list[to]| && Distinct(s.list[to]) && s.list[to][k] in cell
    requires Retouched(cell[s.list[to][k]], c) && c.count == cell[s.list[to][k]].count + n
    ensures Gained(s, cell, s, cell[s.list[to][k] := c], to, KindOf(cell[s.list[to][k]]), n, limited)
  {
    hide Lasting;
    forall d ensures Count(cell[s.list[to][k] := c], s.list[to], d)
                  == Count(cell, s.list[to], d) + if d == c.id then n else 0 {
      CountAfterFill(cell, s.list[to], k, c, n, d);
    }
  }

  lemma GainedAround(s: State, cell: map<Item, Cell>, to: Item, x: Item, c: Cell, kind: Kind, limited: bool)
    requires to in s.list && x !in s.list && x !in cell && x !in s.list[to]
    ensures Gained(s, cell, WithNew(s, x), cell[x := c], to, kind, 0, limited)
  {
    forall d ensures Count(cell[x := c], s.list[to], d) == Count(cell, s.list[to], d) {
      CountSame(cell, cell[x := c], s.list[to], d);
    }
  }

  lemma GainedTwice(
      s: State, cell: map<Item, Cell>, s': State, cell': map<Item, Cell>, t: State, cell'': map<Item, Cell>,
      to: Item, kind: Kind, k: nat, l: nat, limited: bool)
    requires to in s.list && Gained(s, cell, s', cell', to, kind, k, limited) && s'.list[to] == s.list[to]
    requires Gained(s', cell', t, cell'', to, kind, l, limited)
    ensures Gained(s, cell, t, cell'', to, kind, k + l, limited)
  {
    hide Lasting;
  }

  /** The merge of internalAddItem: it only ever happens in the container the add was aimed at. */
  method MergeStack(to: Item, toItem: Item, index: int, item: Item, flags: Flags, maxQueryCount: nat, w: World)
    returns (remainderCount: nat)
    requires w.Valid() && Stacked(w.types, w.cell) && !flags.childIsOwner && CanAttach(w.heap, to, item)
    requires item in w.cell && w.types(w.cell[item].id).stackable && w.cell[item].count <= maxQueryCount
    requires 0 <= index < |w.heap.list[to]| && w.heap.list[to][index] == toItem && toItem in w.cell
    requires Equal(item, w.cell[item], toItem, w.cell[toItem])
    requires index < to.maxSize || Stackable(w.types, w.cell, toItem, item)
    requires Fits(w.types, w.heap, w.cell, to, item, w.cell[item].count, flags)
    modifies w`items, w`heap, w`cell, w`own, w`total, w.items
    ensures w.Valid() && Stacked(w.types, w.cell) && to in old(w.heap).list
    ensures remainderCount <= old(w.cell)[item].count
    ensures remainderCount == LeftOver(w.types, old(w.heap), old(w.cell), to, item, toItem, flags)
    ensures Gained(old(w.heap), old(w.cell), w.heap, w.cell, to, KindOf(old(w.cell)[item]),
                   old(w.cell)[item].count - remainderCount,
                   !flags.noLimit && !Overfills(w.types, old(w.heap), old(w.cell), to, item, toItem))
    ensures toItem in w.cell
    ensures w.cell[toItem].count == old(w.cell)[toItem].count
                                    + Merged(w.types, old(w.cell), item, toItem, old(w.cell)[item].count)
    ensures Overfills(w.types, old(w.heap), old(w.cell), to, item, toItem) ==>
              to in w.heap.list && |w.heap.list[to]| == |old(w.heap).list[to]| + 1
    decreases w.cell[item].count, 2
  {
    hide Climbing, Forest, Ledger, Ancestry, Gained, Fits, Attached, Stackable, Equal, Stacked, Full, Pushed,
         World.Linked;
    remainderCount := 0;
    ghost var s, cell := w.heap, w.cell;
    ContentsLive(s, to);
    assert toItem in s.list[to];
    w.LinkAt(toItem);
    ghost var limited := !flags.noLimit && !Overfills(w.types, s, cell, to, item, toItem);
    var n, m := FillStack(to, toItem, index, item, flags, maxQueryCount, w);
    ghost var cell' := w.cell;
    if m - n > 0 {
      remainderCount := AddRest(to, index, item, m - n, flags, w);
      FilledThenRest(w.types, s, cell, cell', w.heap, w.cell, to, toItem, KindOf(cell[item]), n,
                     m - n - remainderCount, limited);
    } else {
      GainedLoosely(s, cell, s, cell', to, KindOf(cell[item]), n, true, limited);
    }
  }

  /** Filling a stack and then adding the rest: a gain in all, and the stack stays as full as it is. */
  lemma FilledThenRest(
      types: Types, s: State, cell: map<Item, Cell>, cell': map<Item, Cell>, t: State, cell'': map<Item, Cell>,
      to: Item, i: Item, kind: Kind, k: nat, l: nat, limited: bool)
    requires to in s.list && Gained(s, cell, s, cell', to, kind, k, true)
    requires Gained(s, cell', t, cell'', to, kind, l, limited)
    requires i in s.list[to] && i in cell' && Stacked(types, cell'') && Full(types, cell'[i])
    ensures Gained(s, cell, t, cell'', to, kind, k + l, limited)
    ensures i in cell'' && cell''[i].count == cell'[i].count
  {
    hide Gained, Stacked, Full;
    GainedLoosely(s, cell, s, cell', to, kind, k, true, limited);
    GainedTwice(s, cell, s, cell', t, cell'', to, kind, k, l, limited);
    FullStays(types, s, cell', t, cell'', to, i, kind, l, limited);
  }

  predicate Full(types: Types, c: Cell)
  {
    types(c.id).stackable && c.count >= StackSize(types, c)
  }

  /** A full stack stays as full as it is when its container gains. */
  lemma FullStays(
      types: Types, s: State, cell: map<Item, Cell>, s': State, cell': map<Item, Cell>, to: Item, i: Item, kind: Kind,
      k: nat, limited: bool)
    requires to in s.list && i in s.list[to] && i in cell && Stacked(types, cell')
    requires Gained(s, cell, s', cell', to, kind, k, limited)
    requires Full(types, cell[i])
    ensures i in cell' && cell'[i].count == cell[i].count
  {
    hide Lasting;
  }

  /** Moves onto the equal stack `toItem` what fits of the `m` pieces that are to be added. */
  method FillStack(to: Item, toItem: Item, index: int, item: Item, flags: Flags, maxQueryCount: nat, w: World)
    returns (n: nat, m: nat)
    requires w.Valid() && Stacked(w.types, w.cell) && CanAttach(w.heap, to, item) && to in w.heap.list
    requires item in w.cell && w.types(w.cell[item].id).stackable && w.cell[item].count <= maxQueryCount
    requires 0 <= index < |w.heap.list[to]| && w.heap.list[to][index] == toItem && toItem in w.cell
    requires Equal(item, w.cell[item], toItem, w.cell[toItem])
    requires Fits(w.types, w.heap, w.cell, to, item, w.cell[item].count, flags)
    modifies w`cell, w`own, w`total, toItem`id, toItem`count, toItem`attrs, w.items`totalWeight
    ensures w.Valid() && Stacked(w.types, w.cell) && n <= m == old(w.cell)[item].count
    ensures item in w.cell && w.cell[item].id == old(w.cell)[item].id
    ensures n < m ==> w.cell[item] == old(w.cell)[item]
    ensures var room := StackSize(w.types, old(w.cell)[toItem]) - old(w.cell)[toItem].count;
            n == if room < m then room else m
    ensures n == Merged(w.types, old(w.cell), item, toItem, m)
    ensures toItem in w.cell && w.cell[toItem].count == old(w.cell)[toItem].count + n
    ensures n < m ==> Full(w.types, w.cell[toItem])
    ensures n == 0 < m ==> !Stackable(w.types, old(w.cell), toItem, item)
    ensures 0 < n < m ==> Fits(w.types, w.heap, w.cell, to, item, m - n, flags)
    ensures Gained(w.heap, old(w.cell), w.heap, w.cell, to, KindOf(old(w.cell)[item]), n, true)
  {
    hide Climbing, Forest, Ledger, Ancestry, Gained, Capacity, Attached, World.Linked;
    w.LinkAt(item);
    ContentsLive(w.heap, to);
    assert toItem in w.heap.list[to];
    w.LinkAt(toItem);
    ghost var s, cell := w.heap, w.cell;
    m := if item.count < maxQueryCount then item.count else maxQueryCount;
    var room := StackSize(w.types, toItem.CellOf()) - toItem.count;
    n := if room < m then room else m;
    AddToStack(to, toItem, index, n, w);
    GainedOnStack(s, cell, to, index, w.cell[toItem], n, true);
    if 0 < n < m {
      FillLowersCapacity(w.types, s, cell, to, index, w.cell[toItem], item);
    }
  }

  /** What did not fit on the stack goes through the whole procedure again. */
  method AddRest(to: Item, index: int, item: Item, count: nat, flags: Flags, w: World)
    returns (remainderCount: nat)
    requires w.Valid() && Stacked(w.types, w.cell) && !flags.childIsOwner && CanAttach(w.heap, to, item)
    requires item in w.cell && w.types(w.cell[item].id).stackable && 1 <= count <= w.cell[item].count
    requires count == w.cell[item].count ==> index < to.maxSize
    requires count < w.cell[item].count ==> Fits(w.types, w.heap, w.cell, to, item, count, flags)
    modifies w`items, w`heap, w`cell, w`own, w`total, w.items
    ensures w.Valid() && Stacked(w.types, w.cell) && to in old(w.heap).list
    ensures remainderCount == if Blocked(old(w.heap), to, flags) && count < old(w.cell)[item].count then count else 0
    ensures Gained(old(w.heap), old(w.cell), w.heap, w.cell, to, KindOf(old(w.cell)[item]), count - remainderCount,
                   !flags.noLimit && !(count == old(w.cell)[item].count && |old(w.heap).list[to]| >= to.maxSize))
    ensures count == old(w.cell)[item].count ==>
              to in w.heap.list && |w.heap.list[to]| == |old(w.heap).list[to]| + 1
    decreases w.cell[item].count, 1
  {
    hide Climbing, Ledger, Ancestry, Gained, Fits, Attached, Stacked, World.Linked;
    remainderCount := 0;
    w.LinkAt(item);
    w.LinkAt(to);
    if item.count != count {
      remainderCount := AddSplit(to, item, count, flags, w);
    } else {
      GainedWhole(w.heap, w.cell, to, item, !flags.noLimit && |w.heap.list[to]| < to.maxSize);
      to.AddThing(index, item, w);
    }
  }

  /** A copy of part of the stack is added on its own. */
  method AddSplit(to: Item, item: Item, count: nat, flags: Flags, w: World)
    returns (remainderCount: nat)
    requires w.Valid() && Stacked(w.types, w.cell) && !flags.childIsOwner
    requires to in w.heap.parent && to.isContainer && item in w.heap.parent && w.heap.parent[item] == null
    requires item in w.cell && w.types(w.cell[item].id).stackable && 1 <= count < w.cell[item].count
    requires Fits(w.types, w.heap, w.cell, to, item, count, flags)
    modifies w`items, w`heap, w`cell, w`own, w`total, w.items
    ensures w.Valid() && Stacked(w.types, w.cell) && to in old(w.heap).list
    ensures remainderCount == if Blocked(old(w.heap), to, flags) then count else 0
    ensures Gained(old(w.heap), old(w.cell), w.heap, w.cell, to, KindOf(old(w.cell)[item]), count - remainderCount,
                   !flags.noLimit)
    decreases w.cell[item].count, 0
  {
    hide Climbing, Ledger, Ancestry, Gained, Capacity, Fits, Aimed, Overfills, QueryAddResult,
         MaxCountResult, World.Linked;
    remainderCount := 0;
    ghost var s, cell := w.heap, w.cell;
    var x := CloneFor(to, item, count, flags, w);
    ghost var s', cell' := w.heap, w.cell;
    var r, rest, dest, slot, toItem := InternalAddItem(to, x, INDEX_WHEREEVER, flags, false, w);
    FittingPasses(w.types, s', cell', to, x, flags, dest, slot, toItem);
    if r != NoError {
      remainderCount := count;
    } else {
      GainedTwice(s, cell, s', cell', w.heap, w.cell, to, KindOf(cell[item]), 0, count, !flags.noLimit);
    }
  }

  /** A copy with `count` pieces, for which `to` has the same room. */
  method CloneFor(to: Item, item: Item, count: nat, flags: Flags, w: World) returns (x: Item)
    requires w.Valid() && Stacked(w.types, w.cell) && to in w.heap.parent && to.isContainer
    requires item in w.heap.parent && w.heap.parent[item] == null
    requires item in w.cell && w.types(w.cell[item].id).stackable && 1 <= count < w.cell[item].count
    modifies w`items, w`heap, w`cell, w`own, w`total
    ensures w.Valid() && Stacked(w.types, w.cell) && fresh(w.items - old(w.items))
    ensures x in w.heap.parent && x in w.cell && to in w.heap.parent && x in w.heap.list && to in w.heap.list
    ensures w.heap.parent[x] == null && w.cell[x] == old(w.cell)[item].(count := count)
    ensures x !in Ancestry(w.heap, to)
    ensures to in old(w.heap).list && w.heap.list[to] == old(w.heap).list[to]
    ensures Gained(old(w.heap), old(w.cell), w.heap, w.cell, to, KindOf(old(w.cell)[item]), 0, !flags.noLimit)
    ensures old(Fits(w.types, w.heap, w.cell, to, item, count, flags)) ==>
              Fits(w.types, w.heap, w.cell, to, x, count, flags)
  {
    hide Climbing, Ledger, Ancestry, Gained, Capacity, World.Linked;
    w.LinkAt(item);
    ContentsLive(w.heap, to);
    ghost var s, cell := w.heap, w.cell;
    x := item.Clone(count, w);
    CloneFits(w.types, s, cell, to, item, x, count);
    StackedEdit(w.types, cell, x, w.cell[x]);
    GainedAround(s, cell, to, x, w.cell[x], KindOf(cell[item]), !flags.noLimit);
  }

  // ----- Game::internalMoveItem -----

  /** `k` pieces of type `id` went from `from` to `dest`; no container's count changed otherwise. */
  ghost predicate Transferred(
      s: State, cell: map<Item, Cell>, s': State, cell': map<Item, Cell>, from: Item, dest: Item, id: nat, k: nat)
  {
    forall c, d {:trigger Count(cell', s'.list[c], d)} :: c in s.list ==>
      c in s'.list && Count(cell', s'.list[c], d)
        == Count(cell, s.list[c], d)
           + if d != id then 0 else (if c == dest then k else 0) - (if c == from then k else 0)
  }

  ghost predicate Consistent(s: State, cell: map<Item, Cell>)
  {
    Forest(s) && cell.Keys == s.parent.Keys
  }

  lemma ValidIsConsistent(w: World)
    requires w.Valid()
    ensures Consistent(w.heap, w.cell)
  {
    hide Forest, Ledger, World.CellsLinked, World.OwnLinked, World.TotalLinked, World.ShapeLinked;
    w.LinkKeys();
  }

  lemma ShiftedElsewhere(
      s: State, cell: map<Item, Cell>, s': State, cell': map<Item, Cell>, c: Item, id: nat, k: int, b: Item, d: nat)
    requires Consistent(s, cell) && c in s.list && b in s.list && b != c
    requires Shifted(s, cell, s', cell', c, id, k)
    ensures b in s'.list && Count(cell', s'.list[b], d) == Count(cell, s.list[b], d)
  {
    forall i <- s.list[b] ensures CountAt(cell, i, d) == CountAt(cell', i, d) {
      assert s.parent[i] == b && i in cell;
    }
    CountSame(cell, cell', s.list[b], d);
  }

  /** A loss in one place followed by an equal gain in another is a transfer. */
  lemma LossAndGain(
      s: State, cell: map<Item, Cell>, s': State, cell': map<Item, Cell>, t: State, cell'': map<Item, Cell>,
      from: Item, dest: Item, id: nat, k: nat)
    requires Consistent(s, cell) && Consistent(s', cell') && from in s.list && dest in s.list
    requires Shifted(s, cell, s', cell', from, id, 0 - k)
    requires dest in s'.list && Shifted(s', cell', t, cell'', dest, id, k)
    ensures Transferred(s, cell, t, cell'', from, dest, id, k)
  {
    forall c, d | c in s.list
      ensures c in t.list && Count(cell'', t.list[c], d)
        == Count(cell, s.list[c], d)
           + if d != id then 0 else (if c == dest then k else 0) - (if c == from then k else 0)
    {
      if c != from {
        ShiftedElsewhere(s, cell, s', cell', from, id, 0 - k, c, d);
      }
      if c != dest {
        ShiftedElsewhere(s', cell', t, cell'', dest, id, k, c, d);
      }
    }
  }

  /** The redirections at the start of a move; `floorN` counts them as the source does. */
  method ResolveDestination(to: Item, index: int, item: Item, flags: Flags, w: World)
    returns (dest: Item, index': int, toItem: Item?, flags': Flags)
    requires w.Linked() && Forest(w.heap) && to in w.heap.parent && to.isContainer && item in w.heap.parent
    ensures dest in w.heap.parent && dest.isContainer && dest in w.heap.list
    ensures flags' == if dest == to then flags else NO_FLAGS
    ensures item in w.cell && to in w.heap.list
            && Resolved(w.types, w.heap, w.cell, to, index, item, flags, dest, index', toItem)
    ensures toItem != null ==>
              0 <= index' < |w.heap.list[dest]| && w.heap.list[dest][index'] == toItem && toItem in w.cell
    ensures index' < dest.maxSize || (toItem != null && Stackable(w.types, w.cell, toItem, item))
    ensures 0 <= index' < |w.heap.list[dest]| ==> toItem != null
  {
    hide Climbing, Forest, Aimed, World.Linked;
    w.LinkAt(item);
    dest, flags' := to, flags;
    var floorN := 0;
    ContentsLive(w.heap, dest);
    var subCylinder;
    subCylinder, index', toItem := QueryDestination(dest, index, item, flags', w);
    while subCylinder != dest
      invariant dest in w.heap.parent && dest.isContainer && dest in w.heap.list
      invariant subCylinder in w.heap.parent && subCylinder.isContainer
      invariant subCylinder != dest ==>
                  && floorN == 0 && dest == to && flags' == flags && index' == INDEX_WHEREEVER && toItem == null
                  && Aimed(w.types, w.heap, w.cell, to, index, item, flags, subCylinder, INDEX_WHEREEVER, null)
      invariant subCylinder == dest ==>
                  && flags' == (if dest == to then flags else NO_FLAGS)
                  && Resolved(w.types, w.heap, w.cell, to, index, item, flags, dest, index', toItem)
      invariant toItem != null ==>
                  0 <= index' < |w.heap.list[dest]| && w.heap.list[dest][index'] == toItem && toItem in w.cell
      invariant subCylinder == dest && 0 <= index' < |w.heap.list[dest]| ==> toItem != null
      invariant subCylinder == dest ==>
                  index' < dest.maxSize || (toItem != null && Stackable(w.types, w.cell, toItem, item))
      decreases subCylinder != dest
    {
      dest, flags', floorN := subCylinder, NO_FLAGS, floorN + 1;
      if floorN >= MAP_MAX_LAYERS {
        break;
      }
      ContentsLive(w.heap, dest);
      subCylinder, index', toItem := QueryDestination(dest, index', item, flags', w);
    }
  }

  lemma StackSold(cell: map<Item, Cell>, s: State, from: Item, k: nat, m: nat)
    requires from in s.list && k < |s.list[from]| && Distinct(s.list[from]) && s.list[from][k] in cell
    requires m <= cell[s.list[from][k]].count
    ensures var x := s.list[from][k];
            Shifted(s, cell, s, cell[x := cell[x].(count := cell[x].count - m)], from, cell[x].id, 0 - m)
  {
    var x := s.list[from][k];
    var c := cell[x].(count := cell[x].count - m);
    forall d ensures Count(cell[x := c], s.list[from], d)
                  == Count(cell, s.list[from], d) + if d == c.id then 0 - m else 0 {
      CountEdit(cell, s.list[from], k, c, d);
    }
  }

  lemma WholeSold(cell: map<Item, Cell>, s: State, from: Item, k: nat)
    requires from in s.list && k < |s.list[from]| && s.list[from][k] in cell
    ensures var x := s.list[from][k];
            Shifted(s, cell, Detached(s, from, k), cell, from, cell[x].id, 0 - cell[x].count)
  {
    var x := s.list[from][k];
    forall d ensures Count(cell, Remove(s.list[from], k), d)
                  == Count(cell, s.list[from], d) + if d == cell[x].id then 0 - cell[x].count else 0 {
      CountRemove(cell, s.list[from], k, d);
    }
  }

  /** What taking an item out leaves alone for a container that is not inside it. */
  lemma DetachedElsewhere(s: State, from: Item, k: nat, dest: Item)
    requires Forest(s) && from in s.parent && k < |s.list[from]| && dest in s.parent
    requires s.list[from][k] !in Ancestry(s, dest)
    ensures s.list[from][k] in s.parent && s.list[from][k] !in Ancestry(Detached(s, from, k), dest)
    ensures forall j <- s.list[dest] :: j != s.list[from][k] ==> j in Detached(s, from, k).list[dest]
    ensures dest in Detached(s, from, k).list && |Detached(s, from, k).list[dest]| <= |s.list[dest]|
    ensures Detached(s, from, k).parent == s.parent[s.list[from][k] := null]
    ensures Detached(s, from, k).parent.Keys == s.parent.Keys && Detached(s, from, k).list.Keys == s.list.Keys
  {
    var x, t := s.list[from][k], Detached(s, from, k);
    assert x in s.list[from] && Distinct(s.list[from]);
    DetachKeepsForest(s, from, k);
    RemoveAt(s.list[from], k);
    AncestryClosed(s, dest);
    AncestryKept(s, t, dest);
  }

  /** A move of `m` pieces takes all there is: a stack of that size, or anything that does not stack. */
  predicate Wholly(types: Types, c: Cell, m: nat)
  {
    !types(c.id).stackable || m == c.count
  }

  /** `item` has left `from`, or stays there when only a part of it is taken. */
  ghost predicate TakenOut(s: State, t: State, from: Item, item: Item, whole: bool)
  {
    if whole then
      from in s.list && exists k :: 0 <= k < |s.list[from]| && s.list[from][k] == item && t == Detached(s, from, k)
    else t == s
  }

  /** The cells after `m` pieces of `item` were taken; an item taken whole keeps its own. */
  ghost function Rest(types: Types, cell: map<Item, Cell>, item: Item, m: nat): (r: map<Item, Cell>)
    requires item in cell
    ensures r.Keys == cell.Keys
  {
    if Wholly(types, cell[item], m) || m > cell[item].count then cell
    else cell[item := cell[item].(count := cell[item].count - m)]
  }

  /** How many of `m` pieces of `item` go onto the stack aimed at. */
  ghost function Merged(types: Types, cell: map<Item, Cell>, item: Item, toItem: Item?, m: nat): nat
  {
    if !Onto(types, cell, item, toItem) || StackSize(types, cell[toItem]) <= cell[toItem].count then 0
    else if StackSize(types, cell[toItem]) - cell[toItem].count < m
    then StackSize(types, cell[toItem]) - cell[toItem].count
    else m
  }

  /**
   Putting `m` pieces of `item` into `dest`: what fits goes onto the stack aimed at, which keeps its
   lasting attributes; the rest is laid at the front as `x`, a copy of `item` with that many
   pieces. An item that does not stack is laid there itself. No other item is touched.
   */
  ghost predicate Deposited(
      types: Types, s: State, cell: map<Item, Cell>, t: State, cell': map<Item, Cell>, dest: Item, item: Item,
      toItem: Item?, m: nat, x: Item?)
    requires item in cell && dest in s.list
  {
    var n := Merged(types, cell, item, toItem, m);
    && (x == null <==> types(cell[item].id).stackable && n == m)
    && (x == null ==> t == s)
    && (x != null && types(cell[item].id).stackable ==>
          && x !in s.parent && x !in cell && t == Attached(WithNew(s, x), dest, x, 0)
          && x in cell' && cell'[x] == cell[item].(count := m - n))
    && (!types(cell[item].id).stackable ==> x == item && item in s.rank && t == Attached(s, dest, item, 0))
    && (forall i <- cell :: i in cell' && (i != toItem || !Onto(types, cell, item, toItem) ==> cell'[i] == cell[i]))
    && (Onto(types, cell, item, toItem) ==>
          Retouched(cell[toItem], cell'[toItem]) && cell'[toItem].count == cell[toItem].count + n)
  }

  /** Takes `m` pieces of a stack, or a whole unstackable item, out of `from`. */
  method TakeFrom(from: Item, item: Item, m: nat, dest: Item, w: World)
    requires w.Valid() && Stacked(w.types, w.cell)
    requires from in w.heap.parent && from.isContainer && item in w.heap.parent && item in w.cell
    requires from in w.heap.list && item in w.heap.list[from]
    requires dest in w.heap.parent && dest in w.heap.list && item !in Ancestry(w.heap, dest) && dest.isContainer
    requires w.types(w.cell[item].id).stackable ==> m <= w.cell[item].count
    modifies w`heap, w`cell, w`own, w`total, w.items
    ensures w.Valid() && Stacked(w.types, w.cell)
    ensures w.heap.parent.Keys == old(w.heap).parent.Keys && w.cell.Keys == old(w.cell).Keys
    ensures w.heap.list.Keys == old(w.heap).list.Keys
    ensures Shifted(old(w.heap), old(w.cell), w.heap, w.cell, from, old(w.cell)[item].id,
                    0 - if w.types(old(w.cell)[item].id).stackable then m else old(w.cell)[item].count)
    ensures w.cell[item].id == old(w.cell)[item].id && w.cell[item].attrs == old(w.cell)[item].attrs
    ensures forall i <- w.cell :: i != item ==> w.cell[i] == old(w.cell)[i]
    ensures forall j <- old(w.heap).list[dest] :: j != item ==> j in w.heap.list[dest]
    ensures |w.heap.list[dest]| <= |old(w.heap).list[dest]|
    ensures !w.types(old(w.cell)[item].id).stackable ==> w.cell == old(w.cell) && CanAttach(w.heap, dest, item)
    ensures if w.types(old(w.cell)[item].id).stackable && m != old(w.cell)[item].count then w.heap == old(w.heap)
            else w.cell == old(w.cell) && w.heap.parent == old(w.heap).parent[item := null]
    ensures TakenOut(old(w.heap), w.heap, from, item, Wholly(w.types, old(w.cell)[item], m))
    ensures w.cell == Rest(w.types, old(w.cell), item, m)
  {
    hide Climbing, Forest, Ledger, Ancestry, Shifted, Reduced, Detached, Distinct,
         World.ShapeLinked, World.CellsLinked, World.OwnLinked, World.TotalLinked;
    ghost var s, cell := w.heap, w.cell;
    ContentsLive(s, from);
    TakeOff(from, item, m, w);
    hide Rest, TakenOut, Stacked;
    TakenShifts(w.types, s, cell, w.heap, from, item, m);
    TakenLeaves(w.types, s, cell, w.heap, from, item, m, dest);
  }

  method TakeOff(from: Item, item: Item, m: nat, w: World)
    requires w.Valid() && Stacked(w.types, w.cell)
    requires from in w.heap.parent && from.isContainer && item in w.heap.parent && item in w.cell
    requires from in w.heap.list && item in w.heap.list[from]
    requires w.types(w.cell[item].id).stackable ==> m <= w.cell[item].count
    modifies w`heap, w`cell, w`own, w`total, w.items
    ensures w.Valid() && Stacked(w.types, w.cell)
    ensures TakenOut(old(w.heap), w.heap, from, item, Wholly(w.types, old(w.cell)[item], m))
    ensures w.cell == Rest(w.types, old(w.cell), item, m)
  {
    hide Climbing, Forest, Ledger, Ancestry, Reduced, Detached, Distinct,
         World.ShapeLinked, World.CellsLinked, World.OwnLinked, World.TotalLinked;
    w.LinkAt(from);
    w.LinkAt(item);
    if w.types(item.id).stackable && m != item.count {
      ReducedExact(item.count, m);
      StackedEdit(w.types, w.cell, item, w.cell[item].(count := item.count - m));
    }
    from.RemoveThing(item, m, w);
  }

  lemma TakenLeaves(
      types: Types, s: State, cell: map<Item, Cell>, t: State, from: Item, item: Item, m: nat, dest: Item)
    requires Forest(s) && from in s.parent && from in s.list && item in s.list[from] && item in cell
    requires dest in s.parent && dest.isContainer && dest in s.list && item !in Ancestry(s, dest)
    requires types(cell[item].id).stackable ==> m <= cell[item].count
    requires TakenOut(s, t, from, item, Wholly(types, cell[item], m)) && Forest(t)
    ensures t.parent.Keys == s.parent.Keys && t.list.Keys == s.list.Keys
    ensures var rest := Rest(types, cell, item, m);
            && rest[item].id == cell[item].id && rest[item].attrs == cell[item].attrs
            && (forall i <- rest :: i != item ==> rest[i] == cell[i])
            && (Wholly(types, cell[item], m) ==> rest == cell)
    ensures forall j <- s.list[dest] :: j != item ==> j in t.list[dest]
    ensures |t.list[dest]| <= |s.list[dest]|
    ensures !types(cell[item].id).stackable ==> CanAttach(t, dest, item)
    ensures if Wholly(types, cell[item], m) then t.parent == s.parent[item := null] else t == s
  {
    hide Forest, Ancestry, Detached, Distinct;
    if Wholly(types, cell[item], m) {
      var k :| 0 <= k < |s.list[from]| && s.list[from][k] == item && t == Detached(s, from, k);
      DetachedElsewhere(s, from, k, dest);
    }
  }

  lemma TakenShifts(types: Types, s: State, cell: map<Item, Cell>, t: State, from: Item, item: Item, m: nat)
    requires from in s.list && item in s.list[from] && Distinct(s.list[from]) && item in cell
    requires types(cell[item].id).stackable ==> m <= cell[item].count
    requires TakenOut(s, t, from, item, Wholly(types, cell[item], m))
    ensures Shifted(s, cell, t, Rest(types, cell, item, m), from, cell[item].id,
                    0 - if types(cell[item].id).stackable then m else cell[item].count)
  {
    hide Shifted, Detached;
    if Wholly(types, cell[item], m) {
      var k :| 0 <= k < |s.list[from]| && s.list[from][k] == item && t == Detached(s, from, k);
      WholeSold(cell, s, from, k);
    } else {
      var k :| 0 <= k < |s.list[from]| && s.list[from][k] == item;
      StackSold(cell, s, from, k, m);
    }
  }

  lemma ChildOffChain(s: State, c: Item, x: Item)
    requires Forest(s) && c in s.parent && x in s.parent && s.parent[x] == c
    ensures x !in Ancestry(s, c) && c in s.list && x in s.list[c] && c.isContainer
  {
    AncestryClosed(s, c);
  }

  /** Game::internalRemoveItem; a count of -1 stands for all of it. */
  method InternalRemoveItem(item: Item, count: int, test: bool, canRemove: bool, flags: Flags, w: World)
    returns (ret: ReturnValue, ghost amount: nat)
    requires w.Valid() && Stacked(w.types, w.cell) && item in w.heap.parent && item in w.cell && count >= -1
    modifies w`heap, w`cell, w`own, w`total, w.items
    ensures w.Valid() && Stacked(w.types, w.cell)
    ensures amount == if count == -1 then old(w.cell)[item].count else count
    ensures ret == NoError <==>
              && old(w.heap).parent[item] != null && canRemove && amount != 0
              && (w.types(old(w.cell)[item].id).stackable ==> amount <= old(w.cell)[item].count)
    ensures ret != NoError || test ==> w.heap == old(w.heap) && w.cell == old(w.cell)
    ensures ret == NoError && !test ==>
              && old(w.heap).parent[item] in old(w.heap).list
              && Shifted(old(w.heap), old(w.cell), w.heap, w.cell, old(w.heap).parent[item], old(w.cell)[item].id,
                         0 - if w.types(old(w.cell)[item].id).stackable then amount else old(w.cell)[item].count)
              && if w.types(old(w.cell)[item].id).stackable && amount != old(w.cell)[item].count
                 then w.heap == old(w.heap)
                 else w.heap.parent == old(w.heap).parent[item := null] && w.cell == old(w.cell)
  {
    hide Climbing, Forest, Ledger, Ancestry, Shifted, World.Linked;
    w.LinkAt(item);
    var n := if count == -1 then item.count else count;
    amount := n;
    var cylinder := item.parent;
    if cylinder == null {
      return NotPossible, amount;
    }
    ContentsLive(w.heap, item);
    assert cylinder in w.heap.parent && cylinder.isContainer by {
      ParentClimbs(w.heap, item);
    }
    ChildOffChain(w.heap, cylinder, item);
    w.LinkAt(cylinder);
    ret := QueryRemove(cylinder, item, n, flags.(ignoreNotMoveable := true), w);
    if ret != NoError {
      return;
    }
    if !canRemove {
      return NotPossible, amount;
    }
    if !test {
      TakeFrom(cylinder, item, n, cylinder, w);
    }
  }

  /**
   Puts `m` pieces of the stack `item` into `dest`: first onto `toItem` if it is an equal stack,
   the rest as a new stack at the front.
   */
  method PutStack(dest: Item, slot: int, toItem: Item?, item: Item, m: nat, w: World) returns (ghost x: Item?)
    requires w.Valid() && Stacked(w.types, w.cell)
    requires dest in w.heap.parent && dest.isContainer && item in w.heap.parent && item in w.cell
    requires w.types(w.cell[item].id).stackable && m <= w.types(w.cell[item].id).stackSize <= 255
    requires dest in w.heap.list
    requires toItem != null ==> toItem in w.heap.list[dest] && toItem in w.cell && toItem != item
    requires (toItem != null && Equal(item, w.cell[item], toItem, w.cell[toItem])
              && m <= StackSize(w.types, w.cell[toItem]) - w.cell[toItem].count)
             || (slot < dest.maxSize && |w.heap.list[dest]| < dest.maxSize)
    modifies w`items, w`heap, w`cell, w`own, w`total, w.items
    ensures w.Valid() && Stacked(w.types, w.cell)
    ensures dest in w.heap.list
    ensures Gained(old(w.heap), old(w.cell), w.heap, w.cell, dest, KindOf(old(w.cell)[item]), m, true)
    ensures Deposited(w.types, old(w.heap), old(w.cell), w.heap, w.cell, dest, item, toItem, m, x)
  {
    hide Climbing, Forest, Ledger, Ancestry, Gained, Stacked, World.Linked, Lasting, WithNew, Attached;
    x := null;
    ContentsLive(w.heap, dest);
    ghost var s, cell := w.heap, w.cell;
    var n := 0;
    GainedNothing(s, cell, dest, KindOf(cell[item]));
    if toItem != null {
      w.LinkAt(item);
      w.LinkAt(toItem);
      if Equal(item, item.CellOf(), toItem, toItem.CellOf()) {
        n := TopUp(dest, toItem, item, m, w);
      }
    }
    if m - n > 0 {
      x := AddNewStack(dest, slot, item, m - n, s, cell, n, w);
    }
  }

  /** Moves onto the equal stack `toItem` what fits of `m` pieces. */
  method TopUp(dest: Item, toItem: Item, item: Item, m: nat, w: World) returns (n: nat)
    requires w.Valid() && Stacked(w.types, w.cell) && dest in w.heap.parent && dest.isContainer
    requires item in w.heap.parent && item in w.cell && toItem != item
    requires w.types(w.cell[item].id).stackable && dest in w.heap.list && toItem in w.heap.list[dest]
    requires toItem in w.cell && toItem in w.items && Equal(item, w.cell[item], toItem, w.cell[toItem])
    modifies w`cell, w`own, w`total, toItem`id, toItem`count, toItem`attrs, w.items`totalWeight
    ensures w.Valid() && Stacked(w.types, w.cell)
    ensures item in w.cell && w.cell[item] == old(w.cell)[item]
    ensures n == Merged(w.types, old(w.cell), item, toItem, m) <= m
    ensures n == m || n == StackSize(w.types, old(w.cell)[toItem]) - old(w.cell)[toItem].count
    ensures toItem in w.cell && w.cell == old(w.cell)[toItem := w.cell[toItem]]
    ensures Retouched(old(w.cell)[toItem], w.cell[toItem]) && w.cell[toItem].count == old(w.cell)[toItem].count + n
    ensures Gained(w.heap, old(w.cell), w.heap, w.cell, dest, KindOf(old(w.cell)[item]), n, true)
  {
    hide Climbing, Forest, Ledger, Ancestry, Gained, World.Linked, Lasting;
    ContentsLive(w.heap, dest);
    w.LinkAt(toItem);
    ghost var s, cell := w.heap, w.cell;
    var room := StackSize(w.types, toItem.CellOf()) - toItem.count;
    n := if room < m then room else m;
    ghost var k :| 0 <= k < |s.list[dest]| && s.list[dest][k] == toItem;
    AddToStack(dest, toItem, k, n, w);
    GainedOnStack(s, cell, dest, k, w.cell[toItem], n, true);
  }

  /** Puts what a move took into `dest`. */
  method PutDown(dest: Item, slot: int, toItem: Item?, item: Item, m: nat, ghost moved: nat, w: World)
    returns (ghost x: Item?)
    requires w.Valid() && Stacked(w.types, w.cell)
    requires dest in w.heap.parent && dest.isContainer && item in w.heap.parent && item in w.cell
    requires dest in w.heap.list
    requires toItem != null ==> toItem in w.heap.list[dest] && toItem in w.cell && toItem != item
    requires moved == if w.types(w.cell[item].id).stackable then m else w.cell[item].count
    requires if w.types(w.cell[item].id).stackable
             then m <= w.types(w.cell[item].id).stackSize <= 255
                  && ((toItem != null && Equal(item, w.cell[item], toItem, w.cell[toItem])
                       && m <= StackSize(w.types, w.cell[toItem]) - w.cell[toItem].count)
                      || (slot < dest.maxSize && |w.heap.list[dest]| < dest.maxSize))
             else slot < dest.maxSize && |w.heap.list[dest]| < dest.maxSize && CanAttach(w.heap, dest, item)
    modifies w`items, w`heap, w`cell, w`own, w`total, w.items
    ensures w.Valid() && Stacked(w.types, w.cell) && dest in w.heap.list
    ensures Gained(old(w.heap), old(w.cell), w.heap, w.cell, dest, KindOf(old(w.cell)[item]), moved, true)
    ensures !w.types(old(w.cell)[item].id).stackable ==> item in w.heap.parent && w.heap.parent[item] == dest
    ensures Deposited(w.types, old(w.heap), old(w.cell), w.heap, w.cell, dest, item, toItem, moved, x)
  {
    hide Climbing, Forest, Ledger, Ancestry, Gained, Shifted, OnlyIn, Pushed, Lasting, World.ShapeLinked,
         World.CellsLinked, World.OwnLinked, World.TotalLinked;
    x := item;
    w.LinkAt(item);
    if w.types(item.id).stackable {
      x := PutStack(dest, slot, toItem, item, m, w);
    } else {
      w.LinkAt(dest);
      ContentsLive(w.heap, item);
      GainedWhole(w.heap, w.cell, dest, item, true);
      dest.AddThing(slot, item, w);
    }
  }

  lemma GainedNothing(s: State, cell: map<Item, Cell>, to: Item, kind: Kind)
    requires to in s.list
    ensures Gained(s, cell, s, cell, to, kind, 0, true)
  {
  }

  method AddNewStack(
      dest: Item, slot: int, item: Item, newCount: nat, ghost s: State, ghost cell: map<Item, Cell>, ghost n: nat,
      w: World)
    returns (ghost x: Item)
    requires w.Valid() && Stacked(w.types, w.cell)
    requires dest in w.heap.parent && dest.isContainer && item in w.heap.parent && item in w.cell && dest in w.heap.list
    requires w.types(w.cell[item].id).stackable && newCount <= w.types(w.cell[item].id).stackSize <= 255
    requires slot < dest.maxSize && |w.heap.list[dest]| < dest.maxSize
    requires w.heap == s && item in cell && KindOf(cell[item]) == KindOf(w.cell[item])
    requires Gained(s, cell, s, w.cell, dest, KindOf(cell[item]), n, true)
    modifies w`items, w`heap, w`cell, w`own, w`total, w.items
    ensures w.Valid() && Stacked(w.types, w.cell)
    ensures dest in w.heap.list && Gained(s, cell, w.heap, w.cell, dest, KindOf(cell[item]), n + newCount, true)
    ensures x !in s.parent && x !in old(w.cell) && w.heap == Attached(WithNew(s, x), dest, x, 0)
    ensures w.cell == old(w.cell)[x := old(w.cell)[item].(count := newCount)]
  {
    hide World.Linked, Forest, Ledger, Gained, Attached, WithNew, CanAttach, Stacked;
    var moveItem := AddCopy(dest, slot, item, newCount, w);
    x := moveItem;
    CloneGained(s, cell, old(w.cell), dest, moveItem, w.cell[moveItem], n);
  }

  method AddCopy(dest: Item, slot: int, item: Item, count: nat, w: World)
    returns (x: Item)
    requires w.Valid() && Stacked(w.types, w.cell)
    requires dest in w.heap.parent && dest.isContainer && item in w.heap.parent && item in w.cell
    requires w.types(w.cell[item].id).stackable && count <= w.types(w.cell[item].id).stackSize <= 255
    requires slot < dest.maxSize
    modifies w`items, w`heap, w`cell, w`own, w`total, w.items
    ensures w.Valid() && Stacked(w.types, w.cell)
    ensures x !in old(w.heap).parent && x !in old(w.cell) && CanAttach(WithNew(old(w.heap), x), dest, x)
    ensures w.heap == Attached(WithNew(old(w.heap), x), dest, x, 0)
    ensures x in w.cell && w.cell == old(w.cell)[x := w.cell[x]]
    ensures w.cell[x] == old(w.cell)[item].(count := count)
  {
    hide Climbing, Forest, Ledger, Ancestry, Pushed, Attached, World.ShapeLinked, World.CellsLinked, World.OwnLinked,
         World.TotalLinked;
    w.LinkAt(item);
    ghost var s, cell := w.heap, w.cell;
    assert Consistent(s, cell) by { ValidIsConsistent(w); }
    x := item.Clone(count, w);
    StackedEdit(w.types, cell, x, w.cell[x]);
    CloneAttaches(s, dest, x);
    w.LinkAt(dest);
    w.LinkAt(x);
    dest.AddThing(slot, x, w);
  }

  lemma CloneGained(s: State, cell: map<Item, Cell>, c1: map<Item, Cell>, dest: Item, x: Item, c: Cell, n: nat)
    requires Forest(s) && dest in s.parent && dest.isContainer && |s.list[dest]| < dest.maxSize
    requires x !in s.parent && x !in c1 && Gained(s, cell, s, c1, dest, KindOf(c), n, true)
    ensures CanAttach(WithNew(s, x), dest, x) && dest in Attached(WithNew(s, x), dest, x, 0).list
    ensures Gained(s, cell, Attached(WithNew(s, x), dest, x, 0), c1[x := c], dest, KindOf(c), n + c.count, true)
  {
    CloneAttaches(s, dest, x);
    GainedAround(s, c1, dest, x, c, KindOf(c), true);
    GainedTwice(s, cell, s, c1, WithNew(s, x), c1[x := c], dest, KindOf(c), n, 0, true);
    GainedWhole(WithNew(s, x), c1[x := c], dest, x, true);
    GainedTwice(s, cell, WithNew(s, x), c1[x := c],
                Attached(WithNew(s, x), dest, x, 0), c1[x := c], dest, KindOf(c), n, c.count, true);
  }

  lemma CloneAttaches(s: State, dest: Item, x: Item)
    requires Forest(s) && dest in s.parent && dest.isContainer && x !in s.parent
    ensures CanAttach(WithNew(s, x), dest, x) && x !in s.list && x !in s.list[dest]
    ensures WithNew(s, x).list[dest] == s.list[dest]
  {
    NewKeepsForest(s, x);
    AncestryClosed(s, dest);
    AncestryKept(s, WithNew(s, x), dest);
  }

  /** Free slots, and the room on the stack aimed at or, aimed nowhere, on all equal stacks. */
  ghost function Limit(types: Types, s: State, cell: map<Item, Cell>, dest: Item, slot: int, item: Item): int
    requires item in cell && dest in s.list
  {
    FreeSlots(dest, s.list[dest]) * StackSize(types, cell[item]) + StackRoom(types, cell, s.list[dest], slot, item)
  }

  lemma MoveFits(
      types: Types, s: State, cell: map<Item, Cell>, dest: Item, slot: int, toItem: Item?, item: Item, m: nat)
    requires item in cell && dest in s.list && types(cell[item].id).stackable
    requires slot == INDEX_WHEREEVER ==> |s.list[dest]| < dest.maxSize
    requires toItem != null ==>
               0 <= slot < |s.list[dest]| && s.list[dest][slot] == toItem && toItem in cell && toItem != item
    requires 0 <= slot < |s.list[dest]| ==> toItem != null
    requires slot < dest.maxSize || (toItem != null && Stackable(types, cell, toItem, item))
    requires 1 <= m <= Limit(types, s, cell, dest, slot, item)
    ensures (toItem != null && Equal(item, cell[item], toItem, cell[toItem])
             && m <= StackSize(types, cell[toItem]) - cell[toItem].count)
            || (slot < dest.maxSize && |s.list[dest]| < dest.maxSize)
  {
    if |s.list[dest]| >= dest.maxSize {
      assert FreeSlots(dest, s.list[dest]) == 0;
      assert StackRoom(types, cell, s.list[dest], slot, item) >= m;
    }
  }

  /** A redirected move forgets its flags. */
  function FlagsAt(to: Item, dest: Item, flags: Flags): Flags
  {
    if dest == to then flags else NO_FLAGS
  }

  /** Something of the item fits, and the pile is that large. */
  ghost predicate Enough(
      types: Types, s: State, cell: map<Item, Cell>, dest: Item, slot: int, item: Item, count: nat)
    requires item in cell && dest in s.list
  {
    if types(cell[item].id).stackable then
      var limit := Limit(types, s, cell, dest, slot, item);
      0 < (if count <= limit then count else limit) <= cell[item].count
    else FreeSlots(dest, s.list[dest]) > 0
  }

  /**
   A move goes ahead: the destination takes the item, the source gives it, at least one piece fits,
   the pile has what is asked for, and nothing is put into what is being traded.
   */
  ghost predicate Proceeds(
      types: Types, s: State, cell: map<Item, Cell>, from: Item, dest: Item, slot: int, item: Item, count: nat,
      flags: Flags, tradeItem: Item?)
    requires item in cell && dest in s.list
  {
    && QueryAddResult(types, s, cell, dest, slot, item, flags) == NoError
    && from in s.list && item in s.list[from] && (types(cell[item].id).moveable || flags.ignoreNotMoveable)
    && Enough(types, s, cell, dest, slot, item, count)
    && (tradeItem != null ==> tradeItem !in Ancestry(s, dest))
  }

  /** The queries of a move to `dest`; `m` is what it asks for. */
  method CheckMove(
      from: Item, dest: Item, slot: int, item: Item, count: nat, flags: Flags, tradeItem: Item?, w: World)
    returns (ret: ReturnValue, retMaxCount: ReturnValue, m: nat)
    requires w.Valid() && !flags.noLimit && !flags.childIsOwner && from in w.heap.parent && item in w.heap.parent
    requires item in w.cell && dest in w.heap.parent && dest.isContainer && dest in w.heap.list
    ensures ret == NoError <==> Proceeds(w.types, w.heap, w.cell, from, dest, slot, item, count, flags, tradeItem)
    ensures ret == NoError ==> item !in Ancestry(w.heap, dest) && w.types(w.cell[item].id).pickupable
    ensures ret == NoError && slot == INDEX_WHEREEVER ==> |w.heap.list[dest]| < dest.maxSize
    ensures ret == NoError && w.types(w.cell[item].id).stackable ==>
              var limit := Limit(w.types, w.heap, w.cell, dest, slot, item);
              m == (if count <= limit then count else limit) && (retMaxCount == NoError <==> count <= limit)
  {
    hide Climbing, Forest, Ancestry, StackRoom, Limit, MaxCount, MaxCountResult, QueryAddResult, World.Linked;
    retMaxCount, m := NoError, 0;
    w.LinkAt(item);
    w.LinkAt(from);
    ContentsLive(w.heap, dest);
    ret := QueryAdd(dest, slot, item, count, flags, w);
    if ret != NoError {
      return;
    }
    var maxQueryCount;
    retMaxCount, maxQueryCount := QueryMaxCount(dest, slot, item, count, flags, w);
    LimitIsMax(w.types, w.heap, w.cell, dest, slot, item, count, flags);
    if retMaxCount != NoError && maxQueryCount == 0 {
      return retMaxCount, retMaxCount, m;
    }
    m := if w.types(item.id).stackable && count < maxQueryCount then count else maxQueryCount;
    ret := QueryRemove(from, item, m, flags, w);
    if ret != NoError || tradeItem == null {
      return;
    }
    var held := HoldsFromAbove(dest, tradeItem, w);
    AncestryClosed(w.heap, dest);
    if dest == tradeItem || held {
      ret := NotEnoughRoom;
    }
  }

  method InternalMoveItem(
      from: Item, to: Item, index: int, item: Item, count: nat, flags: Flags, tradeItem: Item?, w: World)
    returns (
      ret: ReturnValue, ghost dest: Item, ghost slot: int, ghost toItem: Item?, ghost done: bool, ghost moved: nat,
      ghost taken: State, ghost laid: Item?)
    requires w.Valid() && Stacked(w.types, w.cell) && !flags.noLimit && !flags.childIsOwner
    requires from in w.heap.parent && from.isContainer && to in w.heap.parent && to.isContainer
    requires item in w.heap.parent && item in w.cell
    modifies w`items, w`heap, w`cell, w`own, w`total, w.items
    ensures w.Valid() && Stacked(w.types, w.cell)
    ensures dest in old(w.heap).list && dest in w.heap.list && dest in old(w.heap).parent && dest.isContainer
    // conservation, whatever code is returned
    ensures Transferred(old(w.heap), old(w.cell), w.heap, w.cell, from, dest, old(w.cell)[item].id, moved)
    ensures !done ==> w.heap == old(w.heap) && w.cell == old(w.cell) && moved == 0
    // what leaves, and what is put down as what
    ensures done ==>
              && TakenOut(old(w.heap), taken, from, item, Wholly(w.types, old(w.cell)[item], moved))
              && dest in taken.list
              && Deposited(w.types, taken, Rest(w.types, old(w.cell), item, moved), w.heap, w.cell, dest, item,
                           toItem, moved, laid)
    // how much
    ensures done && w.types(old(w.cell)[item].id).stackable ==>
              var limit := Limit(w.types, old(w.heap), old(w.cell), dest, slot, item);
              moved == (if count <= limit then count else limit)
    ensures done && !w.types(old(w.cell)[item].id).stackable ==>
              moved == old(w.cell)[item].count && item in w.heap.parent && w.heap.parent[item] == dest
    // where to, and whether at all
    ensures Resolved(w.types, old(w.heap), old(w.cell), to, index, item, flags, dest, slot, toItem)
    ensures done <==>
              && toItem != item
              && Proceeds(w.types, old(w.heap), old(w.cell), from, dest, slot, item, count, FlagsAt(to, dest, flags),
                          tradeItem)
    ensures done ==>
              && item !in Ancestry(old(w.heap), dest) && w.types(old(w.cell)[item].id).pickupable
              && (w.types(old(w.cell)[item].id).moveable || FlagsAt(to, dest, flags).ignoreNotMoveable)
    // the code
    ensures toItem == item ==> ret == NoError
    ensures ret == NoError ==> toItem == item || (done && (w.types(old(w.cell)[item].id).stackable ==> moved == count))
    ensures ret != NoError && done ==> w.types(old(w.cell)[item].id).stackable && moved < count
    // capacity
    ensures |old(w.heap).list[dest]| <= dest.maxSize ==> |w.heap.list[dest]| <= dest.maxSize
  {
    hide Climbing, Forest, Ledger, Ancestry, Shifted, Limit, Transferred, Resolved, QueryAddResult, TakenOut, Rest,
         Deposited, World.Linked;
    done, moved, taken, laid := false, 0, w.heap, null;
    NothingTransferred(w.heap, w.cell, from, to, w.cell[item].id);
    var toCylinder, index', target, flags' := ResolveDestination(to, index, item, flags, w);
    dest, slot, toItem := toCylinder, index', target;
    NothingTransferred(w.heap, w.cell, from, dest, w.cell[item].id);
    if item == target {
      return NoError, dest, slot, toItem, done, moved, taken, laid;
    }
    var retMaxCount, m;
    ret, retMaxCount, m := CheckMove(from, toCylinder, index', item, count, flags', tradeItem, w);
    if ret != NoError {
      return;
    }
    w.LinkAt(item);
    w.LinkAt(from);
    var stackable := w.types(item.id).stackable;
    done, moved := true, if stackable then m else w.cell[item].count;
    taken, laid := Relocate(from, toCylinder, index', target, item, m, moved, w);
    if stackable && m < count {
      ret := retMaxCount;
    }
  }

  /**
   What a move changes: the moved item and the stack aimed at keep their kind, every other item
   keeps its count too, and whatever is new in the destination is of the kind that was moved.
   */
  lemma WhatLands(
      types: Types, s: State, cell: map<Item, Cell>, taken: State, t: State, cell': map<Item, Cell>, from: Item,
      dest: Item, item: Item, toItem: Item?, m: nat, x: Item?)
    requires Consistent(s, cell) && item in cell && dest in s.list && dest in taken.list && toItem != item
    requires TakenOut(s, taken, from, item, Wholly(types, cell[item], m))
    requires Deposited(types, taken, Rest(types, cell, item, m), t, cell', dest, item, toItem, m, x)
    ensures dest in t.list
    ensures forall j <- t.list[dest] :: j !in s.list[dest] ==> j in cell' && KindOf(cell'[j]) == KindOf(cell[item])
    ensures forall i <- cell :: i in cell' && (i != item && i != toItem ==> cell'[i] == cell[i])
    ensures KindOf(cell'[item]) == KindOf(cell[item])
    ensures toItem != null && toItem in cell ==> Retouched(cell[toItem], cell'[toItem])
    ensures forall i <- s.parent :: i in t.parent && (i != item ==> t.parent[i] == s.parent[i])
    ensures t.list[dest] == (if x == null then [] else [x]) + taken.list[dest]
  {
    hide Deposited, Rest, Lasting, TakenOut;
    ForestClimbs(s);
    TakenParents(s, taken, from, item, Wholly(types, cell[item], m), dest);
    OthersUntouched(types, cell, taken, t, cell', dest, item, toItem, m, x);
    DepositedParents(types, taken, Rest(types, cell, item, m), t, cell', dest, item, toItem, m, x);
  }

  lemma TakenParents(s: State, t: State, from: Item, item: Item, whole: bool, dest: Item)
    requires Forest(s) && TakenOut(s, t, from, item, whole) && dest in s.list
    ensures dest in t.list && forall j <- t.list[dest] :: j in s.list[dest]
    ensures t.parent.Keys == s.parent.Keys && forall i <- s.parent :: i != item ==> t.parent[i] == s.parent[i]
  {
    hide Forest;
    assert SameKeys(s) by {
      ForestClimbs(s);
    }
    ContentsLive(s, dest);
    if whole {
      ContentsLive(s, from);
    }
  }

  lemma OthersUntouched(
      types: Types, cell: map<Item, Cell>, s: State, t: State, cell': map<Item, Cell>, dest: Item, item: Item,
      toItem: Item?, m: nat, x: Item?)
    requires item in cell && dest in s.list && toItem != item
    requires Deposited(types, s, Rest(types, cell, item, m), t, cell', dest, item, toItem, m, x)
    ensures forall i <- cell :: i in cell' && (i != item && i != toItem ==> cell'[i] == cell[i])
    ensures KindOf(cell'[item]) == KindOf(cell[item])
    ensures toItem != null && toItem in cell ==> Retouched(cell[toItem], cell'[toItem])
    ensures x != null ==> x in cell' && KindOf(cell'[x]) == KindOf(cell[item])
  {
    hide Lasting, Merged, Attached, WithNew;
  }

  lemma DepositedParents(
      types: Types, s: State, cell: map<Item, Cell>, t: State, cell': map<Item, Cell>, dest: Item, item: Item,
      toItem: Item?, m: nat, x: Item?)
    requires item in cell && dest in s.list && Deposited(types, s, cell, t, cell', dest, item, toItem, m, x)
    requires dest in s.parent
    ensures forall i <- s.parent :: i in t.parent && (i != item ==> t.parent[i] == s.parent[i])
    ensures dest in t.list && t.list[dest] == (if x == null then [] else [x]) + s.list[dest]
  {
    hide Lasting, Merged;
  }

  /** The removal and the additions of a move whose checks have all passed. */
  method Relocate(
      from: Item, dest: Item, slot: int, toItem: Item?, item: Item, m: nat, ghost moved: nat, w: World)
    returns (ghost taken: State, ghost laid: Item?)
    requires w.Valid() && Stacked(w.types, w.cell)
    requires from in w.heap.parent && from.isContainer && dest in w.heap.parent && dest.isContainer
    requires item in w.heap.parent && item in w.cell && item in w.heap.list[from] && item !in Ancestry(w.heap, dest)
    requires dest in w.heap.list && from in w.heap.list
    requires slot == INDEX_WHEREEVER ==> |w.heap.list[dest]| < dest.maxSize
    requires toItem != null ==>
               && 0 <= slot < |w.heap.list[dest]| && w.heap.list[dest][slot] == toItem
               && toItem in w.cell && toItem != item
    requires 0 <= slot < |w.heap.list[dest]| ==> toItem != null
    requires slot < dest.maxSize || (toItem != null && Stackable(w.types, w.cell, toItem, item))
    requires moved == if w.types(w.cell[item].id).stackable then m else w.cell[item].count
    requires if w.types(w.cell[item].id).stackable
             then 1 <= m <= Limit(w.types, w.heap, w.cell, dest, slot, item) && m <= w.cell[item].count
             else FreeSlots(dest, w.heap.list[dest]) > 0
    modifies w`items, w`heap, w`cell, w`own, w`total, w.items
    ensures w.Valid() && Stacked(w.types, w.cell) && dest in w.heap.list
    ensures Transferred(old(w.heap), old(w.cell), w.heap, w.cell, from, dest, old(w.cell)[item].id, moved)
    ensures !w.types(old(w.cell)[item].id).stackable ==> item in w.heap.parent && w.heap.parent[item] == dest
    ensures |old(w.heap).list[dest]| <= dest.maxSize ==> |w.heap.list[dest]| <= dest.maxSize
    ensures dest in taken.list
    ensures TakenOut(old(w.heap), taken, from, item, Wholly(w.types, old(w.cell)[item], moved))
    ensures Deposited(w.types, taken, Rest(w.types, old(w.cell), item, moved), w.heap, w.cell, dest, item, toItem,
                      moved, laid)
  {
    hide Climbing, Forest, Ledger, Ancestry, Shifted, Limit, StackRoom, Transferred, Consistent, Laid, Deposited,
         TakenOut,
         World.ShapeLinked, World.CellsLinked, World.OwnLinked, World.TotalLinked;
    ghost var s, cell := w.heap, w.cell;
    ValidIsConsistent(w);
    w.LinkAt(item);
    ContentsLive(s, dest);
    if w.types(item.id).stackable {
      MoveFits(w.types, s, cell, dest, slot, toItem, item, m);
    }
    TakeFrom(from, item, m, dest, w);
    ghost var s', cell' := w.heap, w.cell;
    ValidIsConsistent(w);
    taken := s';
    laid := PutDown(dest, slot, toItem, item, m, moved, w);
    LossAndGain(s, cell, s', cell', w.heap, w.cell, from, dest, cell[item].id, moved);
  }

  lemma LimitIsMax(
      types: Types, s: State, cell: map<Item, Cell>, dest: Item, slot: int, item: Item, count: nat, flags: Flags)
    requires item in cell && dest in s.list && !flags.noLimit && !flags.childIsOwner
    requires QueryAddResult(types, s, cell, dest, slot, item, flags) == NoError
    ensures MaxCount(types, s, cell, dest, slot, item, count, flags)
         == if types(cell[item].id).stackable then Limit(types, s, cell, dest, slot, item)
            else FreeSlots(dest, s.list[dest])
    ensures MaxCountResult(types, s, cell, dest, slot, item, count, flags) == NoError
            <==> (if types(cell[item].id).stackable
                  then count <= MaxCount(types, s, cell, dest, slot, item, count, flags)
                  else MaxCount(types, s, cell, dest, slot, item, count, flags) > 0)
    ensures item !in Ancestry(s, dest) && types(cell[item].id).pickupable
    ensures slot == INDEX_WHEREEVER ==> |s.list[dest]| < dest.maxSize
  {
  }

  lemma NothingTransferred(s: State, cell: map<Item, Cell>, from: Item, dest: Item, id: nat)
    ensures Transferred(s, cell, s, cell, from, dest, id, 0)
  {
  }
}
