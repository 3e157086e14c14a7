/**
 Short runs, from an empty world, on which the operations do what their reader may not expect. They
 show that the exceptional cases of the other modules are reachable.
 */
module Runs {
  import opened Containment
  import opened Transfer
  import opened Trade
  import opened Iteration
  import Basics
  import Conditions

  const NO_ATTRIBUTES: Attributes := Attributes(map[], false)

  /**
   A player offers the backpack it wears and accepts; the partner, who has offered nothing, accepts
   too. No handler is registered, and still the missing item is read through.
   */
  method OfferOwnBackpack(types: Types) returns (outcome: Outcome)
    ensures outcome == Faulted
  {
    hide World.Valid, Game.Valid;
    var w, backpack := OneBackpack(types);
    var game, player, partner := TwoPlayers(w);
    LoneItem(w.heap, backpack);
    outcome := OfferAndAccept(game, player, partner, backpack);
  }

  method OneBackpack(types: Types) returns (w: World, backpack: Item)
    ensures fresh(w) && fresh(backpack) && fresh(w.items)
    ensures w.Valid() && backpack in w.heap.parent && w.heap.parent.Keys == {backpack}
  {
    hide World.Linked, Forest, Ledger;
    w := new World(types);
    w.LinkKeys();
    backpack := MakeItem(w, true, 20, 0, 1);
  }

  method MakeItem(w: World, isContainer: bool, maxSize: nat, id: nat, count: nat) returns (x: Item)
    requires w.Valid()
    modifies w`items, w`heap, w`cell, w`own, w`total
    ensures w.Valid() && fresh(x) && w.items == old(w.items) + {x} && x !in old(w.heap).parent
    ensures x.isContainer == isContainer && x.maxSize == maxSize
    ensures w.heap == WithNew(old(w.heap), x) && w.cell == old(w.cell)[x := Cell(id, count, NO_ATTRIBUTES)]
  {
    hide World.Linked, Forest, Ledger, WithNew;
    x := new Item(isContainer, maxSize, id, count, NO_ATTRIBUTES);
    w.Adopt(x);
  }

  method TwoPlayers(w: World) returns (game: Game, player: Player, partner: Player)
    requires w.Valid()
    ensures fresh(game) && fresh(player) && fresh(partner) && player != partner
    ensures game.Valid() && game.w == w && game.tradeItems == []
    ensures game.book == map[player := CLEAR, partner := CLEAR]
  {
    hide World.Valid, Sound;
    game := new Game(w);
    player := new Player();
    partner := new Player();
    game.Enter(player);
    game.Enter(partner);
  }

  lemma LoneItem(s: State, i: Item)
    requires s.parent.Keys == {i}
    ensures Contents(s, i) == {}
  {
  }

  method OfferAndAccept(game: Game, player: Player, partner: Player, backpack: Item) returns (outcome: Outcome)
    requires game.Valid() && game.tradeItems == [] && player != partner
    requires game.book == map[player := CLEAR, partner := CLEAR]
    requires backpack in game.w.heap.parent && Contents(game.w.heap, backpack) == {}
    modifies game, player, partner
    ensures outcome == Faulted
  {
    hide World.Valid, Sound, Erased, Withdrawn, Below, Contents;
    var started := game.RequestTrade(player, partner, backpack, true);
    game.LinkedAt(player);
    game.LinkedAt(partner);
    var agreed := game.AcceptTrade(player, Scene(true, false, true, false, backpack, null, true));
    game.LinkedAt(player);
    game.LinkedAt(partner);
    outcome := game.AcceptTrade(partner, Scene(true, false, true, false, null, backpack, true));
  }

  /**
   A box with two slots holds two stacks of one type, and a third is aimed at the first of them with
   automatic stacking off. What does not fit on it is left over; if nothing fits on it, the third
   stack is laid beside the others, over the capacity. The queries agree to all of it.
   */
  method ThirdStack(types: Types, box: nat, id: nat, first: nat, second: nat, count: nat)
    returns (ret: ReturnValue, remainderCount: nat, size: nat)
    requires !types(box).stackable && types(id).stackable && types(id).pickupable && !types(id).fluidOrSplash
    requires types(id).stackSize == 100 && first <= 100 && second <= 100 && 1 <= count <= 200 - first - second
    requires count <= 100
    ensures ret == NoError
    ensures remainderCount == if first < 100 && 100 - first < count then count - (100 - first) else 0
    ensures if first == 100 then size == 3 else size <= 2
  {
    hide World.Valid, Attached, Gained, Aimed, QueryAddResult, MaxCountResult, LeftOver, Overfills, Stacked;
    var w, c, a, b, item := TwoStacks(types, box, id, first, second, count);
    ghost var s, cell := w.heap, w.cell;
    ghost var dest, slot, toItem;
    ret, remainderCount, dest, slot, toItem :=
      InternalAddItem(c, item, 0, Flags(false, false, false, true), false, w);
    WhatHappens(types, s, cell, c, a, b, item, id, first, second, count, dest, slot, toItem);
    GainedSize(s, cell, w.heap, w.cell, c, KindOf(cell[item]), count - remainderCount, first < 100);
    size := Size(c, w);
  }

  method Size(c: Item, w: World) returns (size: nat)
    requires w.Valid() && c in w.heap.list
    ensures size == |w.heap.list[c]|
  {
    w.LinkKeys();
    w.LinkAt(c);
    size := |c.itemlist|;
  }

  lemma GainedSize(
      s: State, cell: map<Item, Cell>, s': State, cell': map<Item, Cell>, c: Item, kind: Kind, k: nat, limited: bool)
    requires c in s.list && Gained(s, cell, s', cell', c, kind, k, limited)
    ensures c in s'.list && (limited && |s.list[c]| <= c.maxSize ==> |s'.list[c]| <= c.maxSize)
  {
  }

  /** The box, its two stacks, and the third one outside. */
  ghost predicate Crowded(
      s: State, cell: map<Item, Cell>, c: Item, a: Item, b: Item, item: Item, id: nat, first: nat, second: nat,
      count: nat)
  {
    && Forest(s) && c in s.list && c in s.parent && s.list[c] == [a, b] && s.parent[c] == null
    && item in s.parent && s.parent[item] == null
    && item !in {a, b, c} && c.isContainer && c.maxSize == 2 && !a.isContainer && !b.isContainer
    && a in cell && cell[a] == Cell(id, first, NO_ATTRIBUTES)
    && b in cell && cell[b] == Cell(id, second, NO_ATTRIBUTES)
    && item in cell && cell[item] == Cell(id, count, NO_ATTRIBUTES)
  }

  lemma WhatHappens(
      types: Types, s: State, cell: map<Item, Cell>, c: Item, a: Item, b: Item, item: Item, id: nat, first: nat,
      second: nat, count: nat, dest: Item, slot: int, toItem: Item?)
    requires Crowded(s, cell, c, a, b, item, id, first, second, count)
    requires types(id).stackable && types(id).pickupable && types(id).stackSize == 100
    requires first <= 100 && second <= 100 && 1 <= count <= 200 - first - second
    requires Aimed(types, s, cell, c, 0, item, Flags(false, false, false, true), dest, slot, toItem)
    ensures dest == c && toItem == a
    ensures QueryAddResult(types, s, cell, c, slot, item, Flags(false, false, false, true)) == NoError
    ensures MaxCountResult(types, s, cell, c, INDEX_WHEREEVER, item, count, Flags(false, false, false, true)) == NoError
    ensures LeftOver(types, s, cell, c, item, toItem, Flags(false, false, false, true))
         == if first < 100 && 100 - first < count then count - (100 - first) else 0
    ensures Overfills(types, s, cell, c, item, toItem) <==> first == 100
  {
    assert Ancestry(s, c) == {c};
    TwoRooms(types, cell, a, b, item);
  }

  lemma TwoRooms(types: Types, cell: map<Item, Cell>, a: Item, b: Item, item: Item)
    ensures Room(types, cell, [a, b], item) == RoomAt(types, cell, a, item) + RoomAt(types, cell, b, item)
  {
    var x: int, y: int := RoomAt(types, cell, a, item), RoomAt(types, cell, b, item);
    assert Rooms(types, cell, [a, b], item) == [x, y];
    assert [x, y][1..] == [y] && [y][1..] == [];
    assert Sum([y]) == y + Sum([]);
  }

  method TwoStacks(types: Types, box: nat, id: nat, first: nat, second: nat, count: nat)
    returns (w: World, c: Item, a: Item, b: Item, item: Item)
    requires !types(box).stackable && types(id).stackable && !types(id).fluidOrSplash
    requires types(id).stackSize == 100 && first <= 100 && second <= 100 && count <= 100
    ensures fresh(w) && fresh(w.items) && w.Valid() && w.types == types && Stacked(types, w.cell)
    ensures Crowded(w.heap, w.cell, c, a, b, item, id, first, second, count)
  {
    hide World.Valid, Stacked;
    w, c, a, b := FullBox(types, box, id, first, second);
    ghost var cell := w.cell;
    item := MakeItem(w, false, 0, id, count);
    StackedEdit(types, cell, item, w.cell[item]);
    InForest(w);
  }

  method FullBox(types: Types, box: nat, id: nat, first: nat, second: nat)
    returns (w: World, c: Item, a: Item, b: Item)
    requires !types(box).stackable && types(id).stackable && !types(id).fluidOrSplash
    requires types(id).stackSize == 100 && first <= 100 && second <= 100
    ensures fresh(w) && fresh(w.items) && w.Valid() && w.types == types && Stacked(types, w.cell)
    ensures {a, b, c} <= w.heap.parent.Keys && {a, b, c} <= w.heap.list.Keys
    ensures c.isContainer && c.maxSize == 2 && !a.isContainer && !b.isContainer
    ensures w.heap.parent[c] == null && w.heap.list[c] == [a, b] && a != b && a != c && b != c
    ensures a in w.cell && w.cell[a] == Cell(id, first, NO_ATTRIBUTES)
    ensures b in w.cell && w.cell[b] == Cell(id, second, NO_ATTRIBUTES)
  {
    hide World.Valid, Stacked;
    w, c := EmptyBox(types, box);
    b := AddedStack(w, c, id, second);
    a := AddedStack(w, c, id, first);
    assert w.items == {c, b, a};
    assert w.heap.list[c] == [a] + [b];
  }

  method EmptyBox(types: Types, box: nat) returns (w: World, c: Item)
    requires !types(box).stackable
    ensures fresh(w) && fresh(c) && w.Valid() && w.types == types && Stacked(types, w.cell)
    ensures w.items == w.heap.parent.Keys == w.heap.list.Keys == w.cell.Keys == {c}
    ensures c.isContainer && c.maxSize == 2 && w.heap.parent[c] == null && w.heap.list[c] == []
  {
    w := new World(types);
    w.LinkKeys();
    hide World.Valid, Stacked;
    NoStacks(types, w.cell);
    c := MakeItem(w, true, 2, box, 1);
    StackedEdit(types, map[], c, w.cell[c]);
  }

  lemma NoStacks(types: Types, cell: map<Item, Cell>)
    requires cell == map[]
    ensures Stacked(types, cell)
  {
  }

  lemma InForest(w: World)
    requires w.Valid()
    ensures Forest(w.heap)
  {
  }

  method AddedStack(w: World, c: Item, id: nat, count: nat) returns (x: Item)
    requires w.Valid() && Stacked(w.types, w.cell) && c in w.heap.parent && c in w.heap.list && c in w.items
    requires c.isContainer && c.maxSize == 2 && w.heap.parent[c] == null
    requires w.types(id).stackable && !w.types(id).fluidOrSplash && count <= w.types(id).stackSize <= 255
    modifies w, w.items
    ensures w.Valid() && Stacked(w.types, w.cell) && fresh(x) && w.items == old(w.items) + {x}
    ensures x !in old(w.heap).parent && !x.isContainer
    ensures w.heap.parent == old(w.heap).parent[x := c]
    ensures w.heap.list == old(w.heap).list[x := []][c := [x] + old(w.heap).list[c]]
    ensures w.cell == old(w.cell)[x := Cell(id, count, NO_ATTRIBUTES)]
  {
    hide World.Valid, Stacked;
    ghost var cell := w.cell;
    x := MakeItem(w, false, 0, id, count);
    StackedEdit(w.types, cell, x, w.cell[x]);
    Put(c, x, w);
  }

  method Put(c: Item, x: Item, w: World)
    requires w.Valid() && c in w.heap.parent && x in w.heap.parent && c != x && c.isContainer && c.maxSize == 2
    requires c in w.heap.list && w.heap.parent[c] == null && w.heap.parent[x] == null
    modifies w`heap, w`total, c`itemlist, x`parent, w.items`totalWeight
    ensures w.Valid() && w.heap.parent == old(w.heap).parent[x := c]
    ensures w.heap.list == old(w.heap).list[c := [x] + old(w.heap).list[c]]
  {
    hide World.Linked, Ledger;
    assert Ancestry(w.heap, c) == {c};
    w.LinkAt(c);
    w.LinkAt(x);
    ghost var list := w.heap.list[c];
    c.AddThing(0, x, w);
    assert Insert(list, 0, x) == [x] + list;
  }

  /** No turn comes after `end`. */
  predicate NoneAfter(times: seq<int>, end: int)
  {
    forall j | 0 <= j < |times| :: times[j] <= end
  }

  /** Turns of a creature whose conditions nothing else touches: one lasts while no turn comes after its end. */
  method Turns(creature: Conditions.Creature, c: Conditions.Condition, interval: int, times: seq<int>)
    requires creature.Valid() && c in creature.conditions
    modifies creature, creature.conditions
    ensures creature.Valid() && c.endTime == old(c.endTime)
    ensures c in creature.conditions <==> old(c.ticks) == -1 || NoneAfter(times, old(c.endTime))
  {
    hide Conditions.Creature.Valid;
    var k := 0;
    while k < |times|
      invariant k <= |times| && creature.Valid()
      invariant forall p :: p in creature.conditions ==> p in old(creature.conditions)
      invariant forall j | 0 <= j < |creature.conditions| :: creature.conditions[j] in old(creature.conditions)
      invariant c.endTime == old(c.endTime) && (c.ticks == -1 <==> old(c.ticks) == -1)
      invariant c in creature.conditions <==> old(c.ticks) == -1 || forall j | 0 <= j < k :: times[j] <= old(c.endTime)
    {
      creature.ExecuteConditions(interval, times[k]);
      Members(creature.conditions, old(creature.conditions));
      k := k + 1;
    }
  }

  /** A timed condition that is added at `now` lasts exactly through the turns up to `now` and its time. */
  method AddedLasts(
      creature: Conditions.Creature, c: Conditions.Condition, force: bool, walkDelay: int, now: int,
      draw: Conditions.Effect, starts: bool, interval: int, times: seq<int>)
    returns (added: bool)
    requires creature.Valid() && c !in creature.conditions && !Conditions.Merges(creature.conditions, c)
    requires forall p <- creature.conditions :: p.ctype == c.ctype ==> p.kind == c.kind
    modifies creature, creature.conditions, c
    ensures creature.Valid()
    ensures added ==> (c in creature.conditions <==> old(c.ticks) == -1 || NoneAfter(times, old(c.Begun(now))))
    ensures added && old(c.ticks) > 0 && old(c.endTime) == 0 ==>
              (c in creature.conditions <==> NoneAfter(times, now + old(c.ticks)))
  {
    hide Conditions.Creature.Valid, Conditions.Given, Conditions.Creature.Waits;
    added := creature.AddCondition(c, force, walkDelay, now, draw, starts);
    if added {
      OwnTypeStays(old(creature.conditions), c);
      StillMembers(creature, old(creature.conditions) + [c], c.ctype,
                   old(creature.OppositeInForce(c.ctype, now)), walkDelay);
      Turns(creature, c, interval, times);
    }
  }

  lemma OwnTypeStays(list: seq<Conditions.Condition>, c: Conditions.Condition)
    ensures forall other :: Conditions.Opposite(c.ctype) == Basics.Some(other) ==>
              c in Conditions.Without(list + [c], other)
  {
    forall other | Conditions.Opposite(c.ctype) == Basics.Some(other)
      ensures c in Conditions.Without(list + [c], other)
    {
      Conditions.WithoutMembers(list + [c], other);
    }
  }

  lemma Members(part: seq<Conditions.Condition>, list: seq<Conditions.Condition>)
    requires forall p :: p in part ==> p in list
    ensures forall j | 0 <= j < |part| :: part[j] in list
  {
    forall j | 0 <= j < |part| ensures part[j] in list {
      assert part[j] in part;
    }
  }

  ghost predicate Part(part: seq<Conditions.Condition>, list: seq<Conditions.Condition>)
  {
    forall j | 0 <= j < |part| :: part[j] in list
  }

  lemma StillMembers(
      creature: Conditions.Creature, list: seq<Conditions.Condition>, ctype: nat, opposite: bool, walkDelay: int)
    ensures Part(creature.AfterAdding(list, ctype, opposite, walkDelay), list)
  {
    if Conditions.Opposite(ctype).Some? {
      WithoutPart(list, Conditions.Opposite(ctype).value);
    }
  }

  lemma {:induction false} WithoutPart(list: seq<Conditions.Condition>, ctype: nat)
    ensures Part(Conditions.Without(list, ctype), list)
  {
    if list != [] {
      WithoutPart(list[1..], ctype);
    }
  }

  /** After an accepted refresh at `now` a condition lasts for the time of the new one. */
  method RefreshedLasts(
      creature: Conditions.Creature, prev: Conditions.Condition, c: Conditions.Condition, force: bool, walkDelay: int,
      now: int, draw: Conditions.Effect, starts: bool, interval: int, times: seq<int>)
    returns (added: bool)
    requires creature.Valid() && c !in creature.conditions && prev in creature.conditions
    requires Conditions.SameSort(prev, c) && Conditions.Accepts(prev, c, now)
    requires forall p <- creature.conditions :: p.ctype == c.ctype ==> p.kind == c.kind
    modifies creature, creature.conditions, c
    ensures creature.Valid()
    ensures added ==>
              (prev in creature.conditions <==> old(c.ticks) == -1 || NoneAfter(times, now + old(c.ticks)))
  {
    hide Conditions.Creature.Valid, Conditions.Given, Conditions.Creature.Waits;
    added := creature.AddCondition(c, force, walkDelay, now, draw, starts);
    if added {
      Turns(creature, prev, interval, times);
    }
  }
}
