/**
 Walking a container's contents at every depth (server/src/container.cpp): ContainerIterator
 keeps a cursor into one container and a work list of the containers still to open.
 */
module Iteration {
  import opened Containment

  /** A container with something in it. */
  ghost predicate Opens(s: State, i: Item)
  {
    i in s.list && s.list[i] != []
  }

  /** The containers among `list` that have something in them, in order. */
  ghost function Boxes(s: State, list: seq<Item>): seq<Item>
  {
    if list == [] then []
    else
      var last := list[|list| - 1];
      Boxes(s, list[..|list| - 1]) + if Opens(s, last) then [last] else []
  }

  /** The direct contents of all `boxes`, one after the other. */
  ghost function Inside(s: State, boxes: seq<Item>): seq<Item>
  {
    if boxes == [] then []
    else
      var last := boxes[|boxes| - 1];
      Inside(s, boxes[..|boxes| - 1]) + if last in s.list then s.list[last] else []
  }

  ghost function Start(s: State, root: Item): seq<Item>
  {
    if Opens(s, root) then [root] else []
  }

  ghost predicate Below(s: State, root: Item, i: Item)
  {
    i != root && i in s.parent && root in Ancestry(s, i)
  }

  lemma {:induction false} InsideParents(s: State, boxes: seq<Item>)
    requires Forest(s)
    ensures forall i <- Inside(s, boxes) :: i in s.parent && s.parent[i] in boxes
  {
    if boxes != [] {
      var front, last := boxes[..|boxes| - 1], boxes[|boxes| - 1];
      InsideParents(s, front);
      assert boxes == front + [last];
    }
  }

  lemma {:induction false} InsideHas(s: State, boxes: seq<Item>, b: Item)
    requires b in boxes && b in s.list
    ensures forall i <- s.list[b] :: i in Inside(s, boxes)
  {
    var front, last := boxes[..|boxes| - 1], boxes[|boxes| - 1];
    assert boxes == front + [last];
    if b != last {
      InsideHas(s, front, b);
    }
  }

  lemma {:induction false} BoxesAre(s: State, list: seq<Item>)
    ensures forall i :: i in Boxes(s, list) <==> i in list && Opens(s, i)
    ensures Distinct(list) ==> Distinct(Boxes(s, list))
  {
    if list != [] {
      var front, last := list[..|list| - 1], list[|list| - 1];
      BoxesAre(s, front);
      assert list == front + [last];
      if Distinct(list) {
        assert last !in front;
      }
    }
  }

  lemma BoxesAppend(s: State, list: seq<Item>, x: Item)
    ensures Boxes(s, list + [x]) == Boxes(s, list) + if Opens(s, x) then [x] else []
    ensures Inside(s, list + [x]) == Inside(s, list) + if x in s.list then s.list[x] else []
  {
    assert (list + [x])[..|list|] == list;
  }

  lemma {:induction false} DistinctFits(list: seq<Item>, pool: set<Item>)
    requires Distinct(list) && forall i <- list :: i in pool
    ensures |list| <= |pool|
    decreases |list|
  {
    if list != [] {
      var front, last := list[..|list| - 1], list[|list| - 1];
      assert last !in front;
      DistinctFits(front, pool - {last});
    }
  }

  /**
   Breadth first and complete: the visited items are the contents of the root and then, in the
   order they were met, of every container met; each is inside the root and none comes twice.
   */
  ghost predicate BreadthFirst(s: State, root: Item, visited: seq<Item>)
  {
    && visited == Inside(s, Start(s, root) + Boxes(s, visited))
    && Distinct(visited)
    && (forall i <- visited :: Below(s, root, i))
    && forall i <- s.parent :: Below(s, root, i) ==> i in visited
  }

  /** How far an iteration has come: `expanded` containers are done, `over` are open or waiting. */
  ghost predicate Reached(
      s: State, root: Item, expanded: seq<Item>, over: seq<Item>, cur: nat, visited: seq<Item>)
  {
    && root in s.parent
    && expanded + over == Start(s, root) + Boxes(s, visited)
    && (over != [] ==> over[0] in s.list && cur < |s.list[over[0]]|)
    && visited == Inside(s, expanded) + (if over == [] then [] else s.list[over[0]][..cur])
    && Distinct(visited) && forall i <- visited :: Below(s, root, i)
  }

  lemma {:induction false} StartReached(s: State, root: Item)
    requires Forest(s) && root in s.parent
    ensures Reached(s, root, [], Start(s, root), 0, [])
  {
  }

  /** The item under the cursor is new and inside the root. */
  lemma {:induction false} NextIsNew(
      s: State, root: Item, expanded: seq<Item>, over: seq<Item>, cur: nat, visited: seq<Item>)
    requires Forest(s) && Reached(s, root, expanded, over, cur, visited) && over != []
    ensures s.list[over[0]][cur] !in visited && Below(s, root, s.list[over[0]][cur])
  {
    var b, x := over[0], s.list[over[0]][cur];
    assert x in s.list[b];
    InsideParents(s, expanded);
    BoxesAre(s, visited);
    var boxes := expanded + over;
    assert boxes[|expanded|] == b;
    AncestryClosed(s, root);
    assert b == root || b in visited;
    AboveShrinks(s, x);
    AncestryClosed(s, b);
    assert b !in expanded by {
      if b in expanded {
        var k :| 0 <= k < |expanded| && expanded[k] == b;
        assert boxes[k] == b;
        BoxesOnce(s, root, visited, k, |expanded|);
      }
    }
    assert Distinct(s.list[b]);
  }

  lemma {:induction false} BoxesOnce(s: State, root: Item, visited: seq<Item>, j: nat, k: nat)
    requires Forest(s) && Distinct(visited) && forall i <- visited :: Below(s, root, i)
    requires j < k < |Start(s, root) + Boxes(s, visited)|
    ensures (Start(s, root) + Boxes(s, visited))[j] != (Start(s, root) + Boxes(s, visited))[k]
  {
    BoxesAre(s, visited);
    var boxes := Boxes(s, visited);
    var n := |Start(s, root)|;
    assert boxes[k - n] in boxes;
  }

  /** ContainerIterator::advance on the work list. */
  lemma {:induction false} Advanced(
      s: State, root: Item, expanded: seq<Item>, over: seq<Item>, cur: nat, visited: seq<Item>)
    requires Forest(s) && Reached(s, root, expanded, over, cur, visited) && over != []
    ensures var b, x := over[0], s.list[over[0]][cur];
            var over' := over + if Opens(s, x) then [x] else [];
            if cur + 1 < |s.list[b]| then Reached(s, root, expanded, over', cur + 1, visited + [x])
            else Reached(s, root, expanded + [b], over'[1..], 0, visited + [x])
  {
    hide Forest, Boxes, Inside, Start, Below, Opens;
    var b, x := over[0], s.list[over[0]][cur];
    var over' := over + if Opens(s, x) then [x] else [];
    NextIsNew(s, root, expanded, over, cur, visited);
    BoxesAppend(s, visited, x);
    BoxesAppend(s, expanded, b);
    BoxesAre(s, visited + [x]);
    assert s.list[b][..cur + 1] == s.list[b][..cur] + [x];
    assert expanded + over' == (expanded + over) + if Opens(s, x) then [x] else [];
    assert Start(s, root) + Boxes(s, visited + [x]) == expanded + over';
    if cur + 1 == |s.list[b]| {
      assert s.list[b][..cur + 1] == s.list[b];
      assert (expanded + [b]) + over'[1..] == expanded + over';
      if over'[1..] != [] {
        assert over'[1] == (expanded + over')[|expanded| + 1];
        WaitingOpens(s, root, visited + [x], |expanded| + 1);
        assert Reached(s, root, expanded + [b], over'[1..], 0, visited + [x]);
      }
    }
  }

  lemma WaitingOpens(s: State, root: Item, visited: seq<Item>, k: nat)
    requires k < |Start(s, root) + Boxes(s, visited)|
    ensures var b := (Start(s, root) + Boxes(s, visited))[k]; Opens(s, b) && b in s.list && |s.list[b]| > 0
  {
    BoxesAre(s, visited);
    assert k >= |Start(s, root)| ==> Boxes(s, visited)[k - |Start(s, root)|] in Boxes(s, visited);
  }

  /** With nothing left to open, everything inside the root has been visited. */
  lemma {:induction false} Finished(s: State, root: Item, expanded: seq<Item>, visited: seq<Item>)
    requires Forest(s) && Reached(s, root, expanded, [], 0, visited)
    ensures BreadthFirst(s, root, visited)
  {
    assert expanded + [] == expanded && Inside(s, expanded) + [] == Inside(s, expanded);
    forall i | i in s.parent && Below(s, root, i) ensures i in visited {
      BelowVisited(s, root, expanded, visited, i);
    }
  }

  lemma {:induction false} BelowVisited(s: State, root: Item, expanded: seq<Item>, visited: seq<Item>, i: Item)
    requires Forest(s) && root in s.parent && expanded == Start(s, root) + Boxes(s, visited)
    requires visited == Inside(s, expanded) && Below(s, root, i)
    ensures i in visited
    decreases Above(s, i)
  {
    AncestryClosed(s, i);
    var p := s.parent[i];
    AboveShrinks(s, i);
    assert i in s.list[p];
    if p != root {
      BelowVisited(s, root, expanded, visited, p);
    }
    BoxesAre(s, visited);
    assert p in expanded;
    InsideHas(s, expanded, p);
  }

  class ContainerIterator {
    var over: seq<Item>
    var cur: nat
    ghost const root: Item
    ghost var expanded: seq<Item>
    ghost var visited: seq<Item>

    ghost predicate Valid(w: World)
      reads this, w, w.items
    {
      w.Valid() && Reached(w.heap, root, expanded, over, cur, visited)
    }

    /** Container::iterator. */
    constructor (c: Item, w: World)
      requires w.Valid() && c in w.heap.parent
      ensures Valid(w) && root == c && visited == [] && fresh(this)
    {
      hide Forest, Ledger, Boxes, Inside, Below, Reached, World.Linked;
      root, expanded, visited, cur := c, [], [], 0;
      over := if c.itemlist != [] then [c] else [];
      new;
      w.LinkAt(c);
      StartReached(w.heap, c);
    }

    predicate HasNext()
      reads this
    {
      over != []
    }

    /** The front of the work list and the item under the cursor, as they are in the heap. */
    lemma Here(w: World)
      requires Valid(w) && HasNext()
      ensures over[0] in w.heap.list && over[0].itemlist == w.heap.list[over[0]] && cur < |over[0].itemlist|
      ensures over[0].itemlist[cur] in w.heap.list
              && over[0].itemlist[cur].itemlist == w.heap.list[over[0].itemlist[cur]]
      ensures over[0].itemlist[cur] in w.heap.parent
    {
      hide Forest, Ledger, Boxes, Inside, Start, Below, World.CellsLinked, World.OwnLinked, World.TotalLinked;
      w.LinkAt(over[0]);
      NextIsNew(w.heap, root, expanded, over, cur, visited);
      NewIsLive(w.heap, root, over[0].itemlist[cur]);
      w.LinkAt(over[0].itemlist[cur]);
    }

    /** The item the iterator is at. */
    method Current(w: World) returns (item: Item)
      requires Valid(w) && HasNext()
      ensures item !in visited && item in w.heap.parent && cur < |over[0].itemlist| && item == over[0].itemlist[cur]
    {
      hide Forest, Ledger, Boxes, Inside, Start, Below;
      Here(w);
      NextIsNew(w.heap, root, expanded, over, cur, visited);
      item := over[0].itemlist[cur];
    }

    /** ContainerIterator::advance. */
    method Advance(w: World)
      requires Valid(w) && HasNext() && cur < |over[0].itemlist|
      modifies this
      ensures Valid(w) && visited == old(visited) + [old(over[0].itemlist[cur])]
      ensures !HasNext() ==> BreadthFirst(w.heap, root, visited)
    {
      hide Forest, Ledger, World.Linked, Boxes, Inside, Start, Below, BreadthFirst;
      Here(w);
      Advanced(w.heap, root, expanded, over, cur, visited);
      var i, front := over[0].itemlist[cur], over[0];
      visited := visited + [i];
      if i.isContainer && i.itemlist != [] {
        over := over + [i];
      }
      OnlyBoxesOpen(w, i);
      cur := cur + 1;
      if cur == |front.itemlist| {
        expanded := expanded + [front];
        over := over[1..];
        cur := 0;
      }
      if over == [] {
        Finished(w.heap, root, expanded, visited);
      }
    }
  }

  lemma NewIsLive(s: State, root: Item, i: Item)
    requires Below(s, root, i)
    ensures i in s.parent
  {
  }

  lemma OnlyBoxesOpen(w: World, i: Item)
    requires w.Valid() && i in w.heap.parent
    ensures Opens(w.heap, i) <==> i.isContainer && i.itemlist != []
  {
    w.LinkAt(i);
  }

  /** Everything inside a container, at any depth. */
  ghost function Contents(s: State, c: Item): set<Item>
  {
    set i | i in s.parent && Below(s, c, i)
  }

  lemma {:induction false} DistinctCount(list: seq<Item>, pool: set<Item>)
    requires Distinct(list) && (forall i <- list :: i in pool) && forall i <- pool :: i in list
    ensures |list| == |pool|
    decreases |list|
  {
    if list == [] {
      assert pool == {};
    } else {
      var front, last := list[..|list| - 1], list[|list| - 1];
      assert list == front + [last] && last !in front;
      DistinctCount(front, pool - {last});
    }
  }

  lemma VisitedFits(s: State, root: Item, expanded: seq<Item>, over: seq<Item>, cur: nat, visited: seq<Item>)
    requires Reached(s, root, expanded, over, cur, visited)
    ensures |visited| <= |s.parent.Keys|
  {
    DistinctFits(visited, s.parent.Keys);
  }

  /** Container::getItemHoldingCount, and Container::size counting at every depth. */
  method GetItemHoldingCount(c: Item, w: World) returns (counter: nat, ghost visited: seq<Item>)
    requires w.Valid() && c in w.heap.parent
    ensures counter == |Contents(w.heap, c)|
    ensures BreadthFirst(w.heap, c, visited) && |visited| == counter
  {
    hide World.Valid, Boxes, Inside, Start, Below, BreadthFirst, Reached, Contents;
    counter := 0;
    var it := new ContainerIterator(c, w);
    if !it.HasNext() {
      StartEmpty(w, c, it);
    }
    while it.HasNext()
      invariant it.Valid(w) && counter == |it.visited| && it.root == c && fresh(it)
      invariant !it.HasNext() ==> BreadthFirst(w.heap, c, it.visited)
      decreases |w.heap.parent.Keys| - |it.visited|
    {
      VisitedFits(w.heap, c, it.expanded, it.over, it.cur, it.visited);
      var item := it.Current(w);
      it.Advance(w);
      VisitedFits(w.heap, c, it.expanded, it.over, it.cur, it.visited);
      counter := counter + 1;
    }
    visited := it.visited;
    VisitedAll(w.heap, c, visited);
    DistinctCount(visited, Contents(w.heap, c));
  }

  lemma StartEmpty(w: World, c: Item, it: ContainerIterator)
    requires it.Valid(w) && it.root == c && it.over == [] && it.visited == []
    ensures BreadthFirst(w.heap, c, it.visited)
  {
    Finished(w.heap, c, it.expanded, it.visited);
  }

  lemma VisitedAll(s: State, c: Item, visited: seq<Item>)
    requires BreadthFirst(s, c, visited)
    ensures Distinct(visited)
    ensures (forall i <- visited :: i in Contents(s, c)) && forall i <- Contents(s, c) :: i in visited
    ensures forall i <- s.parent :: i in visited <==> Below(s, c, i)
  {
  }

  /** Container::isHoldingItem. */
  method IsHoldingItem(c: Item, item: Item, w: World) returns (holding: bool)
    requires w.Valid() && c in w.heap.parent && item in w.heap.parent
    ensures holding <==> Below(w.heap, c, item)
  {
    hide World.Valid, Boxes, Inside, Start, Below, BreadthFirst, Reached;
    var it := new ContainerIterator(c, w);
    if !it.HasNext() {
      StartEmpty(w, c, it);
    }
    while it.HasNext()
      invariant it.Valid(w) && it.root == c && fresh(it) && item !in it.visited
      invariant !it.HasNext() ==> BreadthFirst(w.heap, c, it.visited)
      decreases |w.heap.parent.Keys| - |it.visited|
    {
      VisitedFits(w.heap, c, it.expanded, it.over, it.cur, it.visited);
      var current := it.Current(w);
      if current == item {
        CurrentBelow(w, it);
        return true;
      }
      it.Advance(w);
      VisitedFits(w.heap, c, it.expanded, it.over, it.cur, it.visited);
    }
    VisitedAll(w.heap, c, it.visited);
    holding := false;
  }

  lemma CurrentBelow(w: World, it: ContainerIterator)
    requires it.Valid(w) && it.HasNext() && it.cur < |it.over[0].itemlist|
    ensures Below(w.heap, it.root, it.over[0].itemlist[it.cur])
  {
    hide Forest, Ledger, Boxes, Inside, Start, Below;
    it.Here(w);
    NextIsNew(w.heap, it.root, it.expanded, it.over, it.cur, it.visited);
  }
}
