/**
 What a move does to the cached weights: the containers around the place an item leaves lose what
 was moved, those around the place it goes to gain it, and no other cache changes.
 */
module MoveWeights {
  import opened Containment
  import opened Transfer

  function Owns(types: Types, cell: map<Item, Cell>): map<Item, nat>
  {
    map i <- cell :: OwnWeight(types, cell[i])
  }

  /** Containment is a forest and every cache is exact. */
  ghost predicate Weighed(types: Types, s: State, cell: map<Item, Cell>, total: map<Item, nat>)
  {
    Consistent(s, cell) && Ledger(s, Owns(types, cell), total)
  }

  lemma ValidIsWeighed(w: World)
    requires w.Valid()
    ensures Weighed(w.types, w.heap, w.cell, w.total)
  {
    hide Forest, Ledger, OwnWeight, World.ShapeLinked, World.CellsLinked, World.TotalLinked;
    ValidIsConsistent(w);
    assert w.own == Owns(w.types, w.cell);
  }

  /** What `m` pieces of a stack weigh, or an unstackable item with its contents. */
  ghost function Burden(types: Types, cell: map<Item, Cell>, total: map<Item, nat>, item: Item, m: nat): int
    requires item in cell
  {
    if types(cell[item].id).stackable then BaseWeight(types, cell[item]) * m
    else Weight(Owns(types, cell), total, item)
  }

  /** What stacks is no container, and is never empty. */
  predicate Pile(types: Types, cell: map<Item, Cell>, i: Item)
  {
    i in cell && types(cell[i].id).stackable ==> !i.isContainer && cell[i].count >= 1
  }

  /** Taking an item, or a part of it, out lightens the containers around it by that much. */
  lemma {:induction false} TakenWeighs(
      types: Types, s: State, cell: map<Item, Cell>, total: map<Item, nat>, taken: State, from: Item, item: Item,
      m: nat)
    requires Weighed(types, s, cell, total) && from in s.list && item in s.list[from]
    requires from in s.parent && from.isContainer && item in cell && Pile(types, cell, item)
    requires types(cell[item].id).stackable ==> 1 <= m <= cell[item].count
    requires TakenOut(s, taken, from, item, Wholly(types, cell[item], m))
    ensures Consistent(taken, Rest(types, cell, item, m))
    ensures Weighed(types, taken, Rest(types, cell, item, m),
                    Pushed(s, total, from, 0 - Burden(types, cell, total, item, m)))
  {
    hide Forest, Ledger, Pushed, OwnWeight, BaseWeight, Weight, Wrap, Detached;
    var own := Owns(types, cell);
    var k :| 0 <= k < |s.list[from]| && s.list[from][k] == item
             && (Wholly(types, cell[item], m) ==> taken == Detached(s, from, k));
    if Wholly(types, cell[item], m) {
      DetachKeepsLedger(s, own, total, from, k);
      DetachKeys(s, from, k);
      if types(cell[item].id).stackable {
        WholeStackWeighs(types, cell, total, item);
        WrapSub(0, Weight(own, total, item));
        PushedAlike(s, total, from, 0 - Weight(own, total, item), 0 - Burden(types, cell, total, item, m));
      }
    } else {
      var rest := Rest(types, cell, item, m);
      EditKeepsLedger(s, own, Owns(types, rest), total, from, k);
      StackPushed(types, s, own, Owns(types, rest), total, from, item, cell[item], rest[item], m);
    }
  }

  lemma DetachKeys(s: State, c: Item, k: nat)
    requires Forest(s) && c in s.list && k < |s.list[c]|
    ensures Detached(s, c, k).parent.Keys == s.parent.Keys
  {
    assert s.list[c][k] in s.list[c];
  }

  lemma WholeStackWeighs(types: Types, cell: map<Item, Cell>, total: map<Item, nat>, item: Item)
    requires item in cell && types(cell[item].id).stackable && Pile(types, cell, item)
    ensures Wrap(0 - Weight(Owns(types, cell), total, item))
         == Wrap(0 - Burden(types, cell, total, item, cell[item].count))
  {
    hide Wrap, BaseWeight, OwnWeight;
    StackWeighs(types, cell[item]);
    WrapSub(0, BaseWeight(types, cell[item]) * cell[item].count);
    assert Wrap(0) == 0 by {
      WrapZero();
    }
  }

  lemma WrapZero()
    ensures Wrap(0) == 0
  {
  }

  /** Pieces put onto a stack make the containers around it heavier by what they weigh. */
  lemma {:induction false} ToppedWeighs(
      types: Types, s: State, cell: map<Item, Cell>, total: map<Item, nat>, dest: Item, toItem: Item, c: Cell, n: nat)
    requires Weighed(types, s, cell, total) && dest in s.parent && dest.isContainer && dest in s.list
    requires toItem in s.list[dest] && toItem in cell && Pile(types, cell, toItem)
    requires types(cell[toItem].id).stackable && Retouched(cell[toItem], c) && c.count == cell[toItem].count + n
    ensures Weighed(types, s, cell[toItem := c],
                    Pushed(s, total, dest, BaseWeight(types, cell[toItem]) * n))
  {
    hide Forest, Ledger, Pushed, OwnWeight, BaseWeight, Weight, Wrap, Lasting;
    var own, own' := Owns(types, cell), Owns(types, cell[toItem := c]);
    var k :| 0 <= k < |s.list[dest]| && s.list[dest][k] == toItem;
    EditKeepsLedger(s, own, own', total, dest, k);
    LastingWeight(types, cell[toItem], c);
    StackChanges(types, cell[toItem], c, n);
    WeightsDiffer(own, own', total, toItem);
    PushedAlike(s, total, dest, Weight(own', total, toItem) - Weight(own, total, toItem),
                BaseWeight(types, cell[toItem]) * n);
  }

  /** The weight attribute is a lasting one. */
  lemma LastingWeight(types: Types, c: Cell, d: Cell)
    requires Retouched(c, d)
    ensures BaseWeight(types, d) == BaseWeight(types, c)
  {
    assert ITEM_ATTRIBUTE_WEIGHT !in AGEING;
    assert ITEM_ATTRIBUTE_WEIGHT in c.attrs.plain <==> ITEM_ATTRIBUTE_WEIGHT in Lasting(c.attrs).plain;
    assert ITEM_ATTRIBUTE_WEIGHT in d.attrs.plain <==> ITEM_ATTRIBUTE_WEIGHT in Lasting(d.attrs).plain;
  }

  /** From `total` to `total'` the caches of `c` and of everything around it rose by `d`, and no others changed. */
  ghost predicate Raised(s: State, total: map<Item, nat>, total': map<Item, nat>, c: Item, d: int)
  {
    forall i <- total :: i in total' && total'[i] == if i in Ancestry(s, c) then Wrap(total[i] + d) else total[i]
  }

  lemma PushedRaises(s: State, total: map<Item, nat>, c: Item, d: int)
    ensures Raised(s, total, Pushed(s, total, c, d), c, d)
  {
  }

  lemma {:induction false} RaisedTwice(
      s: State, total: map<Item, nat>, total': map<Item, nat>, total'': map<Item, nat>, c: Item, d: int, e: int)
    requires Raised(s, total, total', c, d) && Raised(s, total', total'', c, e)
    ensures Raised(s, total, total'', c, d + e)
  {
    hide Wrap, Ancestry;
    forall i <- total ensures Wrap(Wrap(total[i] + d) + e) == Wrap(total[i] + (d + e)) {
      WrapAdd(total[i] + d, e);
    }
  }

  lemma {:induction false} RaisedAlike(
      s: State, total: map<Item, nat>, total': map<Item, nat>, c: Item, d: int, e: int)
    requires Raised(s, total, total', c, d) && Wrap(d) == Wrap(e)
    ensures Raised(s, total, total', c, e)
  {
    hide Wrap, Ancestry;
    forall i <- total ensures Wrap(total[i] + d) == Wrap(total[i] + e) {
      WrapAdd(total[i], d);
      WrapAdd(total[i], e);
    }
  }

  lemma {:induction false} NotRaised(
      types: Types, s: State, cell: map<Item, Cell>, total: map<Item, nat>, c: Item)
    requires Weighed(types, s, cell, total)
    ensures Raised(s, total, total, c, 0)
  {
    hide Ancestry, OwnWeight, Forest;
    forall i <- total ensures total[i] == Wrap(total[i] + 0) {
      assert Balanced(s, Owns(types, cell), total, i);
    }
  }

  /** A new stack laid into a container makes everything around it heavier by its weight. */
  lemma {:induction false} LaidWeighs(
      types: Types, s: State, cell: map<Item, Cell>, total: map<Item, nat>, dest: Item, x: Item, c: Cell)
    returns (total': map<Item, nat>)
    requires Weighed(types, s, cell, total) && dest in s.parent && dest.isContainer && x !in s.parent
    ensures CanAttach(WithNew(s, x), dest, x) && x in WithNew(s, x).rank && dest in WithNew(s, x).list
    ensures Weighed(types, Attached(WithNew(s, x), dest, x, 0), cell[x := c], total')
    ensures Raised(s, total, total', dest, OwnWeight(types, c))
  {
    hide Weighed, Forest, Ledger, Pushed, OwnWeight, Wrap, WithNew, Attached, Raised, CanAttach;
    var d := OwnWeight(types, c);
    var own := Owns(types, cell[x := c]);
    WeighedKeys(types, s, cell, total);
    LaidKeys(s, dest, x);
    var t := Attached(WithNew(s, x), dest, x, 0);
    var e := Weight(own, total[x := 0], x);
    total' := Pushed(t, total[x := 0], dest, e);
    LaidLedger(types, s, cell, total, dest, x, c);
    PushedRaises(t, total[x := 0], dest, e);
    FreshWeight(own, total, x, d);
    RaisedAlike(t, total[x := 0], total', dest, e, d);
    RaisedBefore(s, t, total, total', dest, x, d);
  }

  lemma LaidLedger(
      types: Types, s: State, cell: map<Item, Cell>, total: map<Item, nat>, dest: Item, x: Item, c: Cell)
    requires Weighed(types, s, cell, total) && dest in s.parent && dest.isContainer && x !in s.parent
    requires CanAttach(WithNew(s, x), dest, x) && x in WithNew(s, x).rank && dest in WithNew(s, x).list
    ensures var t, own := Attached(WithNew(s, x), dest, x, 0), Owns(types, cell[x := c]);
            Weighed(types, t, cell[x := c], Pushed(t, total[x := 0], dest, Weight(own, total[x := 0], x)))
  {
    hide Forest, Ledger, Pushed, OwnWeight, Wrap, WithNew, Attached, CanAttach, Weight;
    var d := OwnWeight(types, c);
    var own := Owns(types, cell)[x := d];
    assert Owns(types, cell[x := c]) == own;
    NewKeepsLedger(s, Owns(types, cell), total, x, d);
    AttachKeepsLedger(WithNew(s, x), own, total[x := 0], dest, x, 0);
    LaidKeys(s, dest, x);
  }

  lemma WeighedKeys(types: Types, s: State, cell: map<Item, Cell>, total: map<Item, nat>)
    requires Weighed(types, s, cell, total)
    ensures Forest(s) && total.Keys == s.parent.Keys == cell.Keys == s.list.Keys == s.rank.Keys
  {
    hide OwnWeight, Balanced;
  }

  lemma FreshWeight(own: map<Item, nat>, total: map<Item, nat>, x: Item, d: nat)
    requires x in own && own[x] == d
    ensures Wrap(Weight(own, total[x := 0], x)) == Wrap(d)
  {
    hide Wrap;
    WrapAdd(d, 0);
    WrapAdd(0, d);
    assert d + 0 == d;
  }

  lemma LaidKeys(s: State, dest: Item, x: Item)
    requires Forest(s) && dest in s.parent && dest.isContainer && x !in s.parent
    ensures CanAttach(WithNew(s, x), dest, x) && x in WithNew(s, x).rank && dest in WithNew(s, x).list
    ensures Attached(WithNew(s, x), dest, x, 0).parent.Keys == s.parent.Keys + {x}
    ensures Ancestry(Attached(WithNew(s, x), dest, x, 0), dest) == Ancestry(s, dest)
  {
    hide Forest;
    CloneAttaches(s, dest, x);
    AttachKeepsForest(WithNew(s, x), dest, x, 0);
    ForestClimbs(s);
    NewKeepsForest(s, x);
    ForestClimbs(WithNew(s, x));
    AncestryClosed(s, dest);
    AncestryKept(s, WithNew(s, x), dest);
  }

  lemma RaisedBefore(
      s: State, t: State, total: map<Item, nat>, total': map<Item, nat>, dest: Item, x: Item, d: int)
    requires x !in total && Ancestry(t, dest) == Ancestry(s, dest) && Raised(t, total[x := 0], total', dest, d)
    ensures Raised(s, total, total', dest, d)
  {
    hide Ancestry, Wrap;
  }

  /** Whatever is put down into a container makes everything around it heavier by that. */
  lemma {:induction false} DepositedWeighs(
      types: Types, s: State, cell: map<Item, Cell>, total: map<Item, nat>, t: State, cell': map<Item, Cell>,
      dest: Item, item: Item, toItem: Item?, m: nat, x: Item?)
    returns (total': map<Item, nat>)
    requires Weighed(types, s, cell, total) && Consistent(t, cell')
    requires dest in s.parent && dest.isContainer && dest in s.list && item in cell
    requires if types(cell[item].id).stackable then m >= 1 else CanAttach(s, dest, item)
    requires toItem != null ==> toItem in s.list[dest] && Pile(types, cell, toItem)
    requires Deposited(types, s, cell, t, cell', dest, item, toItem, m, x)
    ensures Weighed(types, t, cell', total')
    ensures Raised(s, total, total', dest, Burden(types, cell, total, item, m))
  {
    hide Weighed, Consistent, Forest, Ledger, Pushed, OwnWeight, BaseWeight, Weight, Wrap, Raised, Lasting, Ancestry,
         Attached, WithNew, CanAttach;
    if types(cell[item].id).stackable {
      total' := StackDeposited(types, s, cell, total, t, cell', dest, item, toItem, m, x);
    } else {
      total' := Pushed(t, total, dest, Weight(Owns(types, cell), total, item));
      HungWeighs(types, s, cell, total, dest, item);
      WeighedKeys(types, s, cell, total);
      SameCells(s, cell, t, cell', dest, item);
    }
  }

  lemma SameCells(s: State, cell: map<Item, Cell>, t: State, cell': map<Item, Cell>, dest: Item, item: Item)
    requires Consistent(t, cell') && s.parent.Keys == cell.Keys && item in cell && item in s.rank && dest in s.list
    requires t == Attached(s, dest, item, 0) && forall i <- cell :: i in cell' && cell'[i] == cell[i]
    ensures cell' == cell
  {
    hide Forest, Ancestry;
  }

  lemma HungWeighs(types: Types, s: State, cell: map<Item, Cell>, total: map<Item, nat>, dest: Item, x: Item)
    requires Weighed(types, s, cell, total) && CanAttach(s, dest, x) && x in s.rank && dest in s.list
    ensures var t, d := Attached(s, dest, x, 0), Weight(Owns(types, cell), total, x);
            && Weighed(types, t, cell, Pushed(t, total, dest, d))
            && Raised(s, total, Pushed(t, total, dest, d), dest, d)
  {
    hide Forest, Ledger, Pushed, OwnWeight, Weight, Wrap, Raised;
    var t, d := Attached(s, dest, x, 0), Weight(Owns(types, cell), total, x);
    AttachKeepsForest(s, dest, x, 0);
    AttachKeepsLedger(s, Owns(types, cell), total, dest, x, 0);
    PushedRaises(t, total, dest, d);
    RaisedElsewhere(s, t, total, Pushed(t, total, dest, d), dest, d);
  }

  lemma RaisedElsewhere(s: State, t: State, total: map<Item, nat>, total': map<Item, nat>, c: Item, d: int)
    requires Ancestry(t, c) == Ancestry(s, c) && Raised(t, total, total', c, d)
    ensures Raised(s, total, total', c, d)
  {
    hide Ancestry, Wrap;
  }

  lemma StackDeposited(
      types: Types, s: State, cell: map<Item, Cell>, total: map<Item, nat>, t: State, cell': map<Item, Cell>,
      dest: Item, item: Item, toItem: Item?, m: nat, x: Item?)
    returns (total': map<Item, nat>)
    requires Weighed(types, s, cell, total) && Consistent(t, cell')
    requires dest in s.parent && dest.isContainer && dest in s.list
    requires item in cell && types(cell[item].id).stackable
    requires toItem != null ==> toItem in s.list[dest] && Pile(types, cell, toItem)
    requires Deposited(types, s, cell, t, cell', dest, item, toItem, m, x)
    ensures Weighed(types, t, cell', total')
    ensures Raised(s, total, total', dest, BaseWeight(types, cell[item]) * m)
  {
    hide Weighed, Consistent, Forest, Ledger, Pushed, OwnWeight, BaseWeight, Weight, Wrap, Raised, Lasting, Ancestry,
         Attached, WithNew;
    var n, base := Merged(types, cell, item, toItem, m), BaseWeight(types, cell[item]);
    WeighedKeys(types, s, cell, total);
    var cell1, total1 := ToppedUp(types, s, cell, total, cell', dest, item, toItem, n);
    if x == null {
      total' := total1;
      assert cell' == cell1 by {
        ConsistentKeys(t, cell');
      }
    } else {
      var c := cell[item].(count := m - n);
      total' := LaidWeighs(types, s, cell1, total1, dest, x, c);
      PiecesLaid(types, cell[item], m - n);
      RaisedAlike(s, total1, total', dest, OwnWeight(types, c), base * (m - n));
      RaisedTwice(s, total, total1, total', dest, base * n, base * (m - n));
      assert base * n + base * (m - n) == base * m;
      assert cell' == cell1[x := c] by {
        ConsistentKeys(t, cell');
        LaidKeys(s, dest, x);
      }
    }
  }

  lemma ConsistentKeys(s: State, cell: map<Item, Cell>)
    requires Consistent(s, cell)
    ensures cell.Keys == s.parent.Keys
  {
  }

  lemma PiecesLaid(types: Types, c: Cell, n: nat)
    requires types(c.id).stackable && n >= 1
    ensures Wrap(OwnWeight(types, c.(count := n))) == Wrap(BaseWeight(types, c) * n)
  {
    hide Wrap, OwnWeight;
    StackWeighs(types, c.(count := n));
    WrapAdd(BaseWeight(types, c) * n, 0);
    assert BaseWeight(types, c) * n + 0 == BaseWeight(types, c) * n;
  }

  /** The first half: what goes onto the stack aimed at, if anything. */
  lemma ToppedUp(
      types: Types, s: State, cell: map<Item, Cell>, total: map<Item, nat>, cell': map<Item, Cell>, dest: Item,
      item: Item, toItem: Item?, n: nat)
    returns (cell1: map<Item, Cell>, total1: map<Item, nat>)
    requires Weighed(types, s, cell, total) && dest in s.parent && dest.isContainer && dest in s.list && item in cell
    requires toItem != null ==> toItem in s.list[dest] && Pile(types, cell, toItem)
    requires if Onto(types, cell, item, toItem)
             then toItem in cell' && Retouched(cell[toItem], cell'[toItem])
                  && cell'[toItem].count == cell[toItem].count + n
             else n == 0
    ensures cell1 == if Onto(types, cell, item, toItem) then cell[toItem := cell'[toItem]] else cell
    ensures Weighed(types, s, cell1, total1) && Raised(s, total, total1, dest, BaseWeight(types, cell[item]) * n)
  {
    hide Weighed, Forest, Ledger, Pushed, OwnWeight, Weight, Wrap, Raised, Lasting, Ancestry;
    if Onto(types, cell, item, toItem) {
      ToppedWeighs(types, s, cell, total, dest, toItem, cell'[toItem], n);
      assert BaseWeight(types, cell[item]) == BaseWeight(types, cell[toItem]);
      cell1 := cell[toItem := cell'[toItem]];
      total1 := Pushed(s, total, dest, BaseWeight(types, cell[item]) * n);
      PushedRaises(s, total, dest, BaseWeight(types, cell[item]) * n);
    } else {
      cell1, total1 := cell, total;
      NotRaised(types, s, cell, total, dest);
    }
  }

  /**
   After a move of `m` pieces, or of a whole unstackable item, the caches around the place it left
   are lower by what it weighs, those around the place it went to are higher by that, and all other
   caches are as before. Around both, as for a split or a merge inside one container, nothing changes.
   */
  ghost predicate WeightMoved(
      s: State, total: map<Item, nat>, total': map<Item, nat>, from: Item, dest: Item, burden: int)
  {
    forall i <- total :: i in total' && total'[i]
      == Wrap(total[i] + (if i in Ancestry(s, dest) then burden else 0)
              - (if i in Ancestry(s, from) then burden else 0))
  }

  lemma {:induction false} TakenAndDeposited(
      types: Types, s: State, cell: map<Item, Cell>, total: map<Item, nat>, taken: State, t: State,
      cell': map<Item, Cell>, total': map<Item, nat>, from: Item, dest: Item, item: Item, toItem: Item?, m: nat,
      x: Item?)
    requires Weighed(types, s, cell, total) && Weighed(types, t, cell', total')
    requires from in s.list && item in s.list[from] && from in s.parent && from.isContainer
    requires dest in s.parent && dest.isContainer && item in cell && item !in Ancestry(s, dest)
    requires types(cell[item].id).stackable ==> 1 <= m <= cell[item].count
    requires dest in s.list && (toItem != null ==> toItem in s.list[dest] && toItem != item)
    requires Pile(types, cell, item) && (toItem != null ==> Pile(types, cell, toItem))
    requires TakenOut(s, taken, from, item, Wholly(types, cell[item], m)) && dest in taken.list
    requires Deposited(types, taken, Rest(types, cell, item, m), t, cell', dest, item, toItem, m, x)
    ensures WeightMoved(s, total, total', from, dest, Burden(types, cell, total, item, m))
  {
    hide Weighed, Consistent, Forest, Ledger, Pushed, OwnWeight, BaseWeight, Weight, Wrap, Raised, Lasting, Ancestry,
         CanAttach, TakenOut, Deposited, Rest, Pile, Burden, WeightMoved, Wholly, Owns;
    var rest, burden := Rest(types, cell, item, m), Burden(types, cell, total, item, m);
    var total1 := TakenHalf(types, s, cell, total, taken, from, item, m);
    WeighedKeys(types, taken, rest, total1);
    StillThere(types, s, cell, total, taken, from, dest, item, toItem, m);
    WeighedIsConsistent(types, t, cell', total');
    var total2 := DepositedWeighs(types, taken, rest, total1, t, cell', dest, item, toItem, m, x);
    OnlyCaches(types, t, cell', total', total2);
    DownAndUp(types, s, taken, cell, total, total1, total', from, dest, burden);
  }

  lemma TakenHalf(
      types: Types, s: State, cell: map<Item, Cell>, total: map<Item, nat>, taken: State, from: Item, item: Item,
      m: nat)
    returns (total1: map<Item, nat>)
    requires Weighed(types, s, cell, total) && from in s.list && item in s.list[from]
    requires from in s.parent && from.isContainer && item in cell && Pile(types, cell, item)
    requires types(cell[item].id).stackable ==> 1 <= m <= cell[item].count
    requires TakenOut(s, taken, from, item, Wholly(types, cell[item], m))
    ensures Weighed(types, taken, Rest(types, cell, item, m), total1)
    ensures Raised(s, total, total1, from, 0 - Burden(types, cell, total, item, m))
    ensures Burden(types, Rest(types, cell, item, m), total1, item, m) == Burden(types, cell, total, item, m)
  {
    hide Weighed, Consistent, Forest, Ledger, Pushed, OwnWeight, BaseWeight, Weight, Wrap, Raised, Ancestry, TakenOut,
         Rest, Pile, Burden, Wholly;
    TakenWeighs(types, s, cell, total, taken, from, item, m);
    total1 := Pushed(s, total, from, 0 - Burden(types, cell, total, item, m));
    PushedRaises(s, total, from, 0 - Burden(types, cell, total, item, m));
    SameBurden(types, s, cell, total, from, item, m);
  }

  lemma WeighedIsConsistent(types: Types, s: State, cell: map<Item, Cell>, total: map<Item, nat>)
    requires Weighed(types, s, cell, total)
    ensures Consistent(s, cell)
  {
  }

  lemma OnlyCaches(types: Types, s: State, cell: map<Item, Cell>, total: map<Item, nat>, total': map<Item, nat>)
    requires Weighed(types, s, cell, total) && Weighed(types, s, cell, total')
    ensures total == total'
  {
    CachesAreUnique(s, Owns(types, cell), total, total');
  }

  /** What taking leaves as it was for the putting down. */
  lemma StillThere(
      types: Types, s: State, cell: map<Item, Cell>, total: map<Item, nat>, taken: State, from: Item, dest: Item,
      item: Item, toItem: Item?, m: nat)
    requires Weighed(types, s, cell, total) && Forest(taken)
    requires from in s.list && item in s.list[from] && from in s.parent && from.isContainer
    requires dest in s.parent && dest.isContainer && item in cell && item !in Ancestry(s, dest)
    requires dest in s.list && (toItem != null ==> toItem in s.list[dest] && toItem != item)
    requires toItem != null ==> Pile(types, cell, toItem)
    requires TakenOut(s, taken, from, item, Wholly(types, cell[item], m)) && dest in taken.list
    ensures dest in taken.parent && Ancestry(taken, dest) == Ancestry(s, dest)
    ensures !types(cell[item].id).stackable ==> CanAttach(taken, dest, item)
    ensures toItem != null ==> toItem in taken.list[dest] && Pile(types, Rest(types, cell, item, m), toItem)
    ensures var rest := Rest(types, cell, item, m);
            rest[item].id == cell[item].id && BaseWeight(types, rest[item]) == BaseWeight(types, cell[item])
    ensures !types(cell[item].id).stackable ==> Rest(types, cell, item, m) == cell
  {
    hide Forest, Ledger, OwnWeight, Ancestry, Detached;
    if Wholly(types, cell[item], m) {
      var k :| 0 <= k < |s.list[from]| && s.list[from][k] == item && taken == Detached(s, from, k);
      DetachedElsewhere(s, from, k, dest);
      ForestClimbs(s);
      ForestClimbs(taken);
      AncestryClosed(s, dest);
      AncestryKept(s, taken, dest);
    }
  }

  lemma SameBurden(
      types: Types, s: State, cell: map<Item, Cell>, total: map<Item, nat>, from: Item, item: Item, m: nat)
    requires Weighed(types, s, cell, total) && from in s.parent && from in s.list && item in s.list[from]
    requires item in cell
    ensures var total1 := Pushed(s, total, from, 0 - Burden(types, cell, total, item, m));
            var rest := Rest(types, cell, item, m);
            Burden(types, rest, total1, item, m) == Burden(types, cell, total, item, m)
  {
    hide Forest, Ledger, OwnWeight, Ancestry, Wrap, Pushed;
    ContentsLive(s, from);
    ChildOffChain(s, from, item);
    WeightOffChain(s, Owns(types, cell), total, from, 0 - Burden(types, cell, total, item, m), item);
  }

  lemma DownAndUp(
      types: Types, s: State, t: State, cell: map<Item, Cell>, total: map<Item, nat>, total': map<Item, nat>,
      total'': map<Item, nat>, from: Item, dest: Item, burden: int)
    requires Weighed(types, s, cell, total) && Ancestry(t, dest) == Ancestry(s, dest)
    requires Raised(s, total, total', from, 0 - burden) && Raised(t, total', total'', dest, burden)
    ensures WeightMoved(s, total, total'', from, dest, burden)
  {
    hide Weighed, Wrap, Ancestry;
    NotRaised(types, s, cell, total, from);
    forall i <- total
      ensures Wrap(Wrap(total[i] + (0 - burden)) + burden) == Wrap(total[i] + burden - burden)
      ensures Wrap(total[i]) == total[i]
    {
      WrapAdd(total[i] + (0 - burden), burden);
      NotRaised(types, s, cell, total, i);
      assert i in Ancestry(s, i) by {
        Self(s, i);
      }
      assert total[i] + 0 == total[i];
    }
  }

  lemma Self(s: State, i: Item)
    ensures i in Ancestry(s, i)
  {
  }

  /** The law of weights for every move that Game::internalMoveItem carries out. */
  lemma {:induction false} MoveShiftsWeight(
      types: Types, s: State, cell: map<Item, Cell>, total: map<Item, nat>, taken: State, t: State,
      cell': map<Item, Cell>, total': map<Item, nat>, from: Item, to: Item, index: int, dest: Item, slot: int,
      item: Item, toItem: Item?, count: nat, flags: Flags, tradeItem: Item?, moved: nat, laid: Item?)
    requires Weighed(types, s, cell, total) && Weighed(types, t, cell', total')
    requires from in s.parent && from.isContainer && dest in s.parent && dest.isContainer && item in cell
    requires item in s.parent && to in s.list && to in s.parent && dest in s.list
    requires Resolved(types, s, cell, to, index, item, flags, dest, slot, toItem) && toItem != item
    requires !flags.childIsOwner
             && Proceeds(types, s, cell, from, dest, slot, item, count, FlagsAt(to, dest, flags), tradeItem)
    requires types(cell[item].id).stackable ==>
               var limit := Limit(types, s, cell, dest, slot, item);
               moved == if count <= limit then count else limit
    requires Pile(types, cell, item) && (toItem != null ==> Pile(types, cell, toItem))
    requires TakenOut(s, taken, from, item, Wholly(types, cell[item], moved)) && dest in taken.list
    requires Deposited(types, taken, Rest(types, cell, item, moved), t, cell', dest, item, toItem, moved, laid)
    ensures WeightMoved(s, total, total', from, dest, Burden(types, cell, total, item, moved))
    ensures from == dest ==> forall i <- total :: i in total' && total'[i] == total[i]
  {
    hide Weighed, WeightMoved, Wrap, Ancestry, Pile, TakenOut, Deposited, Rest, Burden, Limit, Stackable;
    TakenAndDeposited(types, s, cell, total, taken, t, cell', total', from, dest, item, toItem, moved, laid);
    if from == dest {
      InPlace(types, s, cell, total, total', from, Burden(types, cell, total, item, moved));
    }
  }

  lemma InPlace(
      types: Types, s: State, cell: map<Item, Cell>, total: map<Item, nat>, total': map<Item, nat>, c: Item,
      burden: int)
    requires Weighed(types, s, cell, total) && WeightMoved(s, total, total', c, c, burden)
    ensures forall i <- total :: i in total' && total'[i] == total[i]
  {
    hide Weighed, Wrap, Ancestry;
    forall i <- total ensures Wrap(total[i]) == total[i] {
      NotRaised(types, s, cell, total, i);
      assert i in Ancestry(s, i) by {
        Self(s, i);
      }
      assert total[i] + 0 == total[i];
    }
  }

  /** Game::internalMoveItem with the law of weights read off the caches themselves. */
  method MoveAndWeigh(
      from: Item, to: Item, index: int, item: Item, count: nat, flags: Flags, tradeItem: Item?, w: World)
    returns (
      ret: ReturnValue, ghost dest: Item, ghost toItem: Item?, ghost done: bool, ghost moved: nat)
    requires w.Valid() && Stacked(w.types, w.cell) && !flags.noLimit && !flags.childIsOwner
    requires from in w.heap.parent && from.isContainer && to in w.heap.parent && to.isContainer
    requires item in w.heap.parent && item in w.cell
    modifies w`items, w`heap, w`cell, w`own, w`total, w.items
    ensures w.Valid() && (!done ==> w.total == old(w.total))
    ensures done && Pile(w.types, old(w.cell), item) && (toItem != null ==> Pile(w.types, old(w.cell), toItem)) ==>
              && WeightMoved(old(w.heap), old(w.total), w.total, from, dest,
                             Burden(w.types, old(w.cell), old(w.total), item, moved))
              && (from == dest ==> forall i <- old(w.total) :: i in w.total && w.total[i] == old(w.total)[i])
  {
    hide World.Valid, Weighed, WeightMoved, TakenOut, Deposited, Rest, Resolved, Proceeds, Limit, Transferred, Stacked,
         Pile, Ancestry, Burden;
    ghost var s, cell, total := w.heap, w.cell, w.total;
    ValidIsWeighed(w);
    WeighedKeys(w.types, s, cell, total);
    ghost var slot, taken, laid;
    ret, dest, slot, toItem, done, moved, taken, laid :=
      InternalMoveItem(from, to, index, item, count, flags, tradeItem, w);
    ValidIsWeighed(w);
    if !done {
      OnlyCaches(w.types, s, cell, total, w.total);
    } else if Pile(w.types, cell, item) && (toItem != null ==> Pile(w.types, cell, toItem)) {
      MoveShiftsWeight(w.types, s, cell, total, taken, w.heap, w.cell, w.total, from, to, index, dest, slot, item,
                       toItem, count, flags, tradeItem, moved, laid);
    }
  }
}
