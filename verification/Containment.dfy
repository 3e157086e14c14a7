/**
 The item containment heap: items, the containers that hold them, parent pointers, and the
 weight every container caches (server/src/container.cpp, server/src/item.h).

 Items and containers are heap objects that the operations update in place. `World` carries
 the static item-type table and, as ghost state, the set of live items together with a rank
 that witnesses that parent pointers form a forest.
 */
module Containment {

  /** Weights are 32-bit unsigned in the source and wrap around. */
  const MODULUS: int := 0x1_0000_0000

  function Wrap(n: int): (r: nat)
    ensures 0 <= r < MODULUS
  {
    n % MODULUS
  }

  lemma {:induction false} WrapAdd(a: int, b: int)
    ensures Wrap(Wrap(a) + b) == Wrap(a + b)
    ensures Wrap(a + Wrap(b)) == Wrap(a + b)
  {
    assert a == MODULUS * (a / MODULUS) + Wrap(a);
    assert b == MODULUS * (b / MODULUS) + Wrap(b);
    WrapShift(Wrap(a) + b, a / MODULUS);
    WrapShift(a + Wrap(b), b / MODULUS);
  }

  lemma {:induction false} WrapPush(own: int, total: int, d: int)
    ensures Wrap(own + Wrap(total + d)) == Wrap(Wrap(own + total) + d)
  {
    WrapAdd(own, total + d);
    WrapAdd(own + total, d);
  }

  lemma {:induction false} WrapShift(a: int, k: int)
    ensures Wrap(a + MODULUS * k) == Wrap(a)
  {
  }

  lemma {:induction false} WrapSub(a: int, b: int)
    ensures Wrap(Wrap(a) - Wrap(b)) == Wrap(a - b)
  {
    assert b == MODULUS * (b / MODULUS) + Wrap(b);
    WrapAdd(a, 0 - Wrap(b));
    WrapShift(a - Wrap(b), 0 - b / MODULUS);
  }

  function Sum(s: seq<int>): int
  {
    if s == [] then 0 else s[0] + Sum(s[1..])
  }

  lemma {:induction false} SumUpdate(s: seq<int>, k: nat, v: int)
    requires k < |s|
    ensures Sum(s[k := v]) == Sum(s) - s[k] + v
  {
    if k == 0 {
      assert s[0 := v][1..] == s[1..];
    } else {
      assert s[k := v][1..] == s[1..][k - 1 := v];
      SumUpdate(s[1..], k - 1, v);
    }
  }

  lemma {:induction false} SumConcat(s: seq<int>, t: seq<int>)
    ensures Sum(s + t) == Sum(s) + Sum(t)
  {
    if s == [] {
      assert s + t == t;
    } else {
      assert (s + t)[1..] == s[1..] + t;
      SumConcat(s[1..], t);
    }
  }

  function Insert<T>(list: seq<T>, k: nat, x: T): (r: seq<T>)
    requires k <= |list|
    ensures |r| == |list| + 1 && r[k] == x
  {
    list[..k] + [x] + list[k..]
  }

  function Remove<T>(list: seq<T>, k: nat): (r: seq<T>)
    requires k < |list|
    ensures |r| == |list| - 1
  {
    list[..k] + list[k + 1..]
  }

  lemma SumInsert(s: seq<int>, k: nat, v: int)
    requires k <= |s|
    ensures Sum(Insert(s, k, v)) == Sum(s) + v
  {
    hide Sum;
    SumSingle(v);
    assert s == s[..k] + s[k..];
    SumConcat(s[..k], s[k..]);
    SumConcat(s[..k] + [v], s[k..]);
    SumConcat(s[..k], [v]);
  }

  lemma SumSingle(v: int)
    ensures Sum([v]) == v
  {
    assert [v][1..] == [];
  }

  lemma SumRemove(s: seq<int>, k: nat)
    requires k < |s|
    ensures Sum(Remove(s, k)) == Sum(s) - s[k]
  {
    assert s == s[..k] + s[k..] && s[k..][1..] == s[k + 1..];
    SumConcat(s[..k], s[k..]);
    SumConcat(s[..k], s[k + 1..]);
  }

  /** The columns of the item-type table that the modelled operations look at. */
  datatype ItemType = ItemType(
    weight: nat, stackable: bool, stackSize: nat, pickupable: bool, moveable: bool,
    fluidOrSplash: bool, charges: nat, decayTo: int, stopTime: bool, decayTimeMax: nat)

  datatype AttrValue = IntValue(n: int) | StrValue(s: string)

  /**
   An item's attribute list: the set attributes by their bit, and whether a table of custom
   attributes is present. The custom table is compared by address, never by content.
   */
  datatype Attributes = Attributes(plain: map<nat, AttrValue>, custom: bool)

  const ITEM_ATTRIBUTE_WEIGHT: nat := 512
  const ITEM_ATTRIBUTE_DURATION: nat := 131072
  const ITEM_ATTRIBUTE_DECAYSTATE: nat := 262144
  const ITEM_ATTRIBUTE_CORPSEOWNER: nat := 524288
  const ITEM_ATTRIBUTE_CHARGES: nat := 1048576
  const ITEM_ATTRIBUTE_FLUIDTYPE: nat := 2097152

  /** The part of an item that weight and stacking depend on. */
  datatype Cell = Cell(id: nat, count: nat, attrs: Attributes)

  type Types = nat -> ItemType

  function BaseWeight(types: Types, c: Cell): nat
  {
    if ITEM_ATTRIBUTE_WEIGHT in c.attrs.plain && c.attrs.plain[ITEM_ATTRIBUTE_WEIGHT].IntValue?
    then Wrap(c.attrs.plain[ITEM_ATTRIBUTE_WEIGHT].n)
    else types(c.id).weight
  }

  /** The weight of an item without contents. */
  function OwnWeight(types: Types, c: Cell): nat
  {
    var base := BaseWeight(types, c);
    if types(c.id).stackable then Wrap(base * (if c.count <= 1 then 1 else c.count)) else base
  }

  /** One piece weighs what its own weight attribute says, or else what its type weighs. */
  lemma {:induction false} PieceWeighs(types: Types, c: Cell)
    requires types(c.id).weight < MODULUS
    ensures ITEM_ATTRIBUTE_WEIGHT !in c.attrs.plain ==> OwnWeight(types, c.(count := 1)) == types(c.id).weight
    ensures forall n | 0 <= n < MODULUS && ITEM_ATTRIBUTE_WEIGHT in c.attrs.plain
                       && c.attrs.plain[ITEM_ATTRIBUTE_WEIGHT] == IntValue(n) :: OwnWeight(types, c.(count := 1)) == n
  {
    assert c.(count := 1).attrs == c.attrs;
  }

  /** What `m` pieces weigh before the sum is cut to 32 bits. */
  function Bulk(types: Types, c: Cell, m: int): int
  {
    BaseWeight(types, c) * m
  }

  /** A stack of a + b pieces weighs what a stack of a and a stack of b weigh. */
  lemma {:induction false} PiecesWeigh(types: Types, c: Cell, a: nat, b: nat)
    requires types(c.id).stackable && a >= 1 && b >= 1
    ensures OwnWeight(types, c.(count := a + b))
         == Wrap(OwnWeight(types, c.(count := a)) + OwnWeight(types, c.(count := b)))
  {
    hide Wrap, BaseWeight;
    var base := BaseWeight(types, c);
    StackWeighs(types, c.(count := a));
    StackWeighs(types, c.(count := b));
    StackWeighs(types, c.(count := a + b));
    assert base * (a + b) == base * a + base * b;
    WrapAdd(base * a, base * b);
    WrapAdd(base * a, Wrap(base * b));
  }

  lemma StackWeighs(types: Types, c: Cell)
    requires types(c.id).stackable && c.count >= 1
    ensures forall n: nat :: BaseWeight(types, c.(count := n)) == BaseWeight(types, c)
    ensures OwnWeight(types, c) == Wrap(BaseWeight(types, c) * c.count)
  {
  }

  /** Taking `m` pieces off a stack, or putting them on, changes its weight by `m` times that of a piece. */
  lemma {:induction false} StackChanges(types: Types, c: Cell, c': Cell, m: int)
    requires types(c.id).stackable && c.count >= 1 && c'.count >= 1 && c'.count == c.count + m
    requires c'.id == c.id && BaseWeight(types, c') == BaseWeight(types, c)
    ensures Wrap(OwnWeight(types, c') - OwnWeight(types, c)) == Wrap(BaseWeight(types, c) * m)
  {
    hide Wrap, BaseWeight;
    var base := BaseWeight(types, c);
    StackWeighs(types, c);
    StackWeighs(types, c');
    WrapSub(base * c'.count, base * c.count);
    assert base * c'.count - base * c.count == base * m;
  }

  function WithInt(c: Cell, attr: nat, n: int): Cell
  {
    c.(attrs := c.attrs.(plain := c.attrs.plain[attr := IntValue(n)]))
  }

  function WithoutAttrs(c: Cell, gone: set<nat>): Cell
  {
    c.(attrs := c.attrs.(plain := c.attrs.plain - gone))
  }

  /** Item::setID, where `newDuration` is the duration drawn for the new type. */
  function SetID(types: Types, c: Cell, newid: nat, newDuration: nat): Cell
  {
    var it := types(newid);
    var bare :=
      if newDuration == 0 && !it.stopTime && it.decayTo < 0
      then WithoutAttrs(c, {ITEM_ATTRIBUTE_DECAYSTATE, ITEM_ATTRIBUTE_DURATION, ITEM_ATTRIBUTE_CORPSEOWNER})
      else WithoutAttrs(c, {ITEM_ATTRIBUTE_CORPSEOWNER});
    var moved := bare.(id := newid);
    if newDuration > 0 && (!types(c.id).stopTime || ITEM_ATTRIBUTE_DURATION !in bare.attrs.plain)
    then WithInt(WithInt(moved, ITEM_ATTRIBUTE_DECAYSTATE, 0), ITEM_ATTRIBUTE_DURATION, newDuration)
    else moved
  }

  /** The attributes of an item that come and go with its decaying and its owner. */
  const AGEING: set<nat> := {ITEM_ATTRIBUTE_DECAYSTATE, ITEM_ATTRIBUTE_DURATION, ITEM_ATTRIBUTE_CORPSEOWNER}

  function Lasting(a: Attributes): Attributes
  {
    a.(plain := a.plain - AGEING)
  }

  /** The item keeps its type and every attribute but those that come and go. */
  predicate Retouched(c: Cell, d: Cell)
  {
    d.id == c.id && Lasting(d.attrs) == Lasting(c.attrs)
  }

  predicate SameAt(a: Attributes, b: Attributes, attr: nat)
  {
    (attr in a.plain <==> attr in b.plain) && (attr in a.plain ==> a.plain[attr] == b.plain[attr])
  }

  predicate Holds(a: Attributes, attr: nat, n: int)
  {
    attr in a.plain && a.plain[attr] == IntValue(n)
  }

  /**
   A change of type keeps the count and every lasting attribute, and forgets the corpse's owner. An
   item whose clock the old type has stopped keeps its time; any other starts anew if the new type
   gives it time, and loses its time if the new type neither gives any, nor stops the clock, nor
   decays into something.
   */
  lemma SetIDKeeps(types: Types, c: Cell, newid: nat, newDuration: nat)
    ensures var r := SetID(types, c, newid, newDuration);
            && r.id == newid && r.count == c.count && Lasting(r.attrs) == Lasting(c.attrs)
            && ITEM_ATTRIBUTE_CORPSEOWNER !in r.attrs.plain
    ensures var r, stopped := SetID(types, c, newid, newDuration),
                              types(c.id).stopTime && ITEM_ATTRIBUTE_DURATION in c.attrs.plain;
            if newDuration > 0 && !stopped then
              Holds(r.attrs, ITEM_ATTRIBUTE_DECAYSTATE, 0) && Holds(r.attrs, ITEM_ATTRIBUTE_DURATION, newDuration)
            else if newDuration > 0 || types(newid).stopTime || types(newid).decayTo >= 0 then
              && SameAt(r.attrs, c.attrs, ITEM_ATTRIBUTE_DECAYSTATE)
              && SameAt(r.attrs, c.attrs, ITEM_ATTRIBUTE_DURATION)
            else ITEM_ATTRIBUTE_DECAYSTATE !in r.attrs.plain && ITEM_ATTRIBUTE_DURATION !in r.attrs.plain
  {
  }

  /** Item::setSubType; a count is stored in eight bits. */
  function SetSubType(types: Types, c: Cell, n: nat): Cell
  {
    var it := types(c.id);
    if it.fluidOrSplash then WithInt(c, ITEM_ATTRIBUTE_FLUIDTYPE, n)
    else if it.stackable then c.(count := n % 256)
    else if it.charges != 0 then WithInt(c, ITEM_ATTRIBUTE_CHARGES, n)
    else c.(count := n % 256)
  }

  function IntAttr(a: Attributes, attr: nat): int
  {
    if attr in a.plain && a.plain[attr].IntValue? then a.plain[attr].n else 0
  }

  /** Item::getSubType. */
  function SubType(types: Types, c: Cell): int
  {
    var it := types(c.id);
    if it.fluidOrSplash then IntAttr(c.attrs, ITEM_ATTRIBUTE_FLUIDTYPE) % 65536
    else if it.stackable then c.count
    else if it.charges != 0 then IntAttr(c.attrs, ITEM_ATTRIBUTE_CHARGES) % 65536
    else c.count
  }

  /** A sub type of up to 255 reads back as it was set; a count forgets all beyond its eight bits. */
  lemma SubTypeReadsBack(types: Types, c: Cell, n: nat)
    ensures var r, it := SetSubType(types, c, n), types(c.id);
            && r.id == c.id
            && (n <= 255 ==> SubType(types, r) == n)
            && if !it.fluidOrSplash && (it.stackable || it.charges == 0)
               then r.attrs == c.attrs && SetSubType(types, c, n + 256) == r
               else r.count == c.count
  {
  }

  /** The signed reading of a 32-bit word. */
  function Signed(n: int): int
  {
    if Wrap(n) < MODULUS / 2 then Wrap(n) else Wrap(n) - MODULUS
  }

  /** The count that removing `count` from a stack of `have` leaves, as the source computes it. */
  function Reduced(have: nat, count: nat): nat
  {
    var left := Signed(have - count);
    if left < 0 then 0 else left % 256
  }

  /**
   Taking at most what is there leaves the difference and taking more leaves nothing, until the
   32-bit difference is so far below zero that it counts as positive.
   */
  lemma ReducedExact(have: nat, m: nat)
    requires have <= 255 && m < MODULUS
    ensures m <= have ==> Reduced(have, m) == have - m
    ensures have < m <= have + MODULUS / 2 ==> Reduced(have, m) == 0
    ensures have + MODULUS / 2 < m ==> Reduced(have, m) == (have - m) % 256
  {
  }

  /**
   The shape of the heap: the parent and the contents, in order, of every live item, plus a
   rank that grows from contents to container.
   */
  datatype State = State(parent: map<Item, Item?>, list: map<Item, seq<Item>>, rank: map<Item, nat>)

  ghost predicate SameKeys(s: State)
  {
    s.list.Keys == s.parent.Keys && s.rank.Keys == s.parent.Keys
  }

  /** Every parent is a live container of larger rank, so every upward walk ends. */
  ghost predicate Climbing(s: State)
  {
    && SameKeys(s)
    && forall i {:trigger s.parent[i]} :: i in s.parent && s.parent[i] != null ==>
         s.parent[i] in s.parent && s.parent[i].isContainer && s.rank[i] < s.rank[s.parent[i]]
  }

  ghost predicate UpLinked(s: State)
    requires Climbing(s)
  {
    forall i {:trigger s.parent[i]} :: i in s.parent && s.parent[i] != null ==> i in s.list[s.parent[i]]
  }

  ghost predicate DownLinked(s: State)
    requires SameKeys(s)
  {
    forall i, j {:trigger j in s.list[i]} :: i in s.parent && j in s.list[i] ==>
      j in s.parent && s.parent[j] == i
  }

  ghost predicate Distinct(list: seq<Item>)
  {
    forall k, l :: 0 <= k < l < |list| ==> list[k] != list[l]
  }

  /** Parent pointers and contents agree, and no container is inside itself. */
  ghost predicate Forest(s: State)
  {
    && Climbing(s)
    && UpLinked(s)
    && DownLinked(s)
    && (forall i {:trigger Distinct(s.list[i])} :: i in s.parent ==> Distinct(s.list[i]))
    && (forall i {:trigger i.isContainer} :: i in s.parent && !i.isContainer ==> s.list[i] == [])
  }

  ghost function Above(s: State, i: Item): set<Item>
  {
    set j <- s.rank.Keys | i in s.rank && s.rank[i] < s.rank[j]
  }

  ghost predicate Climbs(s: State, i: Item)
  {
    && i in s.parent && i in s.rank && s.parent[i] != null
    && s.parent[i] in s.rank && s.rank[i] < s.rank[s.parent[i]]
  }

  lemma {:induction false} AboveShrinks(s: State, i: Item)
    requires Climbs(s, i)
    ensures Above(s, s.parent[i]) < Above(s, i)
  {
    assert s.parent[i] in Above(s, i) && s.parent[i] !in Above(s, s.parent[i]);
  }

  /** The item itself and everything that contains it, at any depth. */
  ghost function Ancestry(s: State, i: Item): set<Item>
    decreases Above(s, i)
  {
    if Climbs(s, i) then
      AboveShrinks(s, i);
      {i} + Ancestry(s, s.parent[i])
    else
      {i}
  }

  lemma {:induction false} AncestryClosed(s: State, i: Item)
    requires Climbing(s) && i in s.parent
    ensures i in Ancestry(s, i) && Ancestry(s, i) <= s.parent.Keys
    ensures forall j {:trigger s.parent[j]} :: j in Ancestry(s, i) && s.parent[j] != null ==>
              s.parent[j] in Ancestry(s, i)
    ensures forall j <- Ancestry(s, i) :: j != i ==> s.rank[i] < s.rank[j] && j.isContainer
    decreases Above(s, i)
  {
    if s.parent[i] != null {
      AboveShrinks(s, i);
      AncestryClosed(s, s.parent[i]);
    }
  }

  /** At most one of a container's contents lies on any given upward chain. */
  lemma {:induction false} OneChildOnChain(s: State, i: Item, a: Item, b: Item)
    requires Forest(s) && i in s.parent
    requires a in Ancestry(s, i) && b in Ancestry(s, i)
    requires a in s.parent && b in s.parent && s.parent[a] == s.parent[b] && s.parent[a] != null
    ensures a == b
    decreases Above(s, i)
  {
    AncestryClosed(s, i);
    if s.parent[i] != null {
      AboveShrinks(s, i);
      AncestryClosed(s, s.parent[i]);
      if i != a && i != b {
        OneChildOnChain(s, s.parent[i], a, b);
      }
    }
  }

  /** A container above another reaches it through one of its own contents. */
  lemma {:induction false} ChainHasChild(s: State, c: Item, i: Item)
    requires Forest(s) && c in s.parent && i in Ancestry(s, c) && i != c
    ensures i in s.parent && exists k :: 0 <= k < |s.list[i]| && s.list[i][k] in Ancestry(s, c)
    decreases Above(s, c)
  {
    AncestryClosed(s, c);
    AboveShrinks(s, c);
    if i == s.parent[c] {
      assert c in s.list[i];
    } else {
      ChainHasChild(s, s.parent[c], i);
    }
  }

  /** A chain only depends on the parents of its members. */
  lemma {:induction false} AncestryKept(s: State, t: State, i: Item)
    requires Climbing(s) && Climbing(t) && i in s.parent
    requires forall j <- Ancestry(s, i) :: j in s.parent && j in t.parent && t.parent[j] == s.parent[j]
    ensures Ancestry(t, i) == Ancestry(s, i)
    decreases Above(s, i)
  {
    AncestryClosed(s, i);
    if s.parent[i] != null {
      AboveShrinks(s, i);
      AncestryClosed(s, s.parent[i]);
      AncestryKept(s, t, s.parent[i]);
    }
  }

  // ----- Elementary changes of the heap -----

  /** `x`, detached so far, becomes the content of `c` at position `k`. */
  ghost function Attached(s: State, c: Item, x: Item, k: nat): State
    requires x in s.rank && c in s.list && k <= |s.list[c]|
  {
    s.(parent := s.parent[x := c],
       list := s.list[c := Insert(s.list[c], k, x)],
       rank := map i <- s.rank.Keys :: if i in Ancestry(s, c) then s.rank[i] + s.rank[x] + 1 else s.rank[i])
  }

  /** The content of `c` at position `k` leaves. */
  ghost function Detached(s: State, c: Item, k: nat): State
    requires c in s.list && k < |s.list[c]|
  {
    s.(parent := s.parent[s.list[c][k] := null], list := s.list[c := Remove(s.list[c], k)])
  }

  ghost predicate CanAttach(s: State, c: Item, x: Item)
  {
    Forest(s) && c in s.parent && x in s.parent && c.isContainer && s.parent[x] == null && x !in Ancestry(s, c)
  }

  /**
   Hanging a detached item below a container that is not inside it keeps the forest. This is
   exactly what the upward walk in Container::queryAdd checks.
   */
  lemma {:induction false} AttachKeepsForest(s: State, c: Item, x: Item, k: nat)
    requires CanAttach(s, c, x) && k <= |s.list[c]|
    ensures Forest(Attached(s, c, x, k))
    ensures Ancestry(Attached(s, c, x, k), c) == Ancestry(s, c)
  {
    var t := Attached(s, c, x, k);
    AncestryClosed(s, c);
    AttachLinks(s, c, x, k);
    AncestryKept(s, t, c);
  }

  lemma {:induction false} AttachLinks(s: State, c: Item, x: Item, k: nat)
    requires CanAttach(s, c, x) && k <= |s.list[c]|
    ensures Forest(Attached(s, c, x, k))
  {
    var t := Attached(s, c, x, k);
    AncestryClosed(s, c);
    InsertAt(s, c, x, k);
    forall i | i in t.parent && t.parent[i] != null
      ensures t.parent[i] in t.parent && t.parent[i].isContainer && t.rank[i] < t.rank[t.parent[i]]
      ensures i in t.list[t.parent[i]]
    {
      assert i != x ==> t.parent[i] == s.parent[i];
    }
    assert DownLinked(t);
  }

  lemma {:induction false} InsertAt(s: State, c: Item, x: Item, k: nat)
    requires Forest(s) && c in s.parent && x in s.parent && s.parent[x] == null && k <= |s.list[c]|
    ensures Distinct(Insert(s.list[c], k, x))
    ensures forall j <- Insert(s.list[c], k, x) :: j == x || j in s.list[c]
    ensures x in Insert(s.list[c], k, x) && forall j <- s.list[c] :: j in Insert(s.list[c], k, x)
  {
    var was := s.list[c];
    var list := Insert(was, k, x);
    assert x !in was && Distinct(was);
    forall j <- was ensures j in list {
      var l :| 0 <= l < |was| && was[l] == j;
      assert list[if l < k then l else l + 1] == j;
    }
  }

  lemma {:induction false} RemoveAt(list: seq<Item>, k: nat)
    requires k < |list| && Distinct(list)
    ensures Distinct(Remove(list, k))
    ensures forall j <- Remove(list, k) :: j in list && j != list[k]
    ensures forall j <- list :: j != list[k] ==> j in Remove(list, k)
  {
    var r := Remove(list, k);
    forall j | j in list && j != list[k] ensures j in r {
      var l :| 0 <= l < |list| && list[l] == j;
      assert r[if l < k then l else l - 1] == j;
    }
  }

  lemma {:induction false} DetachKeepsForest(s: State, c: Item, k: nat)
    requires Forest(s) && c in s.parent && k < |s.list[c]|
    ensures Forest(Detached(s, c, k))
    ensures Ancestry(Detached(s, c, k), c) == Ancestry(s, c)
  {
    DetachLinks(s, c, k);
    assert s.list[c][k] in s.list[c];
    AncestryClosed(s, c);
    AncestryKept(s, Detached(s, c, k), c);
  }

  lemma {:induction false} DetachLinks(s: State, c: Item, k: nat)
    requires Forest(s) && c in s.parent && k < |s.list[c]|
    ensures Forest(Detached(s, c, k))
  {
    var x, t := s.list[c][k], Detached(s, c, k);
    assert x in s.list[c] && s.parent[x] == c;
    RemoveAt(s.list[c], k);
    assert Climbing(t);
    DetachUp(s, c, k);
    forall i, j | i in t.parent && j in t.list[i]
      ensures j in t.parent && t.parent[j] == i
    {
      assert j in s.list[i];
    }
  }

  lemma {:induction false} DetachUp(s: State, c: Item, k: nat)
    requires Forest(s) && c in s.parent && k < |s.list[c]| && Climbing(Detached(s, c, k))
    ensures UpLinked(Detached(s, c, k))
  {
    var t := Detached(s, c, k);
    RemoveAt(s.list[c], k);
    assert s.list[c][k] in s.list[c];
    forall i | i in t.parent && t.parent[i] != null ensures i in t.list[t.parent[i]] {
      assert i in s.list[s.parent[i]];
    }
  }

  // ----- The weight ledger -----
  // `own` gives every item's weight without contents, `total` what each container caches.

  function At(m: map<Item, nat>, i: Item): nat
  {
    if i in m then m[i] else 0
  }

  function Weight(own: map<Item, nat>, total: map<Item, nat>, i: Item): nat
  {
    if i.isContainer then Wrap(At(own, i) + At(total, i)) else At(own, i)
  }

  function Weights(own: map<Item, nat>, total: map<Item, nat>, list: seq<Item>): (r: seq<int>)
    ensures |r| == |list|
  {
    seq(|list|, k requires 0 <= k < |list| => Weight(own, total, list[k]))
  }

  /** The cached weight of `i` is the sum over its direct contents, modulo 2^32. */
  ghost predicate Balanced(s: State, own: map<Item, nat>, total: map<Item, nat>, i: Item)
    requires i in s.list
  {
    At(total, i) == Wrap(Sum(Weights(own, total, s.list[i])))
  }

  ghost predicate Ledger(s: State, own: map<Item, nat>, total: map<Item, nat>)
  {
    && own.Keys == total.Keys == s.list.Keys
    && forall i {:trigger Balanced(s, own, total, i)} :: i in s.list ==> Balanced(s, own, total, i)
  }

  /** What a walk of updateItemWeight from `c` to the top of its chain leaves behind. */
  ghost function Pushed(s: State, total: map<Item, nat>, c: Item, d: int): map<Item, nat>
  {
    map i <- total :: if i in Ancestry(s, c) then Wrap(total[i] + d) else total[i]
  }

  lemma {:induction false} PushedAlike(s: State, total: map<Item, nat>, c: Item, d: int, d': int)
    requires Wrap(d) == Wrap(d')
    ensures Pushed(s, total, c, d) == Pushed(s, total, c, d')
  {
    hide Wrap, Ancestry;
    forall i <- total ensures Wrap(total[i] + d) == Wrap(total[i] + d') {
      WrapAdd(total[i], d);
      WrapAdd(total[i], d');
    }
  }

  /** A change of an item's own weight changes its whole weight alike. */
  lemma {:induction false} WeightsDiffer(own: map<Item, nat>, own': map<Item, nat>, total: map<Item, nat>, x: Item)
    ensures Wrap(Weight(own', total, x) - Weight(own, total, x)) == Wrap(At(own', x) - At(own, x))
  {
    hide Wrap;
    if x.isContainer {
      WrapSub(At(own', x) + At(total, x), At(own, x) + At(total, x));
    }
  }

  lemma {:induction false} StackPushed(
      types: Types, s: State, own: map<Item, nat>, own': map<Item, nat>, total: map<Item, nat>, c: Item, x: Item,
      was: Cell, now: Cell, m: int)
    requires types(was.id).stackable && was.count >= 1 && now == was.(count := now.count) && now.count >= 1
    requires m == was.count - now.count
    requires At(own, x) == OwnWeight(types, was) && At(own', x) == OwnWeight(types, now)
    ensures Pushed(s, total, c, Weight(own', total, x) - Weight(own, total, x))
         == Pushed(s, total, c, 0 - Bulk(types, was, m))
  {
    hide Wrap, Weight, OwnWeight, BaseWeight, Pushed;
    StackWeighs(types, was);
    StackChanges(types, was, now, 0 - m);
    assert BaseWeight(types, was) * (0 - m) == 0 - BaseWeight(types, was) * m;
    WeightsDiffer(own, own', total, x);
    PushedAlike(s, total, c, Weight(own', total, x) - Weight(own, total, x), 0 - BaseWeight(types, was) * m);
  }

  lemma {:induction false} PushedStep(s: State, total: map<Item, nat>, c: Item, d: int)
    requires Climbing(s) && c in s.parent && c in total
    ensures var step := total[c := Wrap(total[c] + d)];
            Pushed(s, total, c, d) == if s.parent[c] == null then step else Pushed(s, step, s.parent[c], d)
    ensures s.parent[c] != null ==> Climbs(s, c) && s.parent[c] in s.parent && s.parent[c].isContainer
  {
    if s.parent[c] != null {
      AncestryClosed(s, s.parent[c]);
    }
  }

  /**
   The heart of the ledger: when only `c` and its contents were edited, `c` is balanced, and
   the difference was pushed up the chain of `c`, then every container is balanced again.
   */
  lemma {:induction false} LedgerRestored(
      s: State, t: State, own: map<Item, nat>, own': map<Item, nat>, total: map<Item, nat>, c: Item, d: int)
    requires Forest(t) && s.list.Keys == t.list.Keys == own'.Keys && Ledger(s, own, total)
    requires c in t.parent && c.isContainer
    requires forall i <- s.list | i != c :: s.list[i] == t.list[i]
    requires forall i <- t.parent | t.parent[i] != null && t.parent[i] != c :: At(own, i) == At(own', i)
    requires Balanced(t, own', Pushed(t, total, c, d), c)
    ensures Ledger(t, own', Pushed(t, total, c, d))
  {
    forall i <- t.parent | i != c ensures Balanced(t, own', Pushed(t, total, c, d), i) {
      assert Balanced(s, own, total, i);
      BalanceMoves(s, t, own, own', total, c, d, i);
    }
  }

  lemma {:induction false} BalanceMoves(
      s: State, t: State, own: map<Item, nat>, own': map<Item, nat>, total: map<Item, nat>, c: Item, d: int, i: Item)
    requires Forest(t) && t.parent.Keys == total.Keys && s.list.Keys == t.list.Keys
    requires c in t.parent && c.isContainer && i in t.parent && i != c
    requires s.list[i] == t.list[i] && forall j <- t.list[i] :: At(own, j) == At(own', j)
    requires Balanced(s, own, total, i)
    ensures Balanced(t, own', Pushed(t, total, c, d), i)
  {
    assert Weights(own, total, t.list[i]) == Weights(own', total, t.list[i]);
    if i in Ancestry(t, c) {
      BalanceMovesOnChain(t, own', total, c, d, i);
    } else {
      WeightsMove(t, own', total, c, d, t.list[i]);
      ContentsOffChain(t, c, i);
      assert Weights(own', Pushed(t, total, c, d), t.list[i]) == Weights(own', total, t.list[i]);
    }
  }

  lemma {:induction false} BalanceMovesOnChain(
      t: State, own: map<Item, nat>, total: map<Item, nat>, c: Item, d: int, i: Item)
    requires Forest(t) && t.parent.Keys == total.Keys
    requires c in t.parent && c.isContainer && i in t.parent && i != c && i in Ancestry(t, c)
    requires Balanced(t, own, total, i)
    ensures Balanced(t, own, Pushed(t, total, c, d), i)
  {
    hide Wrap, Ancestry;
    var k := OneWeightMoves(t, own, total, c, d, i);
    SumPushed(Weights(own, total, t.list[i]), k, d);
  }

  lemma {:induction false} OneWeightMoves(
      t: State, own: map<Item, nat>, total: map<Item, nat>, c: Item, d: int, i: Item)
    returns (k: nat)
    requires Forest(t) && t.parent.Keys == total.Keys
    requires c in t.parent && c.isContainer && i in t.parent && i != c && i in Ancestry(t, c)
    ensures var was := Weights(own, total, t.list[i]);
            k < |was| && Weights(own, Pushed(t, total, c, d), t.list[i]) == was[k := Wrap(was[k] + d)]
  {
    var list := t.list[i];
    WeightsMove(t, own, total, c, d, list);
    ChainHasChild(t, c, i);
    k :| 0 <= k < |list| && list[k] in Ancestry(t, c);
    forall l | 0 <= l < |list| && l != k ensures list[l] !in Ancestry(t, c) {
      SiblingsOffChain(t, c, i, k, l);
    }
  }

  lemma {:induction false} WeightsMove(
      t: State, own: map<Item, nat>, total: map<Item, nat>, c: Item, d: int, list: seq<Item>)
    requires Forest(t) && t.parent.Keys == total.Keys
    requires c in t.parent && c.isContainer && forall j <- list :: j in total
    ensures forall l | 0 <= l < |list| ::
              Weights(own, Pushed(t, total, c, d), list)[l]
              == if list[l] in Ancestry(t, c) then Wrap(Weights(own, total, list)[l] + d)
                 else Weights(own, total, list)[l]
  {
    forall l | 0 <= l < |list|
      ensures Weight(own, Pushed(t, total, c, d), list[l])
           == if list[l] in Ancestry(t, c) then Wrap(Weight(own, total, list[l]) + d)
              else Weight(own, total, list[l])
    {
      assert list[l] in list;
      WeightMoves(t, own, total, c, d, list[l]);
    }
  }

  lemma {:induction false} ContentsOffChain(t: State, c: Item, i: Item)
    requires Forest(t) && c in t.parent && i in t.parent && i !in Ancestry(t, c)
    ensures forall l | 0 <= l < |t.list[i]| :: t.list[i][l] !in Ancestry(t, c)
  {
    AncestryClosed(t, c);
    forall l | 0 <= l < |t.list[i]| ensures t.list[i][l] !in Ancestry(t, c) {
      assert t.list[i][l] in t.list[i];
    }
  }

  lemma {:induction false} SiblingsOffChain(t: State, c: Item, i: Item, k: nat, l: nat)
    requires Forest(t) && c in t.parent && i in t.parent
    requires k < |t.list[i]| && l < |t.list[i]| && k != l && t.list[i][k] in Ancestry(t, c)
    ensures t.list[i][l] !in Ancestry(t, c)
  {
    var a, b := t.list[i][k], t.list[i][l];
    assert Distinct(t.list[i]) && a in t.list[i] && b in t.list[i];
    if b in Ancestry(t, c) {
      OneChildOnChain(t, c, a, b);
    }
  }

  lemma {:induction false} WeightMoves(t: State, own: map<Item, nat>, total: map<Item, nat>, c: Item, d: int, j: Item)
    requires Forest(t) && t.parent.Keys == total.Keys
    requires c in t.parent && c.isContainer && j in total
    ensures Weight(own, Pushed(t, total, c, d), j)
         == if j in Ancestry(t, c) then Wrap(Weight(own, total, j) + d) else Weight(own, total, j)
  {
    hide Wrap, Ancestry;
    if j in Ancestry(t, c) {
      hide Forest;
      ForestClimbs(t);
      hide Climbing;
      AncestryClosed(t, c);
      WrapPush(At(own, j), total[j], d);
    }
  }

  lemma ForestClimbs(s: State)
    requires Forest(s)
    ensures Climbing(s) && SameKeys(s)
  {
  }

  lemma {:induction false} SumPushed(was: seq<int>, k: nat, d: int)
    requires k < |was|
    ensures Wrap(Sum(was[k := Wrap(was[k] + d)])) == Wrap(Wrap(Sum(was)) + d)
  {
    SumUpdate(was, k, Wrap(was[k] + d));
    WrapAdd(Sum(was) - was[k], was[k] + d);
    WrapAdd(Sum(was), d);
  }

  // ----- The cache is the recursive weight of the contents -----

  /** The exact weight of everything inside `i`, at any depth, recomputed from scratch. */
  ghost function TrueContents(s: State, own: map<Item, nat>, i: Item): int
    requires Forest(s) && i in s.parent
    decreases s.rank[i], |s.list[i]| + 1
  {
    TrueSum(s, own, i, s.list[i])
  }

  ghost function TrueSum(s: State, own: map<Item, nat>, i: Item, list: seq<Item>): int
    requires Forest(s) && i in s.parent && forall j <- list :: j in s.list[i]
    decreases s.rank[i], |list|
  {
    if list == [] then 0
    else
      var j := list[0];
      assert j in s.list[i] && s.parent[j] == i;
      At(own, j) + TrueContents(s, own, j) + TrueSum(s, own, i, list[1..])
  }

  /** The cache equals recomputation: modulo 2^32, at every depth. */
  lemma {:induction false} CacheIsRecomputation(s: State, own: map<Item, nat>, total: map<Item, nat>, i: Item)
    requires Forest(s) && Ledger(s, own, total) && i in s.parent
    ensures At(total, i) == Wrap(TrueContents(s, own, i))
    decreases s.rank[i], |s.list[i]| + 1
  {
    assert Balanced(s, own, total, i);
    SumIsRecomputation(s, own, total, i, s.list[i]);
  }

  /** There is only one way to fill the caches. */
  lemma {:induction false} CachesAreUnique(s: State, own: map<Item, nat>, total: map<Item, nat>, total': map<Item, nat>)
    requires Forest(s) && Ledger(s, own, total) && Ledger(s, own, total')
    ensures total == total'
  {
    hide Wrap;
    ForestClimbs(s);
    forall i <- total ensures At(total, i) == At(total', i) {
      CacheIsRecomputation(s, own, total, i);
      CacheIsRecomputation(s, own, total', i);
    }
  }

  lemma {:induction false} SumIsRecomputation(
      s: State, own: map<Item, nat>, total: map<Item, nat>, i: Item, list: seq<Item>)
    requires Forest(s) && Ledger(s, own, total) && i in s.parent && forall j <- list :: j in s.list[i]
    ensures Wrap(Sum(Weights(own, total, list))) == Wrap(TrueSum(s, own, i, list))
    decreases s.rank[i], |list|
  {
    if list != [] {
      var j, rest := list[0], list[1..];
      assert j in s.list[i] && s.parent[j] == i;
      CacheIsRecomputation(s, own, total, j);
      SumIsRecomputation(s, own, total, i, rest);
      assert Weights(own, total, list)[1..] == Weights(own, total, rest);
      WrapSum(At(own, j), TrueContents(s, own, j), Sum(Weights(own, total, rest)), TrueSum(s, own, i, rest));
      WrapAdd(Weight(own, total, j), Sum(Weights(own, total, rest)));
    }
  }

  lemma {:induction false} WrapSum(own: int, inner: int, rest: int, rest': int)
    requires Wrap(rest) == Wrap(rest')
    ensures Wrap(Wrap(own + Wrap(inner)) + rest) == Wrap(own + inner + rest')
    ensures Wrap(own + 0 + rest) == Wrap(own + 0 + rest')
  {
    WrapAdd(own, inner);
    WrapAdd(own + inner, rest);
    WrapAdd(own + inner, rest');
    WrapAdd(own, rest);
    WrapAdd(own, rest');
  }

  // ----- Items and containers as objects -----

  class Item {
    const isContainer: bool
    const maxSize: nat
    var id: nat
    var count: nat
    var attrs: Attributes
    var parent: Item?
    var itemlist: seq<Item>
    var totalWeight: nat

    /** A detached item; a container starts empty. */
    constructor (isContainer: bool, maxSize: nat, id: nat, count: nat, attrs: Attributes)
      ensures this.isContainer == isContainer && this.maxSize == maxSize
      ensures this.id == id && this.count == count && this.attrs == attrs
      ensures parent == null && itemlist == [] && totalWeight == 0
    {
      this.isContainer, this.maxSize := isContainer, maxSize;
      this.id, this.count, this.attrs := id, count, attrs;
      parent, itemlist, totalWeight := null, [], 0;
    }

    function CellOf(): Cell
      reads this`id, this`count, this`attrs
    {
      Cell(id, count, attrs)
    }

    function GetWeight(w: World): nat
      reads this`id, this`count, this`attrs, this`totalWeight
    {
      var own := OwnWeight(w.types, CellOf());
      if isContainer then Wrap(own + totalWeight) else own
    }

    /** The position of `thing` among the contents, or -1. */
    method GetThingIndex(thing: Item) returns (index: int)
      ensures index == -1 <==> thing !in itemlist
      ensures index != -1 ==> 0 <= index < |itemlist| && itemlist[index] == thing
    {
      index := 0;
      while index < |itemlist|
        invariant 0 <= index <= |itemlist|
        invariant thing !in itemlist[..index]
      {
        if itemlist[index] == thing {
          return;
        }
        index := index + 1;
      }
      index := -1;
    }

    /** Adds `diff` to the cache of this container and of every container above it. */
    method UpdateItemWeight(diff: int, w: World)
      requires w.Linked() && Climbing(w.heap) && this in w.heap.parent && isContainer
      modifies w`total, w.items`totalWeight
      ensures w.Linked()
      ensures w.total == Pushed(w.heap, old(w.total), this, diff)
      decreases Above(w.heap, this)
    {
      hide Climbing, Pushed, OwnWeight, World.ShapeLinked, World.CellsLinked, World.OwnLinked,
           MirrorsShape, MirrorsCells, MirrorsOwn;
      w.LinkAt(this);
      PushedStep(w.heap, w.total, this, diff);
      totalWeight := Wrap(totalWeight + diff);
      assert w.ShapeLinked() && w.CellsLinked();
      w.total := w.total[this := totalWeight];
      if parent != null {
        AboveShrinks(w.heap, this);
        parent.UpdateItemWeight(diff, w);
      }
    }

    /** Attaches at the front; silently refuses an index at or past the capacity. */
    method AddThing(index: int, item: Item, w: World)
      requires w.Valid() && CanAttach(w.heap, this, item)
      modifies w`heap, w`total, `itemlist, item`parent, w.items`totalWeight
      ensures w.Valid()
      ensures w.heap == if index < maxSize then Attached(old(w.heap), this, item, 0) else old(w.heap)
      ensures w.total == if index < maxSize
                         then Pushed(w.heap, old(w.total), this, old(Weight(w.own, w.total, item)))
                         else old(w.total)
    {
      if index >= maxSize {
        return;
      }
      InternalAddThing(item, w);
    }

    /** Attaches at the front whatever the capacity, as the loaders do. */
    method InternalAddThing(item: Item, w: World)
      requires w.Valid() && CanAttach(w.heap, this, item)
      modifies w`heap, w`total, `itemlist, item`parent, w.items`totalWeight
      ensures w.Valid()
      ensures w.heap == Attached(old(w.heap), this, item, 0)
      ensures w.total == Pushed(w.heap, old(w.total), this, old(Weight(w.own, w.total, item)))
    {
      hide Climbing, Forest, Ledger, Ancestry, Pushed, World.ShapeLinked, World.CellsLinked,
           World.OwnLinked, World.TotalLinked;
      w.LinkAt(this);
      w.LinkAt(item);
      var d := item.GetWeight(w);
      AttachKeepsLedger(w.heap, w.own, w.total, this, item, 0);
      Attach(item, 0, w);
      UpdateItemWeight(d, w);
    }

    /** Attaches at the back whatever the capacity. */
    method AddItemBack(item: Item, w: World)
      requires w.Valid() && CanAttach(w.heap, this, item)
      modifies w`heap, w`total, `itemlist, item`parent, w.items`totalWeight
      ensures w.Valid()
      ensures w.heap == Attached(old(w.heap), this, item, |old(itemlist)|)
      ensures w.total == Pushed(w.heap, old(w.total), this, old(Weight(w.own, w.total, item)))
    {
      hide Climbing, Forest, Ledger, Ancestry, Pushed, World.ShapeLinked, World.CellsLinked,
           World.OwnLinked, World.TotalLinked;
      w.LinkAt(this);
      w.LinkAt(item);
      AttachKeepsLedger(w.heap, w.own, w.total, this, item, |itemlist|);
      Attach(item, |itemlist|, w);
      w.LinkAt(item);
      UpdateItemWeight(item.GetWeight(w), w);
    }

    /** Changes type and count of something held here; anything else is ignored. */
    method UpdateThing(thing: Item, itemId: nat, count: nat, newDuration: nat, w: World)
      requires w.Valid() && this in w.heap.parent && isContainer && thing in w.heap.parent
      modifies w`cell, w`own, w`total, thing`id, thing`count, thing`attrs, w.items`totalWeight
      ensures w.Valid()
      ensures thing !in itemlist ==> w.cell == old(w.cell) && w.total == old(w.total)
      ensures thing in itemlist ==> w.cell == old(w.cell)[thing :=
                SetSubType(w.types, SetID(w.types, old(w.cell)[thing], itemId, newDuration), count % 65536)]
    {
      hide Climbing, Forest, Ledger, Ancestry, Pushed, World.ShapeLinked, World.CellsLinked,
           World.OwnLinked, World.TotalLinked, SetSubType, SetID;
      var index := GetThingIndex(thing);
      if index == -1 {
        return;
      }
      w.LinkAt(this);
      w.LinkAt(thing);
      var oldWeight := thing.GetWeight(w);
      ghost var own := w.own;
      thing.SetCell(SetSubType(w.types, SetID(w.types, thing.CellOf(), itemId, newDuration), count % 65536), w);
      w.LinkAt(thing);
      EditKeepsLedger(w.heap, own, w.own, w.total, this, index);
      UpdateItemWeight(thing.GetWeight(w) - oldWeight, w);
    }

    /** Puts `thing` in the place of the content at `index`, which becomes detached. */
    method ReplaceThing(index: nat, thing: Item, w: World)
      requires w.Valid() && CanAttach(w.heap, this, thing)
      modifies w`heap, w`total, `itemlist, w.items`parent, w.items`totalWeight
      ensures w.Valid()
      ensures index >= |old(itemlist)| ==> w.heap == old(w.heap) && w.total == old(w.total)
      ensures index < |old(itemlist)| ==>
                w.heap == Replaced(old(w.heap), this, thing, index)
    {
      hide Climbing, Forest, Ledger, Ancestry, Pushed, Attached, Halfway,
           World.ShapeLinked, World.CellsLinked, World.OwnLinked, World.TotalLinked;
      if index >= |itemlist| {
        return;
      }
      w.LinkAt(this);
      w.LinkAt(thing);
      var replacedItem := itemlist[index];
      ghost var s := w.heap;
      ReplaceKeepsLedger(s, w.own, w.total, this, thing, index);
      w.LinkAt(replacedItem);
      var d := thing.GetWeight(w) - replacedItem.GetWeight(w);
      Swap(thing, index, w);
      UpdateItemWeight(d, w);
      replacedItem.SetParent(null, w.heap.rank, w);
      assert w.heap == Replaced(s, this, thing, index);
    }

    method Swap(thing: Item, k: nat, w: World)
      requires w.Linked() && this in w.heap.parent && thing in w.heap.parent && thing in w.heap.rank
      requires this in w.heap.list && k < |w.heap.list[this]|
      modifies w`heap, `itemlist, thing`parent
      ensures w.Linked()
      ensures w.heap == Halfway(old(w.heap), this, thing, k)
      ensures w.heap.parent == old(w.heap).parent[thing := this]
    {
      hide Ancestry, World.ShapeLinked, World.CellsLinked, World.OwnLinked, World.TotalLinked;
      w.LinkAt(this);
      ghost var s := w.heap;
      SetContents(itemlist[k := thing], w);
      thing.SetParent(this, Halfway(s, this, thing, k).rank, w);
    }

    /** Whether taking `count` pieces leaves some of the stack. */
    predicate Splits(count: nat, w: World)
      reads `id, `count
    {
      w.types(id).stackable && count != this.count
    }

    /** What `count` pieces weigh, or the item with its contents if it leaves as a whole. */
    ghost function Load(count: nat, w: World): int
      reads `id, `count, `attrs, w`own, w`total
    {
      if Splits(count, w) then Bulk(w.types, CellOf(), count) else Weight(w.own, w.total, this)
    }

    /** Takes part of a stack, or the whole item, out; anything not held here is ignored. */
    method RemoveThing(thing: Item, count: nat, w: World)
      requires w.Valid() && this in w.heap.parent && isContainer && thing in w.heap.parent
      modifies w`heap, w`cell, w`own, w`total, thing`id, thing`count, thing`attrs, thing`parent, `itemlist,
               w.items`totalWeight
      ensures w.Valid()
      ensures thing !in old(itemlist) ==> w.heap == old(w.heap) && w.cell == old(w.cell) && w.total == old(w.total)
      // the caches of the chain lose the weight of what was taken
      ensures thing in old(itemlist) && (old(thing.Splits(count, w)) ==> 1 <= count < old(thing.count) <= 255) ==>
                w.total == Pushed(old(w.heap), old(w.total), this, 0 - old(thing.Load(count, w)))
      ensures thing in old(itemlist) && old(thing.Splits(count, w)) ==>
                w.heap == old(w.heap)
                && w.cell == old(w.cell)[thing := old(w.cell)[thing].(count := Reduced(old(thing.count), count))]
      ensures thing in old(itemlist) && !old(thing.Splits(count, w)) ==>
                w.cell == old(w.cell)
                && exists k :: 0 <= k < |old(itemlist)| && old(itemlist)[k] == thing
                               && w.heap == Detached(old(w.heap), this, k)
    {
      hide Climbing, Forest, Ledger, Ancestry, Pushed, World.ShapeLinked, World.CellsLinked,
           World.OwnLinked, World.TotalLinked, Reduced, Bulk, OwnWeight, Weight, BaseWeight;
      var index := GetThingIndex(thing);
      if index == -1 {
        return;
      }
      w.LinkAt(this);
      w.LinkAt(thing);
      if w.types(thing.id).stackable && count != thing.count {
        TakePart(thing, index, count, w);
      } else {
        TakeOut(thing, index, w);
      }
    }

    method TakePart(thing: Item, index: nat, count: nat, w: World)
      requires w.Valid() && this in w.heap.parent && isContainer && thing in w.heap.parent
      requires index < |itemlist| && itemlist[index] == thing && thing.Splits(count, w)
      modifies w`cell, w`own, w`total, thing`id, thing`count, thing`attrs, w.items`totalWeight
      ensures w.Valid() && thing in old(w.cell)
      ensures w.cell == old(w.cell)[thing := old(w.cell)[thing].(count := Reduced(old(thing.count), count))]
      ensures 1 <= count < old(thing.count) <= 255 ==>
                w.total == Pushed(w.heap, old(w.total), this, 0 - old(thing.Load(count, w)))
    {
      hide Climbing, Forest, Ledger, Ancestry, Pushed, World.ShapeLinked, World.CellsLinked,
           World.OwnLinked, World.TotalLinked, Reduced, Bulk, OwnWeight, Weight;
      w.LinkAt(thing);
      if count < thing.count <= 255 {
        ReducedExact(thing.count, count);
      }
      ShrinkStack(thing, index, Reduced(thing.count, count), w);
    }

    method ShrinkStack(thing: Item, index: nat, newCount: nat, w: World)
      requires w.Valid() && this in w.heap.parent && isContainer && thing in w.heap.parent
      requires index < |itemlist| && itemlist[index] == thing
      modifies w`cell, w`own, w`total, thing`id, thing`count, thing`attrs, w.items`totalWeight
      ensures w.Valid()
      ensures w.cell == old(w.cell)[thing := old(thing.CellOf()).(count := newCount)]
      ensures old(w.types(thing.id).stackable && thing.count >= 1) && newCount >= 1 ==>
                w.total == Pushed(w.heap, old(w.total), this,
                                  0 - old(Bulk(w.types, thing.CellOf(), thing.count - newCount)))
    {
      hide Climbing, Forest, Ledger, Ancestry, Pushed, World.ShapeLinked, World.CellsLinked,
           World.OwnLinked, World.TotalLinked, Bulk, OwnWeight, BaseWeight, Weight;
      w.LinkAt(this);
      w.LinkAt(thing);
      var oldWeight := thing.GetWeight(w);
      ghost var own := w.own;
      ghost var was, total := thing.CellOf(), w.total;
      thing.SetCell(thing.CellOf().(count := newCount), w);
      w.LinkAt(thing);
      EditKeepsLedger(w.heap, own, w.own, w.total, this, index);
      var diff := thing.GetWeight(w) - oldWeight;
      if w.types(was.id).stackable && was.count >= 1 && newCount >= 1 {
        StackPushed(w.types, w.heap, own, w.own, total, this, thing, was, thing.CellOf(), was.count - newCount);
      }
      UpdateItemWeight(diff, w);
    }

    method TakeOut(thing: Item, index: nat, w: World)
      requires w.Valid() && this in w.heap.parent && isContainer && thing in w.heap.parent
      requires index < |itemlist| && itemlist[index] == thing
      modifies w`heap, w`total, `itemlist, thing`parent, w.items`totalWeight
      ensures w.Valid()
      ensures this in old(w.heap).list && index < |old(w.heap).list[this]|
      ensures w.heap == Detached(old(w.heap), this, index)
      ensures w.total == Pushed(old(w.heap), old(w.total), this, 0 - old(Weight(w.own, w.total, thing)))
    {
      hide Climbing, Forest, Ledger, Ancestry, Pushed, World.ShapeLinked, World.CellsLinked,
           World.OwnLinked, World.TotalLinked;
      w.LinkAt(this);
      w.LinkAt(thing);
      DetachKeepsLedger(w.heap, w.own, w.total, this, index);
      UpdateItemWeight(0 - thing.GetWeight(w), w);
      Detach(thing, index, w);
    }

    /** A new detached item of the same type and attributes, holding `count` pieces. */
    method Clone(count: nat, w: World) returns (x: Item)
      requires w.Valid() && this in w.heap.parent
      modifies w`items, w`heap, w`cell, w`own, w`total
      ensures w.Valid()
      ensures fresh(x) && w.items == old(w.items) + {x} && x !in old(w.heap).parent && !x.isContainer
      ensures w.heap == WithNew(old(w.heap), x)
      ensures w.cell == old(w.cell)[x := Cell(old(id), count, old(attrs))]
    {
      hide Forest, Ledger, OwnWeight, World.ShapeLinked, World.CellsLinked, World.OwnLinked, World.TotalLinked;
      w.LinkAt(this);
      x := new Item(false, 0, id, count, attrs);
      w.Adopt(x);
    }

    /** The parent pointer changes; the lists and caches that depend on it lag behind. */
    method SetParent(p: Item?, ghost rank: map<Item, nat>, w: World)
      requires w.Linked() && this in w.heap.parent
      modifies w`heap, `parent
      ensures w.Linked()
      ensures w.heap == old(w.heap).(parent := old(w.heap).parent[this := p], rank := rank)
    {
      hide World.CellsLinked, World.OwnLinked, World.TotalLinked, MirrorsLists;
      w.LinkKeys();
      w.heap := w.heap.(parent := w.heap.parent[this := p], rank := rank);
      StoreParent(p, w);
    }

    method StoreParent(p: Item?, w: World)
      requires w.CellsLinked() && w.OwnLinked() && w.TotalLinked() && MirrorsLists(w.items, w.heap.list)
      requires w.heap.parent.Keys == w.items && this in w.items && w.heap.parent[this] == p
      requires forall i {:trigger w.heap.parent[i]} :: i in w.items && i != this ==> w.heap.parent[i] == i.parent
      modifies `parent
      ensures w.Linked()
    {
      hide World.CellsLinked, World.OwnLinked, World.TotalLinked, MirrorsLists;
      parent := p;
    }

    /** The parent pointer and the list entry, not yet the caches. */
    method Attach(item: Item, k: nat, w: World)
      requires w.Linked() && this in w.heap.parent && item in w.heap.parent && item in w.heap.rank
      requires this in w.heap.list && k <= |w.heap.list[this]|
      modifies w`heap, `itemlist, item`parent
      ensures w.Linked()
      ensures w.heap == Attached(old(w.heap), this, item, k)
    {
      hide Ancestry, World.ShapeLinked, World.CellsLinked, World.OwnLinked, World.TotalLinked;
      w.LinkAt(this);
      item.SetParent(this, Attached(w.heap, this, item, k).rank, w);
      SetContents(Insert(itemlist, k, item), w);
    }

    method Detach(thing: Item, k: nat, w: World)
      requires w.Linked() && this in w.heap.parent && this in w.heap.list && k < |w.heap.list[this]|
      requires w.heap.list[this][k] == thing && thing in w.heap.parent
      modifies w`heap, `itemlist, thing`parent
      ensures w.Linked()
      ensures w.heap == Detached(old(w.heap), this, k)
    {
      hide World.ShapeLinked, World.CellsLinked, World.OwnLinked, World.TotalLinked;
      w.LinkAt(this);
      thing.SetParent(null, w.heap.rank, w);
      SetContents(Remove(itemlist, k), w);
    }

    method SetCell(c: Cell, w: World)
      requires w.Linked() && this in w.heap.parent
      modifies w`cell, w`own, `id, `count, `attrs
      ensures w.Linked()
      ensures w.cell == old(w.cell)[this := c]
      ensures w.own == old(w.own)[this := OwnWeight(w.types, c)]
    {
      hide World.ShapeLinked, World.TotalLinked, OwnWeight, Wrap;
      w.LinkAt(this);
      MirrorsOwnUpdate(w.types, w.cell, w.own, this, c);
      w.cell, w.own := w.cell[this := c], w.own[this := OwnWeight(w.types, c)];
      StoreCell(c, w);
    }

    method StoreCell(c: Cell, w: World)
      requires w.ShapeLinked() && w.OwnLinked() && w.TotalLinked() && this in w.items
      requires w.cell.Keys == w.items && w.cell[this] == c
      requires forall i {:trigger w.cell[i]} :: i in w.items && i != this ==> w.cell[i] == i.CellOf()
      modifies `id, `count, `attrs
      ensures w.Linked()
    {
      hide World.ShapeLinked, World.OwnLinked, World.TotalLinked;
      id, count, attrs := c.id, c.count, c.attrs;
    }

    method SetContents(list: seq<Item>, w: World)
      requires w.Linked() && this in w.heap.parent
      modifies w`heap, `itemlist
      ensures w.Linked()
      ensures w.heap == old(w.heap).(list := old(w.heap).list[this := list])
    {
      hide World.CellsLinked, World.OwnLinked, World.TotalLinked, MirrorsParents;
      w.LinkKeys();
      w.heap := w.heap.(list := w.heap.list[this := list]);
      itemlist := list;
    }
  }

  ghost predicate MirrorsParents(items: set<Item>, parent: map<Item, Item?>)
    reads items`parent
  {
    parent.Keys == items && forall i {:trigger parent[i]} :: i in items ==> parent[i] == i.parent
  }

  ghost predicate MirrorsLists(items: set<Item>, list: map<Item, seq<Item>>)
    reads items`itemlist
  {
    list.Keys == items && forall i {:trigger list[i]} :: i in items ==> list[i] == i.itemlist
  }

  ghost predicate MirrorsShape(items: set<Item>, heap: State)
    reads items`parent, items`itemlist
  {
    MirrorsParents(items, heap.parent) && MirrorsLists(items, heap.list)
  }

  ghost predicate MirrorsCells(items: set<Item>, cell: map<Item, Cell>)
    reads items`id, items`count, items`attrs
  {
    cell.Keys == items && forall i {:trigger cell[i]} :: i in items ==> cell[i] == i.CellOf()
  }

  ghost predicate MirrorsTotals(items: set<Item>, total: map<Item, nat>)
    reads items`totalWeight
  {
    total.Keys == items && forall i {:trigger total[i]} :: i in items ==> total[i] == i.totalWeight
  }

  ghost predicate MirrorsOwn(types: Types, cell: map<Item, Cell>, own: map<Item, nat>)
  {
    own.Keys == cell.Keys && forall i {:trigger own[i]} :: i in cell ==> own[i] == OwnWeight(types, cell[i])
  }

  lemma MirrorsOwnUpdate(types: Types, cell: map<Item, Cell>, own: map<Item, nat>, x: Item, c: Cell)
    requires MirrorsOwn(types, cell, own)
    ensures MirrorsOwn(types, cell[x := c], own[x := OwnWeight(types, c)])
  {
    hide OwnWeight;
  }

  lemma NewMirrored(items: set<Item>, heap: State, cell: map<Item, Cell>, total: map<Item, nat>, x: Item)
    requires MirrorsShape(items, heap) && MirrorsCells(items, cell) && MirrorsTotals(items, total) && x !in items
    requires x.parent == null && x.itemlist == [] && x.totalWeight == 0
    ensures x !in heap.parent
    ensures MirrorsShape(items + {x}, WithNew(heap, x))
    ensures MirrorsCells(items + {x}, cell[x := x.CellOf()])
    ensures MirrorsTotals(items + {x}, total[x := 0])
  {
  }

  class World {
    const types: Types
    ghost var items: set<Item>
    ghost var heap: State
    ghost var cell: map<Item, Cell>
    ghost var own: map<Item, nat>
    ghost var total: map<Item, nat>

    /** A world begins empty; items enter it through `Adopt` and the operations that make items. */
    constructor (types: Types)
      ensures Valid() && items == {} && this.types == types
    {
      this.types := types;
      items, heap, cell, own, total := {}, State(map[], map[], map[]), map[], map[], map[];
    }

    /** The ghost value is the heap's value. */
    ghost predicate Linked()
      reads this, items
    {
      ShapeLinked() && CellsLinked() && OwnLinked() && TotalLinked()
    }

    ghost predicate ShapeLinked()
      reads this`items, this`heap, items`parent, items`itemlist
    {
      MirrorsShape(items, heap)
    }

    ghost predicate CellsLinked()
      reads this`items, this`cell, items`id, items`count, items`attrs
    {
      MirrorsCells(items, cell)
    }

    ghost predicate OwnLinked()
      reads this`cell, this`own
    {
      MirrorsOwn(types, cell, own)
    }

    ghost predicate TotalLinked()
      reads this`items, this`total, items`totalWeight
    {
      MirrorsTotals(items, total)
    }

    lemma LinkKeys()
      requires Linked()
      ensures heap.parent.Keys == heap.list.Keys == cell.Keys == items
    {
    }

    /** What the links say about one item. */
    lemma LinkAt(i: Item)
      requires Linked() && i in heap.parent
      ensures i in items && i in heap.list && i in cell && i in own && i in total
      ensures heap.parent[i] == i.parent && heap.list[i] == i.itemlist
      ensures cell[i] == i.CellOf() && own[i] == OwnWeight(types, i.CellOf()) && total[i] == i.totalWeight
      ensures i.GetWeight(this) == Weight(own, total, i)
    {
      hide Wrap, OwnWeight;
    }

    /** Takes a freshly made item into the world. */
    ghost method Adopt(x: Item)
      requires Valid() && x !in items
      requires x.parent == null && x.itemlist == [] && x.totalWeight == 0
      modifies `items, `heap, `cell, `own, `total
      ensures Valid()
      ensures items == old(items) + {x} && x !in old(heap).parent
      ensures heap == WithNew(old(heap), x) && cell == old(cell)[x := x.CellOf()]
    {
      hide Forest, Ledger, OwnWeight, WithNew, MirrorsShape, MirrorsCells, MirrorsOwn, MirrorsTotals;
      NewMirrored(items, heap, cell, total, x);
      NewKeepsLedger(heap, own, total, x, OwnWeight(types, x.CellOf()));
      MirrorsOwnUpdate(types, cell, own, x, x.CellOf());
      items, heap := items + {x}, WithNew(heap, x);
      cell, own, total := cell[x := x.CellOf()], own[x := OwnWeight(types, x.CellOf())], total[x := 0];
    }

    /** The invariant of every run: containment is a forest and every cache is exact. */
    ghost predicate Valid()
      reads this, items
    {
      Linked() && Forest(heap) && Ledger(heap, own, total)
    }
  }

  /** Attaching an item and pushing its weight keeps the ledger. */
  lemma {:induction false} AttachKeepsLedger(
      s: State, own: map<Item, nat>, total: map<Item, nat>, c: Item, x: Item, k: nat)
    requires CanAttach(s, c, x) && Ledger(s, own, total) && k <= |s.list[c]|
    ensures x in s.rank && c in s.list && Climbing(Attached(s, c, x, k))
    ensures var t := Attached(s, c, x, k);
            Forest(t) && Ledger(t, own, Pushed(t, total, c, Weight(own, total, x)))
  {
    var t, d := Attached(s, c, x, k), Weight(own, total, x);
    AttachKeepsForest(s, c, x, k);
    AttachBalances(s, t, own, total, c, x, k);
    LedgerRestored(s, t, own, own, total, c, d);
  }

  lemma {:induction false} AttachBalances(
      s: State, t: State, own: map<Item, nat>, total: map<Item, nat>, c: Item, x: Item, k: nat)
    requires Forest(s) && Ledger(s, own, total)
    requires c in s.parent && x in s.parent && x !in Ancestry(s, c) && k <= |s.list[c]|
    requires Ancestry(t, c) == Ancestry(s, c) && c in t.list && t.list[c] == Insert(s.list[c], k, x)
    ensures Balanced(t, own, Pushed(t, total, c, Weight(own, total, x)), c)
  {
    hide Wrap, Ancestry;
    var d := Weight(own, total, x);
    var total' := Pushed(t, total, c, d);
    ContentsUnmoved(s, t, own, total, c, d);
    assert Balanced(s, own, total, c);
    WeightsInsert(own, total', s.list[c], k, x);
    PushedAtStart(t, total, c, d);
    WrapAdd(Sum(Weights(own, total, s.list[c])), d);
  }

  lemma {:induction false} WeightsInsert(own: map<Item, nat>, total: map<Item, nat>, list: seq<Item>, k: nat, x: Item)
    requires k <= |list|
    ensures Sum(Weights(own, total, Insert(list, k, x))) == Sum(Weights(own, total, list)) + Weight(own, total, x)
  {
    SumInsert(Weights(own, total, list), k, Weight(own, total, x));
    assert Weights(own, total, Insert(list, k, x)) == Insert(Weights(own, total, list), k, Weight(own, total, x));
  }

  lemma {:induction false} WeightsRemove(own: map<Item, nat>, total: map<Item, nat>, list: seq<Item>, k: nat)
    requires k < |list|
    ensures Sum(Weights(own, total, Remove(list, k))) == Sum(Weights(own, total, list)) - Weight(own, total, list[k])
  {
    SumRemove(Weights(own, total, list), k);
    assert Weights(own, total, Remove(list, k)) == Remove(Weights(own, total, list), k);
  }

  lemma {:induction false} PushedAtStart(t: State, total: map<Item, nat>, c: Item, d: int)
    requires c in total
    ensures At(Pushed(t, total, c, d), c) == Wrap(At(total, c) + d)
  {
  }

  /** A push from `c` in `t` leaves the contents `c` had in `s` alone. */
  lemma {:induction false} ContentsUnmoved(
      s: State, t: State, own: map<Item, nat>, total: map<Item, nat>, c: Item, d: int)
    requires Forest(s) && c in s.parent && Ancestry(t, c) == Ancestry(s, c)
    ensures Weights(own, Pushed(t, total, c, d), s.list[c]) == Weights(own, total, s.list[c])
  {
    AncestryClosed(s, c);
    forall k | 0 <= k < |s.list[c]|
      ensures Weight(own, Pushed(t, total, c, d), s.list[c][k]) == Weight(own, total, s.list[c][k])
    {
      var j := s.list[c][k];
      assert j in s.list[c] && s.parent[j] == c;
    }
  }

  /** Taking an item out and pushing its weight away keeps the ledger. */
  lemma {:induction false} DetachKeepsLedger(
      s: State, own: map<Item, nat>, total: map<Item, nat>, c: Item, k: nat)
    requires Forest(s) && Ledger(s, own, total) && c in s.parent && c.isContainer && k < |s.list[c]|
    ensures c in s.list && Climbing(s)
    ensures var t, d := Detached(s, c, k), 0 - Weight(own, total, s.list[c][k]);
            Forest(t) && Ledger(t, own, Pushed(t, total, c, d)) && Pushed(t, total, c, d) == Pushed(s, total, c, d)
  {
    var t, d := Detached(s, c, k), 0 - Weight(own, total, s.list[c][k]);
    DetachKeepsForest(s, c, k);
    assert s.list[c][k] in s.list[c];
    DetachBalances(s, t, own, total, c, k);
    LedgerRestored(s, t, own, own, total, c, d);
  }

  lemma {:induction false} DetachBalances(
      s: State, t: State, own: map<Item, nat>, total: map<Item, nat>, c: Item, k: nat)
    requires Forest(s) && Ledger(s, own, total) && c in s.parent && k < |s.list[c]|
    requires Ancestry(t, c) == Ancestry(s, c) && c in t.list && t.list[c] == Remove(s.list[c], k)
    ensures Balanced(t, own, Pushed(t, total, c, 0 - Weight(own, total, s.list[c][k])), c)
  {
    hide Wrap, Ancestry;
    var x := s.list[c][k];
    var d := 0 - Weight(own, total, x);
    var total' := Pushed(t, total, c, d);
    ContentsUnmoved(s, t, own, total, c, d);
    assert Weights(own, total', s.list[c])[k] == Weights(own, total, s.list[c])[k];
    assert Balanced(s, own, total, c);
    WeightsRemove(own, total', s.list[c], k);
    PushedAtStart(t, total, c, d);
    WrapAdd(Sum(Weights(own, total, s.list[c])), d);
  }

  /** Changing the data of one item and pushing the difference keeps the ledger. */
  lemma {:induction false} EditKeepsLedger(
      s: State, own: map<Item, nat>, own': map<Item, nat>, total: map<Item, nat>, c: Item, k: nat)
    requires Forest(s) && Ledger(s, own, total) && c in s.parent && c.isContainer && k < |s.list[c]|
    requires own'.Keys == own.Keys && forall i <- own :: i != s.list[c][k] ==> own'[i] == own[i]
    ensures c in s.list && Climbing(s)
    ensures var x := s.list[c][k];
            Ledger(s, own', Pushed(s, total, c, Weight(own', total, x) - Weight(own, total, x)))
  {
    var x := s.list[c][k];
    assert x in s.list[c] && s.parent[x] == c;
    EditBalances(s, own, own', total, c, k);
    LedgerRestored(s, s, own, own', total, c, Weight(own', total, x) - Weight(own, total, x));
  }

  lemma {:induction false} EditBalances(
      s: State, own: map<Item, nat>, own': map<Item, nat>, total: map<Item, nat>, c: Item, k: nat)
    requires Forest(s) && Ledger(s, own, total) && c in s.parent && k < |s.list[c]|
    requires own'.Keys == own.Keys && forall i <- own :: i != s.list[c][k] ==> own'[i] == own[i]
    ensures var x := s.list[c][k];
            Balanced(s, own', Pushed(s, total, c, Weight(own', total, x) - Weight(own, total, x)), c)
  {
    hide Wrap, Ancestry;
    var x := s.list[c][k];
    var d := Weight(own', total, x) - Weight(own, total, x);
    var was := Weights(own, total, s.list[c]);
    ContentsUnmoved(s, s, own', total, c, d);
    assert Distinct(s.list[c]);
    assert Weights(own', total, s.list[c]) == was[k := Weight(own', total, x)];
    assert Balanced(s, own, total, c);
    SumUpdate(was, k, Weight(own', total, x));
    PushedAtStart(s, total, c, d);
    WrapAdd(Sum(was), d);
  }

  /** Replacing the content at `k` by a detached item, before and after the old one lets go. */
  ghost function Halfway(s: State, c: Item, x: Item, k: nat): State
    requires x in s.rank && c in s.list && k < |s.list[c]|
  {
    State(s.parent[x := c], s.list[c := s.list[c][k := x]], Attached(s, c, x, k).rank)
  }

  ghost function Replaced(s: State, c: Item, x: Item, k: nat): State
    requires x in s.rank && c in s.list && k < |s.list[c]|
  {
    var mid := Halfway(s, c, x, k);
    mid.(parent := mid.parent[s.list[c][k] := null])
  }

  lemma {:induction false} ReplaceIsDetachAttach(s: State, c: Item, x: Item, k: nat)
    requires CanAttach(s, c, x) && k < |s.list[c]|
    ensures var y := s.list[c][k]; y in s.parent && y != x && s.parent[y] == c
    ensures x in s.rank && c in s.list
    ensures CanAttach(Detached(s, c, k), c, x) && x !in Ancestry(Detached(s, c, k), c)
    ensures k <= |Detached(s, c, k).list[c]| && c.isContainer
    ensures Replaced(s, c, x, k) == Attached(Detached(s, c, k), c, x, k)
  {
    var y := s.list[c][k];
    assert y in s.list[c] && s.parent[y] == c;
    DetachKeepsForest(s, c, k);
    assert Insert(Remove(s.list[c], k), k, x) == s.list[c][k := x];
    var t, u := Replaced(s, c, x, k), Attached(Detached(s, c, k), c, x, k);
    assert t.parent == u.parent;
    assert t.list == u.list;
    assert t.rank == u.rank;
  }

  lemma {:induction false} ReplaceKeepsLedger(
      s: State, own: map<Item, nat>, total: map<Item, nat>, c: Item, x: Item, k: nat)
    requires CanAttach(s, c, x) && Ledger(s, own, total) && k < |s.list[c]|
    ensures x in s.rank && c in s.list && s.list[c][k] in s.parent && s.list[c][k] != x
    ensures Climbing(Halfway(s, c, x, k)) && Forest(Replaced(s, c, x, k))
    ensures var d := Weight(own, total, x) - Weight(own, total, s.list[c][k]);
            Ledger(Replaced(s, c, x, k), own, Pushed(Halfway(s, c, x, k), total, c, d))
  {
    hide Forest, Climbing, Ledger, Wrap, Weight, Pushed, Ancestry;
    ReplaceIsDetachAttach(s, c, x, k);
    var s1, t, mid := Detached(s, c, k), Replaced(s, c, x, k), Halfway(s, c, x, k);
    var d1, d2 := 0 - Weight(own, total, s.list[c][k]), Weight(own, total, x);
    DetachKeepsLedger(s, own, total, c, k);
    var total1 := Pushed(s1, total, c, d1);
    DetachKeepsForest(s, c, k);
    WeightOffChain(s1, own, total, c, d1, x);
    AttachKeepsLedger(s1, own, total1, c, x, k);
    AttachKeepsForest(s1, c, x, k);
    HalfwayClimbs(s, c, x, k);
    PushedTwice(s1, t, mid, total, c, d1, d2);
  }

  lemma {:induction false} WeightOffChain(
      s: State, own: map<Item, nat>, total: map<Item, nat>, c: Item, d: int, x: Item)
    requires x !in Ancestry(s, c)
    ensures Weight(own, Pushed(s, total, c, d), x) == Weight(own, total, x)
  {
  }

  lemma {:induction false} HalfwayClimbs(s: State, c: Item, x: Item, k: nat)
    requires CanAttach(s, c, x) && k < |s.list[c]| && Forest(Replaced(s, c, x, k))
    requires Ancestry(Replaced(s, c, x, k), c) == Ancestry(s, c)
    ensures Climbing(Halfway(s, c, x, k))
    ensures Ancestry(Halfway(s, c, x, k), c) == Ancestry(s, c)
  {
    var y, t, mid := s.list[c][k], Replaced(s, c, x, k), Halfway(s, c, x, k);
    assert y in s.list[c] && s.parent[y] == c;
    AncestryClosed(s, c);
    forall i | i in mid.parent && mid.parent[i] != null
      ensures mid.parent[i] in mid.parent && mid.parent[i].isContainer && mid.rank[i] < mid.rank[mid.parent[i]]
    {
      assert i != y ==> t.parent[i] == mid.parent[i];
    }
    AncestryKept(t, mid, c);
  }

  lemma {:induction false} PushedTwice(
      s1: State, t: State, mid: State, total: map<Item, nat>, c: Item, d1: int, d2: int)
    requires Ancestry(s1, c) == Ancestry(t, c) == Ancestry(mid, c)
    ensures Pushed(t, Pushed(s1, total, c, d1), c, d2) == Pushed(mid, total, c, d2 + d1)
  {
    hide Wrap, Ancestry;
    forall i <- total ensures Wrap(Wrap(total[i] + d1) + d2) == Wrap(total[i] + (d2 + d1)) {
      WrapAdd(total[i] + d1, d2);
    }
  }

  ghost function WithNew(s: State, x: Item): State
  {
    State(s.parent[x := null], s.list[x := []], s.rank[x := 0])
  }

  lemma {:induction false} NewKeepsLedger(s: State, own: map<Item, nat>, total: map<Item, nat>, x: Item, d: nat)
    requires Forest(s) && Ledger(s, own, total) && x !in s.parent
    ensures Forest(WithNew(s, x)) && Ledger(WithNew(s, x), own[x := d], total[x := 0])
  {
    hide Climbing, UpLinked;
    var t, own', total' := WithNew(s, x), own[x := d], total[x := 0];
    ForestClimbs(s);
    NewKeepsForest(s, x);
    forall i | i in t.list ensures Balanced(t, own', total', i) {
      if i != x {
        assert Balanced(s, own, total, i);
        assert forall j <- s.list[i] :: j in s.parent;
        assert Weights(own', total', t.list[i]) == Weights(own, total, s.list[i]);
      }
    }
  }

  lemma {:induction false} NewKeepsForest(s: State, x: Item)
    requires Forest(s) && x !in s.parent
    ensures Forest(WithNew(s, x))
  {
    var t := WithNew(s, x);
    assert SameKeys(t);
    assert Climbing(t);
    forall i, j | i in t.parent && j in t.list[i] ensures j in t.parent && t.parent[j] == i {
      assert j in s.list[i];
    }
    forall i | i in t.parent ensures Distinct(t.list[i]) {
      assert i != x ==> Distinct(s.list[i]);
    }
  }
}
