/**
 The player trade protocol (server/src/game.cpp): requests, counter-offers, acceptance and
 closing, over the items players currently offer. The containment of items stays as it is while
 offers stand.
 */
module Trade {
  import opened Containment
  import opened Iteration

  datatype TradeState = TRADE_NONE | TRADE_INITIATED | TRADE_ACCEPT | TRADE_ACKNOWLEDGE | TRADE_TRANSFER

  /** What one player has on the table. */
  datatype Desk = Desk(item: Item?, partner: Player?, state: TradeState)

  const CLEAR: Desk := Desk(null, null, TRADE_NONE)

  class Player {
    var tradeItem: Item?
    var tradePartner: Player?
    var tradeState: TradeState

    constructor ()
      ensures DeskOf() == CLEAR
    {
      tradeItem, tradePartner, tradeState := null, null, TRADE_NONE;
    }

    function DeskOf(): Desk
      reads this
    {
      Desk(tradeItem, tradePartner, tradeState)
    }
  }

  /** One entry of the map from offered items to their owners. */
  datatype Offer = Offer(item: Item, owner: Player)

  type Book = map<Player, Desk>

  /** Partners have each other, nobody trades alone, and at least one of the two offers something. */
  ghost predicate Paired(book: Book, p: Player)
    requires p in book
  {
    && book[p].state != TRADE_TRANSFER
    && (book[p].state == TRADE_NONE <==> book[p].partner == null)
    && (book[p].partner != null ==>
          && book[p].partner in book && book[p].partner != p && book[book[p].partner].partner == p
          && (book[p].item == null ==> book[book[p].partner].item != null))
  }

  ghost predicate Offering(book: Book, offers: seq<Offer>, p: Player)
    requires p in book
  {
    && (book[p].state == TRADE_NONE || book[p].state == TRADE_ACKNOWLEDGE ==> book[p].item == null)
    && (book[p].state == TRADE_INITIATED ==> book[p].item != null)
    && (book[p].item != null ==> Offer(book[p].item, p) in offers)
  }

  ghost predicate OneEach(offers: seq<Offer>)
  {
    forall j, k | 0 <= j < k < |offers| :: offers[j].item != offers[k].item
  }

  /** The list holds exactly the offered items, each once, and no offered item is inside another. */
  ghost predicate Listed(s: State, book: Book, offers: seq<Offer>)
  {
    && OneEach(offers)
    && (forall o <- offers :: o.owner in book && book[o.owner].item == o.item && o.item in s.parent)
    && forall o <- offers, p <- offers :: !Below(s, o.item, p.item)
  }

  ghost predicate Sound(s: State, book: Book, offers: seq<Offer>)
  {
    Listed(s, book, offers) && forall p <- book :: Paired(book, p) && Offering(book, offers, p)
  }

  /** What soundness says of a player and a partner. */
  lemma BothSides(s: State, book: Book, offers: seq<Offer>, p: Player)
    requires Sound(s, book, offers) && p in book
    ensures book[p].state != TRADE_TRANSFER && (book[p].state == TRADE_NONE <==> book[p].partner == null)
    ensures book[p].partner != null ==>
              && book[p].partner in book && book[p].partner != p
              && book[book[p].partner].state != TRADE_TRANSFER && book[book[p].partner].partner == p
  {
    hide Below, Listed;
    assert Paired(book, p);
    if book[p].partner != null {
      assert Paired(book, book[p].partner);
    }
  }

  /** The item is not offered, nor inside an offer, nor around one. */
  ghost predicate Free(s: State, offers: seq<Offer>, item: Item)
  {
    forall o <- offers :: o.item != item && !Below(s, item, o.item) && !Below(s, o.item, item)
  }

  function Acknowledged(d: Desk, p: Player): Desk
  {
    Desk(d.item, p, if d.state == TRADE_NONE then TRADE_ACKNOWLEDGE else d.state)
  }

  function Started(book: Book, p: Player, q: Player, item: Item): Book
    requires q in book
  {
    book[p := Desk(item, q, TRADE_INITIATED)][q := Acknowledged(book[q], p)]
  }

  /** When internalStartTrade goes ahead. */
  predicate MayStart(book: Book, p: Player, q: Player)
    requires p in book && q in book
  {
    && (book[p].state == TRADE_NONE || (book[p].state == TRADE_ACKNOWLEDGE && book[p].partner == q))
    && (book[q].state == TRADE_NONE || book[q].partner == p)
  }

  lemma {:induction false} StartKeeps(s: State, book: Book, offers: seq<Offer>, p: Player, q: Player, item: Item)
    requires Sound(s, book, offers) && p in book && q in book && p != q && item in s.parent
    requires MayStart(book, p, q) && Free(s, offers, item)
    ensures Sound(s, Started(book, p, q, item), offers + [Offer(item, p)])
  {
    hide Below;
    var book', offers' := Started(book, p, q, item), offers + [Offer(item, p)];
    assert Paired(book, p) && Paired(book, q);
    assert Offering(book, offers, p) && Offering(book, offers, q);
    assert Offer(item, p) in offers';
    forall o | o in offers ensures o in offers' && o.owner != p {
    }
    forall r | r in book' ensures Paired(book', r) && Offering(book', offers', r) {
      assert Paired(book, r) && Offering(book, offers, r);
    }
    NotBelowItself(s, item);
  }

  lemma NotBelowItself(s: State, i: Item)
    ensures !Below(s, i, i)
  {
  }

  lemma {:induction false} AgreeKeeps(s: State, book: Book, offers: seq<Offer>, p: Player)
    requires Sound(s, book, offers) && p in book && book[p].partner != null
    ensures Sound(s, book[p := book[p].(state := TRADE_ACCEPT)], offers)
  {
    hide Below;
    var book' := book[p := book[p].(state := TRADE_ACCEPT)];
    forall r | r in book' ensures Paired(book', r) && Offering(book', offers, r) {
      assert Paired(book, r) && Offering(book, offers, r);
    }
  }

  lemma {:induction false} EnterKeeps(s: State, book: Book, offers: seq<Offer>, p: Player)
    requires Sound(s, book, offers) && p !in book
    ensures Sound(s, book[p := CLEAR], offers)
  {
    hide Below;
    forall r | r in book ensures Paired(book[p := CLEAR], r) && Offering(book[p := CLEAR], offers, r) {
      assert Paired(book, r) && Offering(book, offers, r);
    }
  }

  /** What taking an item out of the list of offers leaves. */
  ghost predicate Erased(was: seq<Offer>, now: seq<Offer>, item: Item?)
  {
    && (forall o <- now :: o in was && o.item != item)
    && (forall o <- was :: o.item != item ==> o in now)
    && (OneEach(was) ==> OneEach(now))
  }

  lemma {:induction false} ErasedNext(was: seq<Offer>, now: seq<Offer>, item: Item?, o: Offer)
    requires Erased(was, now, item)
    ensures Erased(was + [o], if o.item != item then now + [o] else now, item)
  {
    if OneEach(was + [o]) {
      forall j | 0 <= j < |was| ensures was[j].item != o.item {
        assert (was + [o])[j] == was[j] && (was + [o])[|was|] == o;
      }
      assert OneEach(was) by {
        forall j, k | 0 <= j < k < |was| ensures was[j].item != was[k].item {
          assert (was + [o])[j] == was[j] && (was + [o])[k] == was[k];
        }
      }
    }
  }

  function Parted(book: Book, p: Player, q: Player?): Book
  {
    if q == null then book[p := CLEAR] else book[p := CLEAR][q := CLEAR]
  }

  /** The offers of everybody but the two. */
  ghost predicate Withdrawn(was: seq<Offer>, now: seq<Offer>, p: Player, q: Player?)
  {
    && (forall o <- now :: o in was && o.owner != p && o.owner != q)
    && forall o <- was :: o.owner != p && o.owner != q ==> o in now
  }

  lemma {:induction false} PartKeeps(
      s: State, book: Book, offers: seq<Offer>, mid: seq<Offer>, offers': seq<Offer>, p: Player, q: Player?)
    requires Sound(s, book, offers) && p in book && q == book[p].partner
    requires Erased(offers, mid, book[p].item)
    requires if q == null || q !in book then offers' == mid else Erased(mid, offers', book[q].item)
    ensures Sound(s, Parted(book, p, q), offers') && Withdrawn(offers, offers', p, q)
  {
    hide Below;
    var book' := Parted(book, p, q);
    assert Paired(book, p) && Offering(book, offers, p);
    if q != null {
      assert Paired(book, q) && Offering(book, offers, q);
    }
    forall o | o in offers
      ensures o.owner == p <==> o.item == book[p].item
      ensures q != null ==> (o.owner == q <==> o.item == book[q].item)
    {
      SameOffer(s, book, offers, o, p);
      if q != null {
        SameOffer(s, book, offers, o, q);
      }
    }
    assert Withdrawn(offers, offers', p, q);
    forall r | r in book' ensures Paired(book', r) && Offering(book', offers', r) {
      OthersStay(s, book, offers, offers', p, q, r);
    }
  }

  lemma OthersStay(
      s: State, book: Book, offers: seq<Offer>, offers': seq<Offer>, p: Player, q: Player?, r: Player)
    requires Sound(s, book, offers) && p in book && q == book[p].partner && r in Parted(book, p, q)
    requires Withdrawn(offers, offers', p, q)
    ensures Paired(Parted(book, p, q), r) && Offering(Parted(book, p, q), offers', r)
  {
    hide Below, Listed;
    assert Paired(book, p);
    assert r in book;
    assert Paired(book, r) && Offering(book, offers, r);
  }

  lemma SameOffer(s: State, book: Book, offers: seq<Offer>, o: Offer, p: Player)
    requires Listed(s, book, offers) && o in offers && p in book && Offering(book, offers, p)
    ensures o.owner == p <==> o.item == book[p].item
  {
    hide Below;
    if o.item == book[p].item {
      var j :| 0 <= j < |offers| && offers[j] == o;
      var k :| 0 <= k < |offers| && offers[k] == Offer(book[p].item, p);
      assert j == k;
    }
  }

  /** `Faulted` is a read through an item that is missing; nothing is known after that. */
  datatype Outcome = Ignored | Agreed | Cancelled | NothingOffered | Completed(success: bool) | Faulted

  /**
   What the server finds when both have accepted: whether they still reach each other, whether
   handlers for the two trade events are registered and what the first answers, what the two wear
   as backpacks, and whether the goods can be exchanged.
   */
  datatype Scene = Scene(
    reachable: bool, acceptHandler: bool, permitted: bool, completedHandler: bool,
    playerBackpack: Item?, partnerBackpack: Item?, success: bool)

  /** A missing item is read through: by a handler, or because the other item is its owner's worn backpack. */
  predicate ReadsMissing(scene: Scene, item: Item?, partnerItem: Item?)
  {
    && (item == null || partnerItem == null)
    && (scene.acceptHandler || scene.completedHandler
        || (partnerItem != null && scene.partnerBackpack == partnerItem)
        || (item != null && scene.playerBackpack == item))
  }

  /** How a trade ends once both have accepted. */
  function Settled(scene: Scene, item: Item?, partnerItem: Item?): Outcome
  {
    if !scene.reachable then Cancelled
    else if ReadsMissing(scene, item, partnerItem) then Faulted
    else if scene.acceptHandler && !scene.permitted then Cancelled
    else if item == null || partnerItem == null then NothingOffered
    else Completed(scene.success)
  }

  lemma OneOffers(s: State, book: Book, offers: seq<Offer>, p: Player)
    requires Sound(s, book, offers) && p in book && book[p].partner != null && book[p].partner in book
    ensures book[p].item != null || book[book[p].partner].item != null
  {
    assert Paired(book, p);
  }

  /** A player is in ACCEPT exactly when it has accepted since it last made an offer. */
  ghost predicate Recorded(book: Book, accepted: set<Player>)
  {
    accepted <= book.Keys && forall p <- book :: book[p].state == TRADE_ACCEPT <==> p in accepted
  }

  lemma StartRecords(book: Book, accepted: set<Player>, p: Player, q: Player, item: Item)
    requires Recorded(book, accepted) && p in book && q in book && p != q
    ensures Recorded(Started(book, p, q, item), accepted - {p})
  {
  }

  lemma AgreeRecords(book: Book, accepted: set<Player>, p: Player)
    requires Recorded(book, accepted) && p in book
    ensures Recorded(book[p := book[p].(state := TRADE_ACCEPT)], accepted + {p})
  {
  }

  lemma EnterRecords(book: Book, accepted: set<Player>, p: Player)
    requires Recorded(book, accepted) && p !in book
    ensures Recorded(book[p := CLEAR], accepted)
  {
  }

  lemma PartRecords(book: Book, accepted: set<Player>, p: Player, q: Player?)
    requires Recorded(book, accepted) && p in book && (q != null ==> q in book)
    ensures Recorded(Parted(book, p, q), accepted - {p, q})
  {
  }

  /** Parting forgets both, whatever the state of the first was. */
  lemma PartForgets(book: Book, accepted: set<Player>, p: Player, q: Player, d: Desk)
    requires p in book && q in book && p != q && Recorded(book[p := d], accepted)
    ensures Recorded(Parted(book, p, q), accepted - {p, q})
  {
    PartRecords(book[p := d], accepted, p, q);
    assert Parted(book[p := d], p, q) == Parted(book, p, q);
  }

  lemma StateOf(book: Book, accepted: set<Player>, p: Player)
    requires Recorded(book, accepted) && p in book
    ensures book[p].state == TRADE_ACCEPT <==> p in accepted
  {
  }

  class Game {
    const w: World
    var tradeItems: seq<Offer>
    ghost var book: Book
    /** Who has called playerAcceptTrade, and been heard, since its own last offer or trade. */
    ghost var accepted: set<Player>

    /** Over any run of the methods below the book of trades stays sound, and ACCEPT means accepted. */
    ghost predicate Valid()
      reads this, book.Keys, w, w.items
    {
      w.Valid() && Linked() && Sound(w.heap, book, tradeItems) && Recorded(book, accepted)
    }

    ghost predicate Linked()
      reads this, book.Keys
    {
      forall p <- book :: book[p] == p.DeskOf()
    }

    constructor (world: World)
      requires world.Valid()
      ensures Valid() && w == world && tradeItems == [] && book == map[] && accepted == {}
    {
      w, tradeItems, book, accepted := world, [], map[], {};
    }

    /** The loop of playerRequestTrade over the offers. */
    method AlreadyTraded(tradeItem: Item) returns (traded: bool)
      requires Valid() && tradeItem in w.heap.parent
      ensures traded <==> !Free(w.heap, tradeItems, tradeItem)
    {
      hide World.Valid, Below, Paired, Offering, OneEach;
      var k := 0;
      while k < |tradeItems|
        invariant k <= |tradeItems| && Free(w.heap, tradeItems[..k], tradeItem)
      {
        var item := tradeItems[k].item;
        assert tradeItems[k] in tradeItems;
        assert tradeItems[..k + 1] == tradeItems[..k] + [tradeItems[k]];
        if tradeItem == item {
          return true;
        }
        if tradeItem.isContainer {
          var holding := IsHoldingItem(tradeItem, item, w);
          if holding {
            return true;
          }
        } else {
          NothingBelow(w, tradeItem, item);
        }
        if item.isContainer {
          var held := IsHoldingItem(item, tradeItem, w);
          if held {
            return true;
          }
        } else {
          NothingBelow(w, item, tradeItem);
        }
        k := k + 1;
      }
      assert tradeItems[..k] == tradeItems;
      traded := false;
    }

    /** playerRequestTrade after its checks of place and kind, which `allowed` stands for. */
    method RequestTrade(player: Player, tradePartner: Player, tradeItem: Item, allowed: bool) returns (started: bool)
      requires Valid() && player in book && tradePartner in book && tradeItem in w.heap.parent
      modifies this`tradeItems, this`book, this`accepted, player, tradePartner
      ensures Valid() && accepted == if started then old(accepted) - {player} else old(accepted)
      ensures started <==>
                && player != tradePartner && allowed && Free(w.heap, old(tradeItems), tradeItem)
                && (tradeItem.isContainer ==> |Contents(w.heap, tradeItem)| + 1 <= 100)
                && MayStart(old(book), player, tradePartner)
      ensures started ==>
                && book == Started(old(book), player, tradePartner, tradeItem)
                && tradeItems == old(tradeItems) + [Offer(tradeItem, player)]
      ensures !started ==> book == old(book) && tradeItems == old(tradeItems)
    {
      hide World.Valid, Below, Sound, Contents, Recorded;
      if tradePartner == player || !allowed {
        return false;
      }
      var traded := AlreadyTraded(tradeItem);
      if traded {
        return false;
      }
      if tradeItem.isContainer {
        var holding, visited := GetItemHoldingCount(tradeItem, w);
        if holding + 1 > 100 {
          return false;
        }
      }
      started := InternalStartTrade(player, tradePartner, tradeItem);
    }

    method InternalStartTrade(player: Player, tradePartner: Player, tradeItem: Item) returns (started: bool)
      requires Valid() && player in book && tradePartner in book && player != tradePartner
      requires tradeItem in w.heap.parent && Free(w.heap, tradeItems, tradeItem)
      modifies this`tradeItems, this`book, this`accepted, player, tradePartner
      ensures Valid() && started == MayStart(old(book), player, tradePartner)
      ensures accepted == if started then old(accepted) - {player} else old(accepted)
      ensures started ==>
                && book == Started(old(book), player, tradePartner, tradeItem)
                && tradeItems == old(tradeItems) + [Offer(tradeItem, player)]
      ensures !started ==> book == old(book) && tradeItems == old(tradeItems)
    {
      hide World.Valid, Free, Sound, Recorded, Contents, Below;
      if player.tradeState != TRADE_NONE
         && !(player.tradeState == TRADE_ACKNOWLEDGE && player.tradePartner == tradePartner) {
        return false;
      } else if tradePartner.tradeState != TRADE_NONE && tradePartner.tradePartner != player {
        return false;
      }
      BothSides(w.heap, book, tradeItems, tradePartner);
      StartKeeps(w.heap, book, tradeItems, player, tradePartner, tradeItem);
      StartRecords(book, accepted, player, tradePartner, tradeItem);
      tradeItems := tradeItems + [Offer(tradeItem, player)];
      accepted := accepted - {player};
      Seat(player, tradePartner, tradeItem, TRADE_INITIATED);
      if tradePartner.tradeState == TRADE_NONE {
        Seat(tradePartner, player, tradePartner.tradeItem, TRADE_ACKNOWLEDGE);
      }
      assert book == Started(old(book), player, tradePartner, tradeItem);
      started := true;
    }

    /** tradeItems.find and erase, for an item that may not be there. */
    method Erase(item: Item?)
      modifies this`tradeItems
      ensures Erased(old(tradeItems), tradeItems, item)
    {
      var kept: seq<Offer> := [];
      var k := 0;
      while k < |tradeItems|
        invariant k <= |tradeItems| && tradeItems == old(tradeItems)
        invariant Erased(tradeItems[..k], kept, item)
      {
        assert tradeItems[..k + 1] == tradeItems[..k] + [tradeItems[k]];
        ErasedNext(tradeItems[..k], kept, item, tradeItems[k]);
        if tradeItems[k].item != item {
          kept := kept + [tradeItems[k]];
        }
        k := k + 1;
      }
      assert tradeItems[..k] == tradeItems;
      tradeItems := kept;
    }

    /** The offer of a player who leaves the table. */
    method Withdraw(item: Item?)
      modifies this`tradeItems
      ensures Erased(old(tradeItems), tradeItems, item)
    {
      hide Erased;
      if item != null {
        Erase(item);
      } else {
        ErasedNull(tradeItems);
      }
    }

    lemma LinkedAt(p: Player)
      requires Linked() && p in book
      ensures book[p] == p.DeskOf()
    {
    }

    method Seat(player: Player, tradePartner: Player, tradeItem: Item?, state: TradeState)
      requires Linked() && player in book
      modifies this`book, player
      ensures Linked() && book == old(book)[player := Desk(tradeItem, tradePartner, state)]
    {
      player.tradePartner := tradePartner;
      player.tradeItem := tradeItem;
      player.tradeState := state;
      book := book[player := player.DeskOf()];
    }

    method SetTradeState(player: Player, state: TradeState)
      requires Linked() && player in book
      modifies this`book, player`tradeState
      ensures Linked() && book == old(book)[player := old(book)[player].(state := state)]
    {
      player.tradeState := state;
      book := book[player := player.DeskOf()];
    }

    method Clear(player: Player)
      requires Linked() && player in book
      modifies this`book, player
      ensures Linked() && book == old(book)[player := CLEAR]
    {
      player.tradeItem := null;
      player.tradeState := TRADE_NONE;
      player.tradePartner := null;
      book := book[player := CLEAR];
    }

    method InternalCloseTrade(player: Player)
      requires Valid() && player in book
      modifies this`tradeItems, this`book, this`accepted, player, player.tradePartner
      ensures Valid() && book == Parted(old(book), player, old(player.tradePartner))
      ensures accepted == old(accepted) - {player, old(player.tradePartner)}
      ensures Withdrawn(old(tradeItems), tradeItems, player, old(player.tradePartner))
    {
      hide World.Valid, Erased, Withdrawn, Sound, Recorded;
      var tradePartner := player.tradePartner;
      BothSides(w.heap, book, tradeItems, player);
      if (tradePartner != null && tradePartner.tradeState == TRADE_TRANSFER) || player.tradeState == TRADE_TRANSFER {
        assert false;
        return;
      }
      ghost var was, offers := book, tradeItems;
      Withdraw(player.tradeItem);
      ghost var mid := tradeItems;
      Clear(player);
      if tradePartner != null {
        Withdraw(tradePartner.tradeItem);
        Clear(tradePartner);
      }
      PartKeeps(w.heap, was, offers, mid, tradeItems, player, tradePartner);
      PartRecords(was, accepted, player, tradePartner);
      accepted := accepted - {player, tradePartner};
    }

    /** playerAcceptTrade. It reads through a missing item exactly when the goods are looked at and `ReadsMissing`. */
    method AcceptTrade(player: Player, scene: Scene) returns (outcome: Outcome)
      requires Valid() && player in book
      modifies this`tradeItems, this`book, this`accepted, player, player.tradePartner
      ensures outcome != Faulted ==> Valid()
      // who is heard, and who settles
      ensures outcome == Ignored <==> old(book)[player].partner == null || player in old(accepted)
      ensures outcome == Agreed <==> outcome != Ignored && old(player.tradePartner) !in old(accepted)
      ensures outcome == Ignored ==> accepted == old(accepted)
      ensures outcome == Agreed ==> accepted == old(accepted) + {player}
      ensures outcome != Ignored && outcome != Agreed && outcome != Faulted ==>
                accepted == old(accepted) - {player, old(player.tradePartner)}
      ensures outcome == Ignored <==>
                old(book)[player].state != TRADE_ACKNOWLEDGE && old(book)[player].state != TRADE_INITIATED
      ensures outcome == Ignored ==> book == old(book) && tradeItems == old(tradeItems)
      ensures outcome == Agreed ==>
                book == old(book)[player := old(book)[player].(state := TRADE_ACCEPT)] && tradeItems == old(tradeItems)
      ensures outcome != Ignored ==>
                && old(player.tradePartner) != null && old(player.tradePartner) in old(book)
                && (outcome == Agreed <==> old(book)[old(player.tradePartner)].state != TRADE_ACCEPT)
      ensures outcome != Ignored && outcome != Agreed ==>
                outcome == Settled(scene, old(book)[player].item, old(book)[old(player.tradePartner)].item)
      ensures outcome != Ignored && outcome != Agreed && outcome != Faulted ==>
                && book == Parted(old(book), player, old(player.tradePartner))
                && Withdrawn(old(tradeItems), tradeItems, player, old(player.tradePartner))
    {
      hide World.Valid, Erased, Withdrawn, Sound, Recorded;
      BothSides(w.heap, book, tradeItems, player);
      StateOf(book, accepted, player);
      if !(player.tradeState == TRADE_ACKNOWLEDGE || player.tradeState == TRADE_INITIATED) {
        return Ignored;
      }
      var tradePartner := player.tradePartner;
      StateOf(book, accepted, tradePartner);
      AgreeKeeps(w.heap, book, tradeItems, player);
      AgreeRecords(book, accepted, player);
      ghost var was, offers := book, tradeItems;
      SetTradeState(player, TRADE_ACCEPT);
      accepted := accepted + {player};
      if tradePartner.tradeState != TRADE_ACCEPT {
        return Agreed;
      }
      if !scene.reachable {
        InternalCloseTrade(player);
        return Cancelled;
      }
      if scene.acceptHandler {
        if player.tradeItem == null || tradePartner.tradeItem == null {
          return Faulted;
        }
        if !scene.permitted {
          InternalCloseTrade(player);
          return Cancelled;
        }
      }
      outcome := Transfer(player, tradePartner, was, scene);
    }

    /** The exchange once both have accepted. */
    method Transfer(player: Player, tradePartner: Player, ghost was: Book, scene: Scene) returns (outcome: Outcome)
      requires w.Valid() && Linked() && Sound(w.heap, was, tradeItems)
      requires player in was && was[player].partner == tradePartner && tradePartner in was && player != tradePartner
      requires book == was[player := was[player].(state := TRADE_ACCEPT)] && Recorded(book, accepted)
      requires scene.reachable
      requires scene.acceptHandler ==> scene.permitted && was[player].item != null && was[tradePartner].item != null
      modifies this`tradeItems, this`book, this`accepted, player, tradePartner
      ensures outcome == Settled(scene, was[player].item, was[tradePartner].item)
      ensures outcome != Faulted ==>
                && Valid() && book == Parted(was, player, tradePartner)
                && accepted == old(accepted) - {player, tradePartner}
                && Withdrawn(old(tradeItems), tradeItems, player, tradePartner)
    {
      hide World.Valid, Erased, Withdrawn, Sound, Linked, Parted, Recorded;
      LinkedAt(player);
      LinkedAt(tradePartner);
      OneOffers(w.heap, was, tradeItems, player);
      PartForgets(was, accepted, player, tradePartner, was[player].(state := TRADE_ACCEPT));
      ghost var offers := tradeItems;
      var playerTradeItem, partnerTradeItem := player.tradeItem, tradePartner.tradeItem;
      SetTradeState(player, TRADE_TRANSFER);
      SetTradeState(tradePartner, TRADE_TRANSFER);
      Erase(playerTradeItem);
      ghost var mid := tradeItems;
      Erase(partnerTradeItem);
      if scene.partnerBackpack == partnerTradeItem && playerTradeItem == null {
        return Faulted;
      }
      if scene.playerBackpack == playerTradeItem && partnerTradeItem == null {
        return Faulted;
      }
      if scene.completedHandler && (playerTradeItem == null || partnerTradeItem == null) {
        return Faulted;
      }
      accepted := accepted - {player, tradePartner};
      Clear(player);
      Clear(tradePartner);
      ClearedTwice(was, player, tradePartner);
      PartKeeps(w.heap, was, offers, mid, tradeItems, player, tradePartner);
      outcome :=
        if playerTradeItem == null || partnerTradeItem == null then NothingOffered else Completed(scene.success);
    }

    /** A player who enters the game trades with nobody. */
    ghost method Enter(player: Player)
      requires Valid() && player !in book && player.DeskOf() == CLEAR
      modifies this`book
      ensures Valid() && book == old(book)[player := CLEAR] && accepted == old(accepted)
    {
      hide World.Valid, Sound, Recorded;
      EnterKeeps(w.heap, book, tradeItems, player);
      EnterRecords(book, accepted, player);
      book := book[player := CLEAR];
    }
  }

  lemma ClearedTwice(book: Book, p: Player, q: Player)
    requires p in book && q in book && p != q
    ensures forall a: Desk, b: Desk, c: Desk {:trigger book[p := a][p := b][q := c]} ::
              book[p := a][p := b][q := c][p := CLEAR][q := CLEAR] == Parted(book, p, q)
  {
  }

  lemma ErasedNull(offers: seq<Offer>)
    ensures Erased(offers, offers, null)
  {
  }

  lemma NothingBelow(w: World, c: Item, i: Item)
    requires w.Valid() && c in w.heap.parent && !c.isContainer
    ensures !Below(w.heap, c, i)
  {
    if Below(w.heap, c, i) {
      AncestryClosed(w.heap, i);
    }
  }
}
