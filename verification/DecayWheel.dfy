/**
 The decay timing wheel (server/src/game.cpp): four buckets visited in turn, one every 250 ms.
 It is proved to be a faster form of a plain countdown: every item on it decays after exactly
 the number of ticks that its bucket and duration say, whatever else is on the wheel.
 */
module DecayWheel {
  import opened Containment

  const EVENT_DECAYINTERVAL: nat := 250
  const EVENT_DECAY_BUCKETS: nat := 4
  const ROUND: nat := 1000

  type Id = nat

  /** Ticks until bucket `b` is visited next, when `last` was visited last. */
  function Wait(b: nat, last: nat): (k: nat)
    ensures 1 <= k <= 4
  {
    (b + 3 + (4 - last % 4)) % 4 + 1
  }

  /** Ticks from an item's next visit to its decay, for a duration `d`. */
  function Extra(d: nat): nat
  {
    if d <= ROUND then 0
    else if d - ROUND < ROUND then (d - ROUND + EVENT_DECAYINTERVAL / 2) / 1000
    else 4 + Extra(d - ROUND)
  }

  function Due(b: nat, last: nat, d: nat): nat
  {
    Wait(b, last) + Extra(d)
  }

  /** The bucket cleanup files a duration in. */
  function Filed(d: nat, last: nat): nat
  {
    if d >= ROUND then last else (last + 1 + d / 1000) % EVENT_DECAY_BUCKETS
  }

  /** Ticks from filing to decay. */
  function Ticks(d: nat): nat
  {
    if d < ROUND then 1 else 4 * (d / 1000) + if d % 1000 >= 875 then 1 else 0
  }

  lemma {:induction false} ExtraIs(d: nat)
    requires d >= ROUND
    ensures Extra(d) == Ticks(d) - 4
  {
    if d >= 2 * ROUND {
      ExtraIs(d - ROUND);
      assert d / 1000 == (d - ROUND) / 1000 + 1 && d % 1000 == (d - ROUND) % 1000;
    }
  }

  /** An item filed with duration `d` is due in exactly `Ticks(d)` ticks. */
  lemma FiledIsDue(d: nat, last: nat)
    requires last < 4
    ensures Filed(d, last) < 4 && Due(Filed(d, last), last, d) == Ticks(d)
  {
    if d >= ROUND {
      ExtraIs(d);
    }
  }

  /** Never late and less than 875 ms early from a second on; below that, late only under 250 ms. */
  lemma Punctual(d: nat)
    ensures d >= ROUND ==> EVENT_DECAYINTERVAL * Ticks(d) <= d < EVENT_DECAYINTERVAL * Ticks(d) + 875
    ensures d < ROUND ==> (EVENT_DECAYINTERVAL * Ticks(d) <= d <==> d >= EVENT_DECAYINTERVAL)
  {
    assert d == 1000 * (d / 1000) + d % 1000;
  }

  ghost predicate NoRepeats(s: seq<Id>)
  {
    forall j, k | 0 <= j < k < |s| :: s[j] != s[k]
  }

  lemma {:induction false} RemoveKeeps(s: seq<Id>, k: nat)
    requires k < |s| && NoRepeats(s)
    ensures NoRepeats(Remove(s, k))
    ensures forall i :: i in Remove(s, k) <==> i in s && i != s[k]
  {
    var r := Remove(s, k);
    forall i | i in s && i != s[k] ensures i in r {
      var j :| 0 <= j < |s| && s[j] == i;
      assert r[if j < k then j else j - 1] == i;
    }
  }

  /** The place of an item waiting to be filed; buckets are places 0 to 3. */
  const QUEUED: nat := 4

  /** Every item is in the list of its place, once, and in no other. */
  ghost predicate Placed(lists: seq<seq<Id>>, home: map<Id, nat>)
  {
    && |lists| == 5
    && (forall b {:trigger lists[b]} | 0 <= b < 5 ::
          NoRepeats(lists[b]) && forall i :: i in lists[b] <==> i in home && home[i] == b)
    && forall i <- home :: home[i] < 5
  }

  lemma Take(lists: seq<seq<Id>>, home: map<Id, nat>, b: nat, k: nat)
    requires Placed(lists, home) && b < 5 && k < |lists[b]|
    ensures lists[b][k] in home && home[lists[b][k]] == b
    ensures Placed(lists[b := Remove(lists[b], k)], home - {lists[b][k]})
  {
    assert lists[b][k] in lists[b];
    RemoveKeeps(lists[b], k);
  }

  lemma Put(lists: seq<seq<Id>>, home: map<Id, nat>, b: nat, i: Id)
    requires Placed(lists, home) && b < 5 && i !in home
    ensures Placed(lists[b := lists[b] + [i]], home[i := b])
    ensures Placed(lists[b := [i] + lists[b]], home[i := b])
  {
    assert i !in lists[b];
  }

  /** Where one item is and how long it lasts, if it is anywhere. */
  datatype Spot = Off | On(place: nat, duration: nat)

  ghost function SpotOf(home: map<Id, nat>, duration: map<Id, nat>, i: Id): Spot
  {
    if i in home && i in duration then On(home[i], duration[i]) else Off
  }

  function Again(again: map<Id, nat>, i: Id): nat
  {
    if i in again then again[i] else 0
  }

  /** What the visit in bucket `b` leaves of an item of duration `d`. */
  ghost predicate Visited(spot: Spot, b: nat, d: nat, canDecay: bool, again: nat, decayed: bool)
  {
    && decayed == (canDecay && Extra(d) == 0)
    && if !canDecay then spot == Off
       else if decayed then spot == if again > 0 then On(QUEUED, again) else Off
       else spot.On? && spot.place < 4 && Due(spot.place, b, spot.duration) == Extra(d)
  }

  /** A visit takes a whole round off a longer duration; what is left of a shorter one picks the bucket. */
  lemma VisitMeans(d: nat, bucket: nat)
    requires bucket < 4
    ensures d <= ROUND ==> Extra(d) == 0
    ensures d >= 2 * ROUND ==> Extra(d) > 0 && Due(bucket, bucket, d - ROUND) == Extra(d)
    ensures ROUND < d < 2 * ROUND ==>
              var newBucket := (bucket + (d - ROUND + EVENT_DECAYINTERVAL / 2) / 1000) % EVENT_DECAY_BUCKETS;
              && newBucket < 4 && (Extra(d) == 0 <==> newBucket == bucket)
              && (newBucket != bucket ==> Due(newBucket, bucket, d - ROUND) == Extra(d))
  {
  }

  /** What happens on the server: a tick, the start of some item's decay, or a clearing of the queue between ticks. */
  datatype Event = Tick(canDecay: set<Id>, again: map<Id, nat>) | Start(id: Id, time: nat) | Tidy

  function TickCount(events: seq<Event>): nat
  {
    if events == [] then 0 else (if events[0].Tick? then 1 else 0) + TickCount(events[1..])
  }

  class Wheel {
    var decayItems: seq<seq<Id>>
    var toDecayItems: seq<Id>
    var lastBucket: nat
    var duration: map<Id, nat>
    var decaying: set<Id>
    ghost var home: map<Id, nat>

    constructor ()
      ensures Valid() && home == map[]
    {
      decayItems, toDecayItems, lastBucket, duration, decaying, home := [[], [], [], []], [], 0, map[], {}, map[];
    }

    ghost function Lists(): seq<seq<Id>>
      reads this
    {
      decayItems + [toDecayItems]
    }

    /** The items in state DECAYING_TRUE are those on the wheel or queued, each once and with time left. */
    ghost predicate Valid()
      reads this
    {
      && |decayItems| == 4 && lastBucket < 4 && Placed(Lists(), home) && decaying == home.Keys
      && forall i <- home :: i in duration && duration[i] > 0
    }

    /** Ticks until an item on the wheel decays. */
    ghost function Left(i: Id): nat
      requires i in home && i in duration
      reads this
    {
      Due(home[i], lastBucket, duration[i])
    }

    /** Game::startDecay for an item that can decay; one with no time left decays at once. */
    method StartDecay(i: Id, time: nat) returns (immediate: bool)
      requires Valid()
      modifies this
      ensures Valid() && lastBucket == old(lastBucket) && decayItems == old(decayItems)
      ensures immediate == (i !in old(home) && time == 0)
      ensures home == if i in old(home) || time == 0 then old(home) else old(home)[i := QUEUED]
      ensures duration == if i in old(home) || time == 0 then old(duration) else old(duration)[i := time]
    {
      hide Placed;
      immediate := false;
      if i in decaying {
        return;
      }
      if time > 0 {
        Put(Lists(), home, QUEUED, i);
        assert Lists()[QUEUED := [i] + Lists()[QUEUED]] == decayItems + [[i] + toDecayItems];
        duration := duration[i := time];
        toDecayItems := [i] + toDecayItems;
        decaying, home := decaying + {i}, home[i := QUEUED];
      } else {
        immediate := true;
      }
    }

    lemma FirstQueued()
      requires Valid() && toDecayItems != []
      ensures toDecayItems[0] in home && home[toDecayItems[0]] == QUEUED
    {
      assert Lists()[QUEUED] == toDecayItems;
      assert toDecayItems[0] in toDecayItems;
    }

    lemma NoneQueued()
      requires Valid() && toDecayItems == []
      ensures forall i <- home :: home[i] < QUEUED
    {
      assert Lists()[QUEUED] == toDecayItems;
    }

    lemma InBucket(b: nat, k: nat)
      requires Valid() && b < 4 && k < |decayItems[b]|
      ensures decayItems[b][k] in home && home[decayItems[b][k]] == b && decayItems[b][k] in duration
    {
      assert Lists()[b] == decayItems[b];
      assert decayItems[b][k] in decayItems[b];
    }

    lemma BucketHome(b: nat)
      requires Valid() && b < 4
      ensures NoRepeats(decayItems[b]) && forall i :: i in decayItems[b] <==> i in home && home[i] == b
    {
      assert Lists()[b] == decayItems[b];
    }

    /** The filing part of Game::cleanup. */
    method Cleanup()
      requires Valid()
      modifies this
      ensures Valid() && lastBucket == old(lastBucket) && duration == old(duration)
      ensures home.Keys == old(home).Keys
      ensures forall i <- home ::
                home[i] == if old(home)[i] == QUEUED then Filed(duration[i], lastBucket) else old(home)[i]
    {
      hide Placed;
      while toDecayItems != []
        invariant Valid() && lastBucket == old(lastBucket) && duration == old(duration)
        invariant home.Keys == old(home).Keys
        invariant forall i <- home :: home[i] == QUEUED || home[i] ==
                    if old(home)[i] == QUEUED then Filed(duration[i], lastBucket) else old(home)[i]
        invariant forall i <- home :: home[i] == QUEUED ==> old(home)[i] == QUEUED
        decreases |toDecayItems|
      {
        FirstQueued();
        var i := toDecayItems[0];
        var dur := duration[i];
        FileItem(if dur >= ROUND then lastBucket else (lastBucket + 1 + dur / 1000) % EVENT_DECAY_BUCKETS);
      }
      NoneQueued();
    }

    method FileItem(b: nat)
      requires Valid() && toDecayItems != [] && b < 4
      modifies `decayItems, `toDecayItems, `home
      ensures Valid() && toDecayItems == old(toDecayItems)[1..]
      ensures old(toDecayItems)[0] in old(home) && home == old(home)[old(toDecayItems)[0] := b]
    {
      hide Placed;
      FirstQueued();
      var i := toDecayItems[0];
      Take(Lists(), home, QUEUED, 0);
      ghost var lists := Lists()[QUEUED := Remove(Lists()[QUEUED], 0)];
      Put(lists, home - {i}, b, i);
      decayItems := decayItems[b := decayItems[b] + [i]];
      toDecayItems := toDecayItems[1..];
      assert Remove(old(toDecayItems), 0) == toDecayItems;
      assert lists[b := lists[b] + [i]] == Lists();
      assert (home - {i})[i := b] == home[i := b];
      home := home[i := b];
    }

    /** decayItems[bucket].erase(it) for an item that leaves the wheel. */
    method Erase(b: nat, k: nat)
      requires Valid() && b < 4 && k < |decayItems[b]|
      modifies `decayItems, `decaying, `home
      ensures Valid() && home == old(home) - {old(decayItems[b][k])}
      ensures decayItems == old(decayItems)[b := Remove(old(decayItems[b]), k)]
    {
      hide Placed;
      var i := decayItems[b][k];
      Take(Lists(), home, b, k);
      ghost var lists := Lists()[b := Remove(Lists()[b], k)];
      decayItems := decayItems[b := Remove(decayItems[b], k)];
      decaying, home := decaying - {i}, home - {i};
      assert lists == Lists();
    }

    /** decayItems[newBucket].push_back(item) for an item just erased. */
    method PushBack(b: nat, i: Id, left: nat)
      requires Valid() && b < 4 && i !in home && left > 0
      modifies `decayItems, `decaying, `home, `duration
      ensures Valid() && home == old(home)[i := b] && duration == old(duration)[i := left]
      ensures decayItems == old(decayItems)[b := old(decayItems[b]) + [i]]
    {
      hide Placed;
      Put(Lists(), home, b, i);
      ghost var lists := Lists();
      decayItems := decayItems[b := decayItems[b] + [i]];
      duration := duration[i := left];
      decaying, home := decaying + {i}, home[i := b];
      assert lists[b := lists[b] + [i]] == Lists();
    }

    /**
     The visit of one item: it is dropped, decays, moves on, or stays for another round. `again`
     is the duration it starts over with when decay turns it into something else that decays.
     */
    method VisitItem(bucket: nat, k: nat, i: Id, canDecay: bool, again: nat) returns (decayed: bool, stays: bool)
      requires Valid() && bucket == (lastBucket + 1) % 4 && k < |decayItems[bucket]| && i == decayItems[bucket][k]
      requires i in home && i in duration
      modifies this
      ensures Valid() && lastBucket == old(lastBucket)
      ensures forall j | j != i :: SpotOf(home, duration, j) == old(SpotOf(home, duration, j))
      ensures home.Keys <= old(home).Keys
      ensures Visited(SpotOf(home, duration, i), bucket, old(duration)[i], canDecay, again, decayed)
      ensures stays == (canDecay && old(duration)[i] >= 2 * ROUND)
      ensures decayItems[bucket] == if stays then old(decayItems[bucket]) else Remove(old(decayItems[bucket]), k)
    {
      hide Placed, Extra, Due;
      InBucket(bucket, k);
      VisitMeans(duration[i], bucket);
      decayed, stays := false, false;
      if !canDecay {
        Erase(bucket, k);
        return;
      }
      var left := duration[i] - if duration[i] < ROUND then duration[i] else ROUND;
      if left == 0 {
        Erase(bucket, k);
        decayed := true;
      } else if left < ROUND {
        Erase(bucket, k);
        var newBucket := (bucket + (left + EVENT_DECAYINTERVAL / 2) / 1000) % EVENT_DECAY_BUCKETS;
        if newBucket == bucket {
          decayed := true;
        } else {
          PushBack(newBucket, i, left);
        }
      } else {
        duration := duration[i := left];
        stays := true;
      }
      if decayed && again > 0 {
        var immediate := StartDecay(i, again);
      }
    }

    /** The loop of checkDecay has come to position `k`; the bucket held `visitors` when it began. */
    ghost predicate Progress(
        bucket: nat, k: nat, visitors: seq<Id>, home0: map<Id, nat>, duration0: map<Id, nat>,
        canDecay: set<Id>, again: map<Id, nat>, decayed: set<Id>)
      reads this
    {
      && |decayItems| == 4 && bucket < 4 && k <= |decayItems[bucket]|
      && home.Keys <= home0.Keys && decayed <= home0.Keys && home0.Keys <= duration0.Keys
      && (forall i <- visitors :: i in home0 && home0[i] == bucket)
      && (forall i <- decayItems[bucket][k..] :: i in visitors)
      && (forall i {:trigger SpotOf(home, duration, i)} | i in home0 ::
            if home0[i] != bucket || i in decayItems[bucket][k..] then
              SpotOf(home, duration, i) == On(home0[i], duration0[i]) && i !in decayed
            else
              Visited(SpotOf(home, duration, i), bucket, duration0[i], i in canDecay, Again(again, i), i in decayed))
    }

    method VisitNext(
        bucket: nat, k: nat, ghost visitors: seq<Id>, ghost home0: map<Id, nat>, ghost duration0: map<Id, nat>,
        canDecay: set<Id>, again: map<Id, nat>, decayed: set<Id>)
      returns (k': nat, decayed': set<Id>)
      requires Valid() && bucket == (lastBucket + 1) % 4 && k < |decayItems[bucket]|
      requires Progress(bucket, k, visitors, home0, duration0, canDecay, again, decayed)
      modifies this
      ensures Valid() && lastBucket == old(lastBucket)
      ensures Progress(bucket, k', visitors, home0, duration0, canDecay, again, decayed')
      ensures |decayItems[bucket]| - k' < |old(decayItems[bucket])| - k
    {
      hide Placed, Visited, NoRepeats, Remove, Again;
      InBucket(bucket, k);
      BucketHome(bucket);
      NextVisitor(decayItems[bucket], k);
      var i := decayItems[bucket][k];
      ghost var pending := decayItems[bucket][k..];
      assert SpotOf(home, duration, i) == On(home0[i], duration0[i]);
      var gone, stays := VisitItem(bucket, k, i, i in canDecay, Again(again, i));
      decayed' := if gone then decayed + {i} else decayed;
      k' := if stays then k + 1 else k;
      assert decayItems[bucket][k'..] == pending[1..];
      forall j | j in home0
        ensures if home0[j] != bucket || j in decayItems[bucket][k'..] then
              SpotOf(home, duration, j) == On(home0[j], duration0[j]) && j !in decayed'
            else
              Visited(SpotOf(home, duration, j), bucket, duration0[j], j in canDecay, Again(again, j), j in decayed')
      {
        if j == i {
          assert home0[j] == bucket;
          assert j !in decayItems[bucket][k'..];
        }
      }
    }

    method VisitBucket(bucket: nat, canDecay: set<Id>, again: map<Id, nat>) returns (decayed: set<Id>)
      requires Valid() && bucket == (lastBucket + 1) % 4
      modifies this
      ensures Valid() && lastBucket == old(lastBucket) && home.Keys <= old(home).Keys
      ensures forall i {:trigger SpotOf(home, duration, i)} | i in old(home) ::
                i in old(duration) &&
                if old(home)[i] == bucket then
                  Visited(SpotOf(home, duration, i), bucket, old(duration)[i], i in canDecay, Again(again, i),
                          i in decayed)
                else
                  SpotOf(home, duration, i) == On(old(home)[i], old(duration)[i]) && i !in decayed
      ensures decayed <= old(home).Keys
    {
      hide Placed, NoRepeats, Visited;
      BucketHome(bucket);
      ghost var visitors, home0, duration0 := decayItems[bucket], home, duration;
      assert visitors[0..] == visitors;
      decayed := {};
      var k: nat := 0;
      while k < |decayItems[bucket]|
        invariant Valid() && lastBucket == old(lastBucket)
        invariant Progress(bucket, k, visitors, home0, duration0, canDecay, again, decayed)
        decreases |decayItems[bucket]| - k
      {
        k, decayed := VisitNext(bucket, k, visitors, home0, duration0, canDecay, again, decayed);
      }
      assert decayItems[bucket][k..] == [];
    }

    /**
     Game::checkDecay: one tick. Every item on the wheel that can decay comes one tick nearer to
     its time, and exactly those at their last tick decay; new items are filed with their full time.
     */
    method CheckDecay(canDecay: set<Id>, again: map<Id, nat>) returns (decayed: set<Id>)
      requires Valid()
      modifies this
      ensures Valid() && lastBucket == (old(lastBucket) + 1) % 4
      ensures forall i <- decayed :: i in canDecay && i in old(home) && old(home)[i] < 4 && old(Left(i)) == 1
      ensures forall i <- canDecay :: i in old(home) && old(home)[i] < 4 ==>
                if old(Left(i)) == 1 then i in decayed else i in home && home[i] < 4 && Left(i) == old(Left(i)) - 1
      ensures forall i <- old(home) :: old(home)[i] == QUEUED ==>
                i in home && home[i] < 4 && Left(i) == Ticks(old(duration)[i])
      ensures forall i <- decayed :: i in again && again[i] > 0 ==>
                i in home && home[i] < 4 && Left(i) == Ticks(again[i])
      ensures forall i <- home :: i in old(home) && (i in decayed ==> i in again && again[i] > 0)
    {
      hide Placed, Extra, Wait, Ticks, Filed;
      var bucket := (lastBucket + 1) % EVENT_DECAY_BUCKETS;
      WaitStep(lastBucket);
      Homes();
      decayed := VisitBucket(bucket, canDecay, again);
      ghost var visited, kept := home, duration;
      lastBucket := bucket;
      Cleanup();
      forall i | i in visited
        ensures SpotOf(visited, kept, i) == On(visited[i], kept[i]) && kept[i] == duration[i]
        ensures visited[i] == QUEUED ==> home[i] < 4 && Left(i) == Ticks(kept[i])
        ensures visited[i] != QUEUED ==> home[i] == visited[i]
      {
        FiledIsDue(kept[i], lastBucket);
      }
      forall i | i in old(home) ensures i in home <==> SpotOf(visited, kept, i).On? {
      }
    }

    /**
     Any run with enough ticks, between which other items start to decay and the queue is emptied:
     an item that stays able to decay does so at its tick and not before, whatever else is on the
     wheel and whatever that turns into.
     */
    method RunUntilDecay(i: Id, events: seq<Event>) returns (when: nat)
      requires Valid() && i in home && home[i] < 4 && TickCount(events) >= Left(i)
      requires forall e <- events :: e.Tick? ==> i in e.canDecay
      modifies this
      ensures Valid() && when == old(Left(i))
    {
      hide Placed, Extra, Ticks;
      when := 0;
      var k := 0;
      while true
        invariant k <= |events| && Valid() && i in home && home[i] < 4 && Left(i) == old(Left(i)) - when
        invariant when + TickCount(events[k..]) == TickCount(events)
        decreases |events| - k
      {
        assert k < |events| && events[k] in events && events[k..][1..] == events[k + 1..];
        match events[k] {
          case Tick(canDecay, again) =>
            var decayed := CheckDecay(canDecay, again);
            when := when + 1;
            if i in decayed {
              return;
            }
          case Start(j, time) =>
            var immediate := StartDecay(j, time);
          case Tidy =>
            Cleanup();
        }
        k := k + 1;
      }
    }

    lemma Homes()
      requires Valid()
      ensures forall i <- home :: home[i] < 4 || home[i] == QUEUED
    {
    }
  }

  lemma WaitStep(last: nat)
    requires last < 4
    ensures forall b | 0 <= b < 4 :: Wait(b, last) == if b == (last + 1) % 4 then 1 else Wait(b, (last + 1) % 4) + 1
  {
  }

  lemma NextVisitor(s: seq<Id>, k: nat)
    requires NoRepeats(s) && k < |s|
    ensures s[k] in s[k..] && s[k] !in s[k..][1..] && s[k + 1..] == s[k..][1..] && Remove(s, k)[k..] == s[k..][1..]
    ensures forall i :: i in s[k..] <==> i == s[k] || i in s[k..][1..]
    ensures NoRepeats(Remove(s, k))
  {
    RemoveKeeps(s, k);
    assert s[k..] == [s[k]] + s[k..][1..];
  }
}
