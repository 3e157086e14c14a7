/**
 Damage over time (server/src/condition.cpp): how a total is spread over falling hits, and what
 a damage condition makes of that. Ratios are exact reals here, where the source rounds floats.
 */
module DamageList {
  import opened Basics
  import Containment

  function AbsReal(x: real): real
  {
    if x < 0.0 then 0.0 - x else x
  }

  /** How far the ratio of a sum to its target is from 1. */
  function Gap(sum: nat, med: nat): real
    requires med > 0
  {
    AbsReal(1.0 - sum as real / med as real)
  }

  /** The loop's own test: one more hit of `i` lands nearer to `med` than stopping here. */
  predicate Nearer(sum: nat, i: nat, med: nat)
  {
    // Dividing by a zero target gives infinities, which compare as not smaller.
    med != 0 && Gap(sum + i, med) < Gap(sum, med)
  }

  lemma {:induction false} NearerMeans(sum: nat, i: nat, med: nat)
    requires i > 0 && med > 0
    ensures Nearer(sum, i, med) <==> 2 * (med - sum) > i
  {
    hide Gap;
    RatioGap(sum, med);
    RatioGap(sum + i, med);
    var a, b := Abs(med - (sum + i)), Abs(med - sum);
    Scales(Gap(sum + i, med), Gap(sum, med), med as real, a as real, b as real);
    assert Abs(med - (sum + i)) < Abs(med - sum) <==> 2 * (med - sum) > i;
  }

  /** How far a ratio is from 1, scaled back up. */
  lemma RatioGap(s: nat, med: nat)
    requires med > 0
    ensures Gap(s, med) * med as real == Abs(med - s) as real
  {
    var m, q := med as real, s as real / med as real;
    assert q * m == s as real;
    Distribute(1.0, q, m);
    Distribute(q, 1.0, m);
    Scales(1.0, q, m, m, s as real);
  }

  lemma Distribute(x: real, y: real, m: real)
    ensures (x - y) * m == x * m - y * m
  {
  }

  lemma Scales(x: real, y: real, m: real, p: real, q: real)
    requires m > 0.0 && x * m == p && y * m == q
    ensures x < y <==> p < q
  {
    if x < y {
      Positive(y - x, m);
      Distribute(y, x, m);
    } else if y < x {
      Positive(x - y, m);
      Distribute(x, y, m);
    }
  }

  lemma Positive(x: real, m: real)
    requires x > 0.0 && m > 0.0
    ensures x * m > 0.0
  {
  }

  /** The running target after the hits of value `start` down to `start - n + 1`. */
  function Target(amount: nat, start: nat, n: nat): nat
    requires start > 0
  {
    n * amount / start
  }

  /** 1 + 2 + ... + n. */
  function Triangle(n: nat): nat
  {
    if n == 0 then 0 else n + Triangle(n - 1)
  }

  lemma {:induction false} TriangleGrows(i: nat, n: nat)
    requires i <= n
    ensures Triangle(i) <= Triangle(n)
    decreases n
  {
    if i < n {
      TriangleGrows(i, n - 1);
    }
  }

  lemma {:induction false} TriangleIs(n: nat)
    ensures 2 * Triangle(n) == n * (n + 1) && Triangle(n) == n * (n + 1) / 2
  {
    if n > 0 {
      TriangleIs(n - 1);
    }
  }

  ghost predicate Falling(list: seq<int>)
  {
    forall j, k | 0 <= j < k < |list| :: list[j] >= list[k]
  }

  /** Every value from `start` down to `low` is dealt at least once, and nothing else. */
  ghost predicate Covers(list: seq<int>, low: int, start: int)
  {
    (forall v <- list :: low <= v <= start) && forall v | low <= v <= start :: v in list
  }

  /**
   The total after the hits of value `i` cannot be brought nearer to its target by another hit,
   and all but the first of those hits brought it nearer.
   */
  ghost predicate Nearest(before: nat, after: nat, i: nat, med: nat)
  {
    && after >= before + i
    && (med > 0 ==> 2 * (med - after) <= i)
    && (after > before + i ==> 2 * (med - (after - i)) > i)
  }

  lemma SumAppend(list: seq<int>, v: int)
    ensures Containment.Sum(list + [v]) == Containment.Sum(list) + v
  {
    Containment.SumConcat(list, [v]);
    assert Containment.Sum([v]) == v;
  }

  lemma TargetBound(amount: nat, start: nat, n: nat)
    requires 0 < n <= start
    ensures Target(amount, start, n) <= amount && Target(amount, start, start) == amount
  {
    Quotient(n * amount, start, amount, n);
    Exact(amount, start);
  }

  lemma Exact(amount: nat, start: nat)
    requires start > 0
    ensures start * amount / start == amount
  {
    var q := start * amount / start;
    assert start * amount == start * q + start * amount % start;
    Apart(start, q, amount);
    Apart(start, amount, q);
  }

  lemma Apart(start: nat, x: nat, y: nat)
    ensures x > y ==> start * x >= start * y + start
  {
    if x > y {
      Times(start, y, x - y);
      Times(start, 1, x - y - 1);
    }
  }

  lemma Times(a: nat, b: nat, c: nat)
    ensures a * (b + c) == a * b + a * c && a * c >= 0
  {
  }

  lemma Quotient(m: nat, start: nat, amount: nat, n: nat)
    requires 0 < n <= start && m == n * amount
    ensures m / start <= amount
  {
    var q := m / start;
    assert m == start * q + m % start;
    Times(amount, n, start - n);
    Apart(start, q, amount);
  }

  /** The hits of one value. */
  method DealValue(list0: seq<int>, sum0: nat, i: nat, med: nat) returns (list: seq<int>, sum: nat)
    requires i > 0 && sum0 == Containment.Sum(list0) && Falling(list0) && forall v <- list0 :: v > i
    ensures sum == Containment.Sum(list) && Nearest(sum0, sum, i, med)
    ensures (sum <= sum0 + i || sum <= med + i) && (med > 0 ==> 2 * (med - sum) <= i)
    ensures Falling(list) && list0 <= list && i in list && forall v <- list[|list0|..] :: v == i
  {
    list, sum := list0 + [i], sum0 + i;
    SumAppend(list0, i);
    while Nearer(sum, i, med)
      invariant sum == Containment.Sum(list) && sum >= sum0 + i
      invariant sum > sum0 + i ==> 2 * (med - (sum - i)) > i
      invariant list0 <= list && |list| > |list0| && forall k | |list0| <= k < |list| :: list[k] == i
      decreases med - sum
    {
      NearerMeans(sum, i, med);
      SumAppend(list, i);
      sum := sum + i;
      list := list + [i];
    }
    if med > 0 {
      NearerMeans(sum, i, med);
    }
    assert list[|list0|] == i;
    forall k | 0 <= k < |list0| ensures list[k] == list0[k] && list[k] > i {
      assert list0[k] in list0;
    }
  }

  /**
   ConditionDamage::generateDamageList. Each value from `start` to 1 is dealt, in falling order;
   the total is at least the amount and exceeds it by at most 1 + 2 + ... + start.
   */
  method GenerateDamageList(amount0: int, start: int) returns (list: seq<int>, ghost totals: seq<nat>)
    ensures start <= 0 ==> list == []
    ensures start > 0 ==>
              && Falling(list) && Covers(list, 1, start)
              && Abs(amount0) <= Containment.Sum(list) <= Abs(amount0) + start * (start + 1) / 2
    ensures start > 0 ==>
              && |totals| == start + 1 && totals[0] == 0 && totals[start] == Containment.Sum(list)
              && forall n | 0 < n <= start ::
                   Nearest(totals[n - 1], totals[n], start + 1 - n, Target(Abs(amount0), start, n))
  {
    hide Target, Nearest;
    var amount := Abs(amount0);
    var sum: nat := 0;
    list, totals := [], [0];
    if start <= 0 {
      return;
    }
    var i: nat := start;
    while i > 0
      invariant i <= start && sum == Containment.Sum(list) && |totals| == start - i + 1 && totals[start - i] == sum
      invariant totals[0] == 0
      invariant Falling(list) && Covers(list, i + 1, start)
      invariant sum <= amount + Triangle(start) - Triangle(i)
      invariant i == 0 ==> sum >= amount
      invariant forall n | 0 < n <= start - i ::
                  Nearest(totals[n - 1], totals[n], start + 1 - n, Target(amount, start, n))
    {
      var n := start + 1 - i;
      var med := Target(amount, start, n);
      TargetBound(amount, start, n);
      TriangleGrows(i, start);
      ghost var list0 := list;
      list, sum := DealValue(list, sum, i, med);
      CoversMore(list0, list, i, start);
      totals := totals + [sum];
      i := i - 1;
    }
    TriangleIs(start);
  }

  lemma CoversMore(list0: seq<int>, list: seq<int>, i: nat, start: nat)
    requires i <= start && Covers(list0, i + 1, start) && list0 <= list && i in list
    requires forall v <- list[|list0|..] :: v == i
    ensures Covers(list, i, start)
  {
    assert list == list0 + list[|list0|..];
    forall v | i <= v <= start ensures v in list {
      if v > i {
        assert v in list0;
      }
    }
  }

  // ----- ConditionDamage::init, addDamage and getTotalDamage -----

  const EVENT_CREATURE_THINK_INTERVAL: int := 250

  datatype IntervalInfo = IntervalInfo(timeLeft: int, value: int, interval: int)

  function Values(infos: seq<IntervalInfo>): (r: seq<int>)
    ensures |r| == |infos|
  {
    seq(|infos|, k requires 0 <= k < |infos| => infos[k].value)
  }

  function Negated(list: seq<int>): (r: seq<int>)
    ensures |r| == |list|
  {
    seq(|list|, k requires 0 <= k < |list| => 0 - list[k])
  }

  lemma {:induction false} SumNegated(list: seq<int>)
    ensures Containment.Sum(Negated(list)) == 0 - Containment.Sum(list)
  {
    if list != [] {
      SumNegated(list[1..]);
      assert Negated(list)[1..] == Negated(list[1..]);
    }
  }

  class ConditionDamage {
    var damageList: seq<IntervalInfo>
    var ticks: int
    var periodDamage: int
    var startDamage: int
    var minDamage: int
    var maxDamage: int
    var tickInterval: int

    constructor (min: int, max: int, start: int, interval: int)
      ensures damageList == [] && ticks == 0 && periodDamage == 0
      ensures minDamage == min && maxDamage == max && startDamage == start && tickInterval == interval
    {
      damageList, ticks, periodDamage := [], 0, 0;
      minDamage, maxDamage, startDamage, tickInterval := min, max, start, interval;
    }

    function Pause(time: int): int
    {
      if time < EVENT_CREATURE_THINK_INTERVAL then EVENT_CREATURE_THINK_INTERVAL else time
    }

    method AddDamage(rounds: int, time: int, value: int) returns (added: bool)
      modifies `damageList, `ticks, `periodDamage, `tickInterval
      ensures rounds == -1 ==>
                added && periodDamage == value && tickInterval == Pause(time) && ticks == -1
                && damageList == old(damageList)
      ensures rounds != -1 ==>
                && added == (old(periodDamage) <= 0) && periodDamage == old(periodDamage)
                && tickInterval == old(tickInterval)
      ensures rounds != -1 && !added ==> damageList == old(damageList) && ticks == old(ticks)
      ensures rounds != -1 && added ==>
                && var n := if rounds < 0 then 0 else rounds;
                   damageList == old(damageList) + seq(n, k => IntervalInfo(Pause(time), value, Pause(time)))
                   && (old(ticks) >= 0 ==> ticks == old(ticks) + n * Pause(time))
    {
      var pause := Pause(time);
      if rounds == -1 {
        periodDamage := value;
        tickInterval := pause;
        ticks := -1;
        return true;
      }
      if periodDamage > 0 {
        return false;
      }
      var i := 0;
      while i < rounds
        invariant periodDamage == old(periodDamage) && tickInterval == old(tickInterval)
        invariant 0 <= i && (rounds >= 0 ==> i <= rounds) && (rounds < 0 ==> i == 0)
        invariant damageList == old(damageList) + seq(i, k => IntervalInfo(pause, value, pause))
        invariant old(ticks) >= 0 ==> ticks == old(ticks) + i * pause
      {
        damageList := damageList + [IntervalInfo(pause, value, pause)];
        if ticks != -1 {
          ticks := ticks + pause;
        }
        i := i + 1;
      }
      added := true;
    }

    /**
     ConditionDamage::init with the drawn amount. From an empty list, the hits add up to the
     amount within the bound, and the condition lasts one pause for each.
     */
    method Init(amount: int) returns (ready: bool)
      modifies this
      ensures old(periodDamage) != 0 || old(damageList) != [] ==>
                ready && damageList == old(damageList) && ticks == old(ticks) && startDamage == old(startDamage)
      ensures old(periodDamage) == 0 && old(damageList) == [] ==>
                && ready == (damageList != []) && ticks == |damageList| * Pause(tickInterval)
                && tickInterval == old(tickInterval) && (amount == 0 ==> damageList == [])
                && startDamage == (if amount != 0 && old(startDamage) > old(maxDamage) then old(maxDamage)
                                   else if amount != 0 && old(startDamage) == 0 then Twentieth(amount)
                                   else old(startDamage))
                && maxDamage == old(maxDamage)
                && (amount != 0 && startDamage > 0 ==>
                      && Abs(amount) <= 0 - Containment.Sum(Values(damageList))
                      && 0 - Containment.Sum(Values(damageList)) <= Abs(amount) + startDamage * (startDamage + 1) / 2
                      && Covers(Negated(Values(damageList)), 1, startDamage))
    {
      if periodDamage != 0 || damageList != [] {
        return true;
      }
      ticks := 0;
      if amount != 0 {
        if startDamage > maxDamage {
          startDamage := maxDamage;
        } else if startDamage == 0 {
          startDamage := Twentieth(amount);
        }
        var list;
        ghost var totals;
        list, totals := GenerateDamageList(amount, startDamage);
        AddHits(list);
        SumNegated(list);
        assert Negated(Negated(list)) == list;
      }
      ready := damageList != [];
    }

    /** One round for every value of the list. */
    method AddHits(list: seq<int>)
      requires damageList == [] && ticks == 0 && periodDamage == 0
      modifies `damageList, `ticks, `periodDamage, `tickInterval
      ensures tickInterval == old(tickInterval) && ticks == |list| * Pause(tickInterval)
      ensures |damageList| == |list| && Values(damageList) == Negated(list)
    {
      var k := 0;
      while k < |list|
        invariant k <= |list| && periodDamage == 0 && tickInterval == old(tickInterval)
        invariant ticks == k * Pause(tickInterval)
        invariant k * Pause(tickInterval) >= 0 && |damageList| == k
        invariant Values(damageList) == Negated(list[..k])
      {
        var added := AddDamage(1, tickInterval, 0 - list[k]);
        assert list[..k + 1] == list[..k] + [list[k]];
        assert Negated(list[..k + 1]) == Negated(list[..k]) + [0 - list[k]];
        k := k + 1;
      }
      assert list[..k] == list;
    }

    /** The first hit when none is given: a twentieth of the amount, rounded up, and at least 1. */
    function Twentieth(amount: int): (r: int)
      ensures r >= 1 && (amount != 0 ==> r <= Abs(amount))
      ensures amount > 0 ==> 20 * (r - 1) < amount <= 20 * r
      ensures amount <= 0 ==> r == 1
    {
      if amount <= 0 then 1 else (amount + 19) / 20
    }

    /** ConditionDamage::getTotalDamage. */
    method GetTotalDamage() returns (result: nat)
      ensures damageList != [] ==> result == Abs(Containment.Sum(Values(damageList)))
      ensures damageList == [] ==> result == Abs(minDamage + Half(maxDamage - minDamage))
    {
      var total := 0;
      if damageList != [] {
        var k := 0;
        while k < |damageList|
          invariant k <= |damageList| && total == Containment.Sum(Values(damageList)[..k])
        {
          assert Values(damageList)[..k + 1] == Values(damageList)[..k] + [damageList[k].value];
          SumAppend(Values(damageList)[..k], damageList[k].value);
          total := total + damageList[k].value;
          k := k + 1;
        }
        assert Values(damageList)[..k] == Values(damageList);
      } else {
        total := minDamage + Half(maxDamage - minDamage);
      }
      result := Abs(total);
    }

    /** Halving that truncates toward zero. */
    function Half(n: int): (r: int)
      ensures n >= 0 ==> 2 * r <= n <= 2 * r + 1
      ensures n < 0 ==> 2 * r - 1 <= n <= 2 * r
    {
      if n >= 0 then n / 2 else 0 - (0 - n) / 2
    }
  }
}
