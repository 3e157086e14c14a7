/**
 Paying and change-making (server/src/game.cpp): removeMoney takes coin stacks from the cheapest
 up and breaks the last one; addMoney makes change greedily, with the source's fixed widths.
 */
module Money {
  import Containment

  const TWO_16: nat := 0x1_0000
  const TWO_32: nat := 0x1_0000_0000

  /** A stack of coins: what one coin is worth and how many there are. */
  datatype Coins = Coins(worth: nat, count: nat)

  /** The worth of `n` coins of worth `w`. */
  function Cost(n: nat, w: nat): nat
  {
    n * w
  }

  lemma CostAdd(a: nat, b: nat, w: nat)
    ensures Cost(a + b, w) == Cost(a, w) + Cost(b, w)
    ensures Cost(0, w) == 0 && Cost(1, w) == w && Cost(a, 1) == a
  {
  }

  lemma CostGrows(a: nat, b: nat, w: nat)
    requires a <= b
    ensures Cost(a, w) <= Cost(b, w)
  {
    CostAdd(a, b - a, w);
  }

  /** Whole coins and what is left over. */
  lemma CostDiv(m: nat, w: nat)
    requires w > 0
    ensures m == Cost(m / w, w) + m % w && m % w < w
  {
  }

  lemma QuotientBelow(m: nat, w: nat, b: nat)
    requires w > 0 && m < Cost(b, w)
    ensures m / w < b
  {
    hide Cost;
    CostDiv(m, w);
    if b <= m / w {
      CostGrows(b, m / w, w);
    }
  }

  /** What the stack is really worth. */
  function Value(c: Coins): nat
  {
    Cost(c.count, c.worth)
  }

  function Values(coins: seq<Coins>): (r: seq<int>)
    ensures |r| == |coins|
  {
    seq(|coins|, k requires 0 <= k < |coins| => Value(coins[k]))
  }

  function Total(coins: seq<Coins>): int
  {
    Containment.Sum(Values(coins))
  }

  /** Item::getWorth, which is 32 bits wide. */
  function GetWorth(c: Coins): nat
  {
    Value(c) % TWO_32
  }

  // ----- Game::addMoney -----

  /** The denominations: a map keyed by worth, largest first. */
  predicate Currency(worths: seq<nat>)
  {
    && (forall k | 0 <= k < |worths| :: worths[k] > 0)
    && forall j, k | 0 <= j < k < |worths| :: worths[j] > worths[k]
  }

  /** The coins of one denomination, cut to 32 bits. */
  function CoinsOf(money: nat, worth: nat): nat
    requires worth > 0
  {
    money / worth % TWO_32
  }

  lemma CoinsFit(money: nat, worth: nat)
    requires worth > 0
    ensures Cost(CoinsOf(money, worth), worth) <= money
    ensures money / worth < TWO_32 ==> money == Cost(CoinsOf(money, worth), worth) + money % worth
  {
    hide Cost;
    CostDiv(money, worth);
    CostGrows(money / worth % TWO_32, money / worth, worth);
  }

  /** What is left to change after the first `k` denominations. */
  function Left(worths: seq<nat>, money: nat, k: nat): nat
    requires Currency(worths) && k <= |worths|
  {
    if k == 0 then money
    else
      var m := Left(worths, money, k - 1);
      CoinsFit(m, worths[k - 1]);
      m - Cost(CoinsOf(m, worths[k - 1]), worths[k - 1])
  }

  lemma LeftStart(worths: seq<nat>, money: nat)
    requires Currency(worths)
    ensures Left(worths, money, 0) == money
  {
  }

  lemma LeftStep(worths: seq<nat>, money: nat, k: nat)
    requires Currency(worths) && k < |worths|
    ensures Left(worths, money, k + 1)
         == Left(worths, money, k) - Cost(CoinsOf(Left(worths, money, k), worths[k]), worths[k])
    ensures CoinsOf(Left(worths, money, k), worths[k]) == 0 ==> Left(worths, money, k + 1) == Left(worths, money, k)
  {
    hide Cost, CoinsOf;
    CostAdd(0, 0, worths[k]);
  }

  /** One turn of the inner loop, on the number of coins still to make. */
  function Turn(currencyCoins: nat): (r: nat)
    ensures r <= currencyCoins
  {
    currencyCoins - StackOf(currencyCoins)
  }

  /** The size of the next stack, cut to 16 bits before it is capped at 100. */
  function StackOf(currencyCoins: nat): nat
  {
    if currencyCoins % TWO_16 < 100 then currencyCoins % TWO_16 else 100
  }

  function Turns(currencyCoins: nat, n: nat): nat
  {
    if n == 0 then currencyCoins else Turns(Turn(currencyCoins), n - 1)
  }

  lemma {:induction false} StaysAbove(currencyCoins: nat, n: nat)
    requires currencyCoins >= TWO_16
    ensures Turns(currencyCoins, n) >= TWO_16
  {
    if n > 0 {
      StaysAbove(Turn(currencyCoins), n - 1);
    }
  }

  lemma {:induction false} RunsOut(currencyCoins: nat) returns (n: nat)
    requires currencyCoins < TWO_16
    ensures Turns(currencyCoins, n) == 0
  {
    if currencyCoins == 0 {
      n := 0;
    } else {
      n := RunsOut(Turn(currencyCoins));
      n := n + 1;
    }
  }

  /** The inner loop ends if and only if there are fewer than 65536 coins of the denomination. */
  lemma {:induction false} InnerLoopEnds(currencyCoins: nat)
    ensures (exists n :: Turns(currencyCoins, n) == 0) <==> currencyCoins < TWO_16
  {
    if currencyCoins < TWO_16 {
      var n := RunsOut(currencyCoins);
    } else {
      forall n ensures Turns(currencyCoins, n) != 0 {
        StaysAbove(currencyCoins, n);
      }
    }
  }

  /** The coins made in `n` turns: a stackable item created with count 0 is created with count 1. */
  function Minted(currencyCoins: nat, n: nat): nat
  {
    if n == 0 then 0
    else (if StackOf(currencyCoins) == 0 then 1 else StackOf(currencyCoins)) + Minted(Turn(currencyCoins), n - 1)
  }

  /** A loop that does not end makes coins without end, at least one each turn. */
  lemma {:induction false} MintsForever(currencyCoins: nat, n: nat)
    requires currencyCoins >= TWO_16
    ensures Minted(currencyCoins, n) >= n
    ensures currencyCoins % TWO_16 == 0 ==> Minted(currencyCoins, n) == n
  {
    if n > 0 {
      MintsForever(Turn(currencyCoins), n - 1);
    }
  }

  /** A loop that ends has made exactly the coins asked for. */
  lemma {:induction false} MintsExactly(currencyCoins: nat, n: nat)
    requires Turns(currencyCoins, n) == 0 && (n > 0 ==> Turns(currencyCoins, n - 1) > 0)
    ensures Minted(currencyCoins, n) == currencyCoins
  {
    if n > 0 {
      if currencyCoins >= TWO_16 {
        StaysAbove(currencyCoins, n);
      }
      assert n > 1 ==> Turns(currencyCoins, n - 1) == Turns(Turn(currencyCoins), n - 2);
      MintsExactly(Turn(currencyCoins), n - 1);
    }
  }

  /** Some denomination needs so many coins that its loop never ends. */
  ghost predicate Hangs(worths: seq<nat>, money: nat)
    requires Currency(worths)
  {
    exists k {:trigger worths[k]} | 0 <= k < |worths| :: CoinsOf(Left(worths, money, k), worths[k]) >= TWO_16
  }

  /** Stacks of a sensible size, of the given denominations. */
  ghost predicate Stacks(made: seq<Coins>, worths: seq<nat>)
  {
    forall c <- made :: 1 <= c.count <= 100 && c.worth in worths
  }

  lemma NoCoins()
    ensures Total([]) == 0
  {
  }

  lemma {:induction false} TotalIsNatural(coins: seq<Coins>)
    ensures Total(coins) >= 0
    decreases |coins|
  {
    if coins != [] {
      TotalIsNatural(coins[1..]);
      assert Values(coins)[1..] == Values(coins[1..]);
    }
  }

  lemma TotalAppend(coins: seq<Coins>, c: Coins)
    ensures Total(coins + [c]) == Total(coins) + Value(c)
  {
    Containment.SumConcat(Values(coins), [Value(c)]);
    assert Values(coins + [c]) == Values(coins) + [Value(c)];
    assert Containment.Sum([Value(c)]) == Value(c);
  }

  /** The size of the stack number `j` when `coins` are laid out in hundreds. */
  function Piece(coins: nat, j: nat): nat
  {
    if coins < 100 * j then 0 else if coins - 100 * j < 100 then coins - 100 * j else 100
  }

  /** The stacks of one denomination; `hung` when the loop would go round for ever. */
  method MakeStacks(worth: nat, coins: nat, made0: seq<Coins>) returns (hung: bool, made: seq<Coins>)
    ensures hung <==> coins >= TWO_16
    ensures !hung ==> Total(made) == Total(made0) + Cost(coins, worth)
    ensures forall c <- made :: c in made0 || (1 <= c.count <= 100 && c.worth == worth)
    // full stacks of a hundred, and then what is left
    ensures made0 <= made && (!hung ==> |made| == |made0| + (coins + 99) / 100)
    ensures !hung ==> forall k | |made0| <= k < |made| :: made[k] == Coins(worth, Piece(coins, k - |made0|))
  {
    hide Cost, Total;
    made := made0;
    var currencyCoins: nat := coins;
    CostAdd(0, 0, worth);
    while currencyCoins > 0
      invariant currencyCoins <= coins && (coins >= TWO_16 <==> currencyCoins >= TWO_16)
      invariant Total(made) == Total(made0) + Cost(coins - currencyCoins, worth)
      invariant forall c <- made :: c in made0 || (1 <= c.count <= 100 && c.worth == worth)
      invariant made0 <= made
      invariant coins < TWO_16 ==>
                  && currencyCoins == (if coins < 100 * (|made| - |made0|) then 0
                                       else coins - 100 * (|made| - |made0|))
                  && 100 * (|made| - |made0|) < coins + 100
      invariant coins < TWO_16 ==>
                  forall k | |made0| <= k < |made| :: made[k] == Coins(worth, Piece(coins, k - |made0|))
    {
      var count := StackOf(currencyCoins);
      if count == 0 {
        // From here on every turn makes one coin, and none of them is counted off.
        return true, made;
      }
      TotalAppend(made, Coins(worth, count));
      made := made + [Coins(worth, count)];
      CostAdd(coins - currencyCoins, count, worth);
      currencyCoins := currencyCoins - count;
    }
    hung := false;
  }

  /**
   Game::addMoney. What it makes and what it leaves add up to what was asked; it never returns
   if and only if some denomination needs 65536 coins or more.
   */
  method AddMoney(currencyItems: seq<nat>, amount: nat) returns (hung: bool, made: seq<Coins>)
    requires Currency(currencyItems)
    ensures hung <==> Hangs(currencyItems, amount)
    ensures !hung ==> Total(made) + Left(currencyItems, amount, |currencyItems|) == amount
    ensures Stacks(made, currencyItems) && forall c <- made :: c.worth <= amount
  {
    hide Cost, CoinsOf, Total, Left;
    NoCoins();
    LeftStart(currencyItems, amount);
    var money: nat := amount;
    made := [];
    var k := 0;
    while k < |currencyItems|
      invariant k <= |currencyItems| && money == Left(currencyItems, amount, k)
      invariant Total(made) + money == amount && Stacks(made, currencyItems)
      invariant money <= amount && forall c <- made :: c.worth <= amount
      invariant forall j {:trigger currencyItems[j]} | 0 <= j < k ::
                  CoinsOf(Left(currencyItems, amount, j), currencyItems[j]) < TWO_16
    {
      var worth := currencyItems[k];
      var currencyCoins := CoinsOf(money, worth);
      CoinsFit(money, worth);
      LeftStep(currencyItems, amount, k);
      if currencyCoins > 0 {
        CostGrows(1, currencyCoins, worth);
        CostAdd(1, 0, worth);
        money := money - Cost(currencyCoins, worth);
        hung, made := MakeStacks(worth, currencyCoins, made);
        if hung {
          assert currencyItems[k] == worth;
          return;
        }
      }
      k := k + 1;
    }
    hung := false;
  }

  /** Denominations at most `ratio` times the next smaller one, down to a coin worth 1. */
  predicate Divisible(worths: seq<nat>, top: nat, ratio: nat)
  {
    && worths != [] && worths[|worths| - 1] == 1 && top < Cost(ratio, worths[0])
    && forall k | 0 < k < |worths| :: worths[k - 1] <= Cost(ratio, worths[k])
  }

  lemma {:induction false} LeftIsSmall(worths: seq<nat>, money: nat, ratio: nat, k: nat)
    requires Currency(worths) && Divisible(worths, money, ratio) && ratio <= TWO_32 && k < |worths|
    ensures Left(worths, money, k) / worths[k] < ratio
    ensures Left(worths, money, k + 1) == Left(worths, money, k) % worths[k] < worths[k]
    decreases k
  {
    hide Cost, CoinsOf;
    var m, w := Left(worths, money, k), worths[k];
    if k > 0 {
      LeftIsSmall(worths, money, ratio, k - 1);
    }
    QuotientBelow(m, w, ratio);
    CoinsFit(m, w);
    CostDiv(m, w);
  }

  /** With a coin worth 1 and no quotient beyond 32 bits, nothing is lost in making change. */
  lemma {:induction false} ChangeIsExact(worths: seq<nat>, money: nat)
    requires Currency(worths) && Divisible(worths, money, TWO_32)
    ensures Left(worths, money, |worths|) == 0
  {
    hide Cost;
    LeftIsSmall(worths, money, TWO_32, |worths| - 1);
    assert Left(worths, money, |worths| - 1) % 1 == 0;
  }

  /** With only coins worth 1, all of the money is made if and only if it is below 65536. */
  lemma SingleDenomination(money: nat)
    ensures !Hangs([1], money) && Left([1], money, 1) == 0 <==> money < TWO_16
  {
    var worths: seq<nat> := [1];
    assert Left(worths, money, 0) == money && CoinsOf(money, 1) == money % TWO_32;
    CostAdd(CoinsOf(money, 1), 0, 1);
    assert Left(worths, money, 1) == money - money % TWO_32;
    assert Hangs(worths, money) <==> money % TWO_32 >= TWO_16 by {
      assert worths[0] == 1;
    }
  }

  /** Change that needs fewer than 65536 coins of each denomination is made in full. */
  lemma {:induction false} SmallChangeEnds(worths: seq<nat>, money: nat)
    requires Currency(worths) && Divisible(worths, money, TWO_16)
    ensures !Hangs(worths, money) && Left(worths, money, |worths|) == 0
  {
    hide Cost, Left;
    LeftIsSmall(worths, money, TWO_16, |worths| - 1);
    assert Left(worths, money, |worths| - 1) % 1 == 0;
    forall k {:trigger worths[k]} | 0 <= k < |worths| ensures CoinsOf(Left(worths, money, k), worths[k]) < TWO_16 {
      LeftIsSmall(worths, money, TWO_16, k);
    }
  }

  // ----- Game::removeMoney -----

  /** An entry of the map: what a stack is worth, and which stack it is. */
  datatype Entry = Entry(worth: nat, at: nat)

  /** A map from worth to stack, with its keys in order, equal keys in order of arrival. */
  ghost predicate Indexed(stacks: seq<Coins>, m: seq<Entry>)
  {
    && (forall k {:trigger m[k]} | 0 <= k < |m| ::
          m[k].at < |stacks| && m[k].worth == Value(stacks[m[k].at]) && m[k].worth > 0)
    && forall j, k | 0 <= j < k < |m| :: m[j].worth <= m[k].worth && m[j].at != m[k].at
  }

  /** Every stack worth anything is in the map. */
  ghost predicate Covers(stacks: seq<Coins>, m: seq<Entry>)
  {
    forall i | 0 <= i < |stacks| && Value(stacks[i]) != 0 :: exists e <- m :: e.at == i
  }

  function Worth(m: seq<Entry>): nat
  {
    if m == [] then 0 else m[0].worth + Worth(m[1..])
  }

  lemma {:induction false} WorthInsert(m: seq<Entry>, k: nat, e: Entry)
    requires k <= |m|
    ensures Worth(Containment.Insert(m, k, e)) == Worth(m) + e.worth
  {
    var m' := Containment.Insert(m, k, e);
    if k == 0 {
      assert m'[1..] == m;
    } else {
      assert m'[1..] == Containment.Insert(m[1..], k - 1, e);
      WorthInsert(m[1..], k - 1, e);
    }
  }

  method UpperBound(m: seq<Entry>, worth: nat) returns (k: nat)
    requires forall i, j | 0 <= i < j < |m| :: m[i].worth <= m[j].worth
    ensures k <= |m|
    ensures (forall j | 0 <= j < k :: m[j].worth <= worth) && forall j | k <= j < |m| :: worth < m[j].worth
  {
    k := 0;
    while k < |m| && m[k].worth <= worth
      invariant k <= |m| && forall j | 0 <= j < k :: m[j].worth <= worth
    {
      k := k + 1;
    }
  }

  lemma {:induction false} Emplace(stacks: seq<Coins>, m: seq<Entry>, worth: nat, i: nat, k: nat)
    requires Indexed(stacks, m) && i < |stacks| && worth == Value(stacks[i]) && worth > 0
    requires forall e <- m :: e.at < i
    requires k <= |m| && (forall j | 0 <= j < k :: m[j].worth <= worth) && forall j | k <= j < |m| :: worth < m[j].worth
    ensures var m' := Containment.Insert(m, k, Entry(worth, i));
            && Indexed(stacks, m') && Worth(m') == Worth(m) + worth
            && (forall e :: e in m' <==> e == Entry(worth, i) || e in m)
  {
    hide Worth;
    WorthInsert(m, k, Entry(worth, i));
    InsertMembers(m, k, Entry(worth, i));
    forall j | 0 <= j < |m| ensures m[j].at < i {
      assert m[j] in m;
    }
    InsertSorted(stacks, m, worth, i, k);
  }

  lemma {:induction false} InsertSorted(stacks: seq<Coins>, m: seq<Entry>, worth: nat, i: nat, k: nat)
    requires Indexed(stacks, m) && i < |stacks| && worth == Value(stacks[i]) && worth > 0
    requires forall j | 0 <= j < |m| :: m[j].at < i
    requires k <= |m| && (forall j | 0 <= j < k :: m[j].worth <= worth) && forall j | k <= j < |m| :: worth < m[j].worth
    ensures Indexed(stacks, Containment.Insert(m, k, Entry(worth, i)))
  {
    hide Value;
  }

  lemma {:induction false} InsertMembers<T>(m: seq<T>, k: nat, x: T)
    requires k <= |m|
    ensures forall e :: e in Containment.Insert(m, k, x) <==> e == x || e in m
  {
    var m' := Containment.Insert(m, k, x);
    forall e | e in m ensures e in m' {
      var j :| 0 <= j < |m| && m[j] == e;
      assert m'[if j < k then j else j + 1] == e;
    }
    assert m'[k] == x;
  }

  lemma IndexedSorted(stacks: seq<Coins>, m: seq<Entry>)
    requires Indexed(stacks, m)
    ensures forall i, j | 0 <= i < j < |m| :: m[i].worth <= m[j].worth
  {
  }

  /** The first `k` stacks of the map are gone, the others are as they were. */
  ghost predicate Emptied(was: seq<Coins>, now: seq<Coins>, m: seq<Entry>, k: nat)
    requires Indexed(was, m) && |now| == |was| && k <= |m|
  {
    && (forall j {:trigger m[j]} | 0 <= j < k :: now[m[j].at] == was[m[j].at].(count := 0))
    && forall i {:trigger now[i]} | 0 <= i < |was| :: (forall j | 0 <= j < k :: m[j].at != i) ==> now[i] == was[i]
  }

  /**
   Only coins went, from whole stacks except the broken one, and no stack was touched while a
   cheaper one was left alone.
   */
  ghost predicate Taken(was: seq<Coins>, now: seq<Coins>, broken: nat)
    requires |was| <= |now|
  {
    && (forall i {:trigger now[i]} | 0 <= i < |was| ::
          && now[i].worth == was[i].worth && now[i].count <= was[i].count
          && (i != broken ==> now[i] == was[i] || now[i].count == 0))
    && forall i, j {:trigger now[i], now[j]} | 0 <= i < |was| && 0 <= j < |was| ::
         now[i] != was[i] && now[j] == was[j] && Value(was[j]) != 0 ==> Value(was[i]) <= Value(was[j])
  }

  lemma EmptiedNone(was: seq<Coins>, m: seq<Entry>)
    requires Indexed(was, m)
    ensures Emptied(was, was, m, 0)
  {
  }

  lemma EmptiedSoFar(was: seq<Coins>, now: seq<Coins>, m: seq<Entry>, k: nat)
    requires Indexed(was, m) && |now| == |was| && k < |m| && Emptied(was, now, m, k)
    ensures m[k].at < |was| && now[m[k].at] == was[m[k].at] && m[k].worth == Value(was[m[k].at]) > 0
  {
    assert forall j | 0 <= j < k :: m[j].at != m[k].at;
  }

  lemma TotalUpdate(coins: seq<Coins>, i: nat, n: nat)
    requires i < |coins| && n <= coins[i].count
    ensures Total(coins[i := coins[i].(count := coins[i].count - n)]) == Total(coins) - Cost(n, coins[i].worth)
    ensures n == coins[i].count ==> Cost(n, coins[i].worth) == Value(coins[i])
  {
    hide Cost;
    var c := coins[i];
    CostAdd(c.count - n, n, c.worth);
    Containment.SumUpdate(Values(coins), i, Value(c.(count := c.count - n)));
    assert Values(coins[i := c.(count := c.count - n)]) == Values(coins)[i := Value(c.(count := c.count - n))];
  }

  lemma TotalConcat(a: seq<Coins>, b: seq<Coins>)
    ensures Total(a + b) == Total(a) + Total(b)
  {
    Containment.SumConcat(Values(a), Values(b));
    assert Values(a + b) == Values(a) + Values(b);
  }

  /** Taking `n` coins of the next stack in the map. */
  lemma {:induction false} RemoveCoins(was: seq<Coins>, now: seq<Coins>, m: seq<Entry>, k: nat, n: nat)
    requires Indexed(was, m) && |now| == |was| && k < |m| && Emptied(was, now, m, k)
    requires Covers(was, m)
    requires n <= was[m[k].at].count
    ensures var i := m[k].at;
            && i < |now| && now[i] == was[i]
            && var now' := now[i := now[i].(count := now[i].count - n)];
            && Total(now') == Total(now) - Cost(n, was[i].worth)
            && Taken(was, now', i)
            && (n == was[i].count ==>
                  Emptied(was, now', m, k + 1) && Taken(was, now', |was|) && Cost(n, was[i].worth) == m[k].worth)
  {
    hide Cost, Value, Total, Emptied, Covers, Indexed;
    var i := m[k].at;
    EmptiedSoFar(was, now, m, k);
    TotalUpdate(now, i, n);
    var now' := now[i := now[i].(count := now[i].count - n)];
    forall l | 0 <= l < |was| && l != i ensures Beside(was, now', l, m[k].worth) {
      CheaperGone(was, now, m, k, l);
    }
    assert forall l {:trigger now'[l]} | 0 <= l < |was| && l != i :: Beside(was, now', l, m[k].worth);
    if n == was[i].count {
      assert now' == now[i := was[i].(count := 0)];
      EmptiedNext(was, now, m, k);
    }
  }

  /** Another stack is as it was, and no cheaper, or all gone, and no dearer. */
  ghost predicate Beside(was: seq<Coins>, now: seq<Coins>, l: nat, worth: nat)
    requires l < |was| && |now| == |was|
  {
    && now[l].worth == was[l].worth && now[l].count <= was[l].count && (now[l] == was[l] || now[l].count == 0)
    && (if now[l] != was[l] then Value(was[l]) <= worth else Value(was[l]) != 0 ==> worth <= Value(was[l]))
  }

  lemma CheaperGone(was: seq<Coins>, now: seq<Coins>, m: seq<Entry>, k: nat, l: nat)
    requires Indexed(was, m) && |now| == |was| && k < |m| && Emptied(was, now, m, k)
    requires Covers(was, m) && l < |was| && l != m[k].at
    ensures Beside(was, now, l, m[k].worth)
  {
    hide Cost, Value, Total;
    if j :| 0 <= j < k && m[j].at == l {
      assert m[j].worth <= m[k].worth;
      if now[l] == was[l] {
        GoneStack(was[l], now[l]);
      }
    } else if Value(was[l]) != 0 {
      var e :| e in m && e.at == l;
      var j :| 0 <= j < |m| && m[j] == e;
      assert m[k].worth <= m[j].worth;
    }
  }

  lemma EmptiedNext(was: seq<Coins>, now: seq<Coins>, m: seq<Entry>, k: nat)
    requires Indexed(was, m) && |now| == |was| && k < |m| && Emptied(was, now, m, k)
    ensures m[k].at < |was| && Emptied(was, now[m[k].at := was[m[k].at].(count := 0)], m, k + 1)
  {
  }

  lemma GoneStack(was: Coins, now: Coins)
    requires now == was.(count := 0) && now == was
    ensures Value(was) == 0
  {
  }

  lemma WholeCoins(c: Coins, money: nat)
    requires 0 < money < Value(c)
    ensures c.count > 0 && c.worth > 0 && Value(c) / c.count == c.worth
    ensures var r := (money + c.worth - 1) / c.worth;
            0 < r <= c.count && money <= Cost(r, c.worth) < money + c.worth
  {
    CoinWorth(c);
    hide Cost;
    var w := c.worth;
    var r := (money + w - 1) / w;
    CostDiv(money + w - 1, w);
    if r > c.count {
      CostGrows(c.count + 1, r, w);
      CostAdd(c.count, 1, w);
    }
    CostAdd(0, 0, w);
  }

  lemma CoinWorth(c: Coins)
    requires Value(c) > 0
    ensures c.count > 0 && c.worth > 0 && Value(c) / c.count == c.worth
  {
    assert Value(c) == c.count * c.worth;
    CostDiv(Value(c), c.count);
    var q := Value(c) / c.count;
    if q < c.worth {
      CostGrows(q + 1, c.worth, c.count);
      CostAdd(q, 1, c.count);
      Commutes(c.worth, c.count);
    } else if q > c.worth {
      CostGrows(c.worth + 1, q, c.count);
      CostAdd(c.worth, 1, c.count);
      Commutes(c.worth, c.count);
    }
  }

  lemma Commutes(a: nat, b: nat)
    ensures Cost(a, b) == Cost(b, a)
  {
  }

  lemma {:induction false} NoChange(worths: seq<nat>, k: nat)
    requires Currency(worths) && k <= |worths|
    ensures Left(worths, 0, k) == 0
    ensures forall j {:trigger worths[j]} | 0 <= j < k :: CoinsOf(Left(worths, 0, j), worths[j]) == 0
  {
    hide Cost, CoinsOf, Left;
    if k == 0 {
      LeftStart(worths, 0);
    } else {
      NoChange(worths, k - 1);
      CoinsOfNothing(worths[k - 1]);
      LeftStep(worths, 0, k - 1);
    }
  }

  lemma CoinsOfNothing(worth: nat)
    requires worth > 0
    ensures CoinsOf(0, worth) == 0
  {
  }

  /**
   A coin worth 1 exists, no denomination is more than 65536 times the next one, and no coin held
   is more than 65536 times the largest.
   */
  ghost predicate Sound(worths: seq<nat>, stacks: seq<Coins>)
  {
    && worths != [] && worths[|worths| - 1] == 1
    && (forall k | 0 < k < |worths| :: worths[k - 1] <= Cost(TWO_16, worths[k]))
    && forall c <- stacks :: c.worth <= Cost(TWO_16, worths[0])
  }

  /** Then the change for any coin held is made, in full. */
  lemma SoundTable(worths: seq<nat>, stacks: seq<Coins>, broken: nat, change: nat)
    requires Currency(worths) && if broken < |stacks| then change < stacks[broken].worth else change == 0
    ensures Sound(worths, stacks) ==> !Hangs(worths, change) && Left(worths, change, |worths|) == 0
  {
    hide Cost, Hangs, Left;
    if Sound(worths, stacks) {
      CostGrows(1, TWO_16, worths[0]);
      CostAdd(1, 0, worths[0]);
      SmallChangeEnds(worths, change);
    }
  }

  /** The worth of one coin of the stack, and how many coins cover the money. */
  method CoinsToBreak(c: Coins, money: nat) returns (worth: nat, removeCount: nat)
    requires 0 < money < Value(c)
    ensures worth == c.worth && 0 < removeCount <= c.count
    ensures money <= Cost(removeCount, worth) < money + worth
  {
    hide Cost, Value;
    WholeCoins(c, money);
    worth := Value(c) / c.count;
    removeCount := (money + worth - 1) / worth;
  }

  lemma TakenMore(was: seq<Coins>, now: seq<Coins>, broken: nat, more: seq<Coins>)
    requires |was| == |now| && Taken(was, now, broken)
    ensures Taken(was, now + more, broken)
  {
    hide Value;
    assert forall i {:trigger (now + more)[i]} | 0 <= i < |was| :: (now + more)[i] == now[i];
  }

  lemma TakenNothing(stacks: seq<Coins>)
    ensures Taken(stacks, stacks, |stacks|)
  {
  }

  lemma NoEntries(stacks: seq<Coins>)
    ensures Indexed(stacks, []) && Worth([]) == 0
  {
  }

  /** The coins a cylinder holds at any depth, in the order the scan meets them. */
  class Purse {
    var stacks: seq<Coins>

    constructor (coins: seq<Coins>)
      ensures stacks == coins
    {
      stacks := coins;
    }

    /** The stacks worth something, cheapest first, and their total. */
    method Scan() returns (moneyMap: seq<Entry>, moneyCount: nat)
      requires forall c <- stacks :: Value(c) < TWO_32
      ensures Indexed(stacks, moneyMap) && moneyCount == Total(stacks) == Worth(moneyMap)
      ensures Covers(stacks, moneyMap)
    {
      hide Cost, Total, Value, Worth, Indexed, Containment.Insert;
      moneyMap, moneyCount := [], 0;
      NoCoins();
      NoEntries(stacks);
      var i: nat := 0;
      while i < |stacks|
        invariant i <= |stacks| && Indexed(stacks, moneyMap) && (forall e <- moneyMap :: e.at < i)
        invariant moneyCount == Total(stacks[..i]) == Worth(moneyMap)
        invariant forall j | 0 <= j < i && Value(stacks[j]) != 0 :: exists e <- moneyMap :: e.at == j
      {
        var worth := GetWorth(stacks[i]);
        assert stacks[i] in stacks;
        TotalAppend(stacks[..i], stacks[i]);
        assert stacks[..i + 1] == stacks[..i] + [stacks[i]];
        if worth != 0 {
          IndexedSorted(stacks, moneyMap);
          var k := UpperBound(moneyMap, worth);
          Emplace(stacks, moneyMap, worth, i, k);
          moneyCount := moneyCount + worth;
          moneyMap := Containment.Insert(moneyMap, k, Entry(worth, i));
        }
        i := i + 1;
      }
      assert stacks[..i] == stacks;
    }

    /** The stack worth more than is still due: some of its coins go, and change comes back. */
    method BreakStack(
        currencyItems: seq<nat>, i: nat, money: nat, ghost was: seq<Coins>, ghost m: seq<Entry>, ghost k: nat)
      returns (hung: bool, ghost made: seq<Coins>, ghost change: nat)
      requires Currency(currencyItems) && Indexed(was, m) && |stacks| == |was| && k < |m| && Emptied(was, stacks, m, k)
      requires Covers(was, m)
      requires i == m[k].at && 0 < money < m[k].worth
      modifies this
      ensures change < was[i].worth && forall c <- made :: c.worth < was[i].worth
      ensures hung <==> Hangs(currencyItems, change)
      ensures !hung ==>
                && Total(stacks) + Left(currencyItems, change, |currencyItems|) == old(Total(stacks)) - money
                && |stacks| == |was| + |made| && stacks[|was|..] == made && Taken(was, stacks, i)
    {
      hide Cost, Total, Value, Left, Hangs, Taken, Emptied, Currency;
      RemoveCoins(was, stacks, m, k, 0);
      var worth, removeCount := CoinsToBreak(stacks[i], money);
      change := Cost(removeCount, worth) - money;
      var coins;
      hung, coins := AddMoney(currencyItems, Cost(removeCount, worth) - money);
      made := coins;
      if !hung {
        RemoveCoins(was, stacks, m, k, removeCount);
        stacks := stacks[i := stacks[i].(count := stacks[i].count - removeCount)];
        TotalConcat(stacks, coins);
        TakenMore(was, stacks, i, coins);
        stacks := stacks + coins;
      }
    }

    /**
     Removing money is all or nothing, and takes the cheapest stacks first. Paid in full, what
     the purse is worth falls by exactly the amount and whatever of the change the denominations
     could not express; change is worth less than one coin of the broken stack.
     */
    method RemoveMoney(currencyItems: seq<nat>, amount: nat)
      returns (ok: bool, hung: bool, ghost broken: nat, ghost made: seq<Coins>, ghost change: nat)
      requires Currency(currencyItems) && forall c <- stacks :: Value(c) < TWO_32
      modifies this
      ensures ok <==> amount <= old(Total(stacks))
      ensures !ok ==> stacks == old(stacks) && !hung
      ensures hung <==> broken < |old(stacks)| && Hangs(currencyItems, change)
      ensures broken < |old(stacks)| ==>
                change < old(stacks)[broken].worth && forall c <- made :: c.worth < old(stacks)[broken].worth
      ensures broken >= |old(stacks)| ==> change == 0 && made == []
      ensures ok && !hung ==>
                && Total(stacks) + Left(currencyItems, change, |currencyItems|) == old(Total(stacks)) - amount
                && |stacks| == |old(stacks)| + |made| && stacks[|old(stacks)|..] == made
                && Taken(old(stacks), stacks, broken)
      ensures ok && Sound(currencyItems, old(stacks)) ==> !hung && Total(stacks) == old(Total(stacks)) - amount
    {
      hide Cost, Total, Value, Left, Hangs, Sound, Taken, Emptied, Indexed, Covers, Currency;
      TakenNothing(stacks);
      SoundTable(currencyItems, stacks, |stacks|, 0);
      ok, hung, broken, made, change := true, false, |stacks|, [], 0;
      NoChange(currencyItems, |currencyItems|);
      TotalIsNatural(stacks);
      if amount == 0 {
        return;
      }
      var moneyMap, moneyCount := Scan();
      if moneyCount < amount {
        return false, false, |stacks|, [], 0;
      }
      ghost var was := stacks;
      var money: nat, k := amount, 0;
      assert moneyMap[0..] == moneyMap;
      EmptiedNone(was, moneyMap);
      while k < |moneyMap|
        invariant k <= |moneyMap| && 0 < money <= amount && |stacks| == |was|
        invariant Total(stacks) + amount == Total(was) + money && Worth(moneyMap[k..]) >= money
        invariant Emptied(was, stacks, moneyMap, k)
      {
        var Entry(worth, i) := moneyMap[k];
        EmptiedSoFar(was, stacks, moneyMap, k);
        var count := stacks[i].count;
        assert moneyMap[k..][1..] == moneyMap[k + 1..];
        if worth < money {
          RemoveCoins(was, stacks, moneyMap, k, count);
          stacks := stacks[i := stacks[i].(count := 0)];
          money := money - worth;
        } else if worth > money {
          hung, made, change := BreakStack(currencyItems, i, money, was, moneyMap, k);
          broken := i;
          SoundTable(currencyItems, was, i, change);
          return;
        } else {
          RemoveCoins(was, stacks, moneyMap, k, count);
          stacks := stacks[i := stacks[i].(count := 0)];
          return;
        }
        k := k + 1;
      }
      assert false;
    }
  }
}
