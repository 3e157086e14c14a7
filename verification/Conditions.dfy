/**
 Speed and attribute conditions (server/src/condition.cpp, server/src/creature.cpp,
 server/src/game.cpp): each one changes the creature's modifiers when it starts, adjusts them
 when it is refreshed, and takes its change back when it ends.
 */
module Conditions {
  import opened Basics
  import Containment

  /** A player's modifiers: of 7 skills, 6 special skills and 4 stats. */
  const MODIFIERS: nat := 17

  type Modifiers = s: seq<int> | |s| == MODIFIERS witness [0, 0, 0, 0, 0, 0, 0, 0, 0, 0, 0, 0, 0, 0, 0, 0, 0]

  const ZERO: Modifiers := [0, 0, 0, 0, 0, 0, 0, 0, 0, 0, 0, 0, 0, 0, 0, 0, 0]

  datatype Kind = SpeedKind | AttributesKind | OtherKind

  /** What a condition does to its creature while it is active. */
  datatype Effect = Effect(speed: int, mods: Modifiers)

  class Condition {
    const kind: Kind
    const ctype: nat
    const id: int
    const subId: nat
    var ticks: int
    var endTime: int
    var speedDelta: int
    var mods: Modifiers
    /** The modifiers given as a percentage, which are worked out anew each time. */
    var percent: set<nat>

    constructor (
        kind: Kind, ctype: nat, id: int, subId: nat, ticks: int, speedDelta: int, mods: Modifiers, percent: set<nat>)
      ensures this.kind == kind && this.ctype == ctype && this.id == id && this.subId == subId
      ensures this.ticks == ticks && endTime == 0
      ensures this.speedDelta == speedDelta && this.mods == mods && this.percent == percent
    {
      this.kind, this.ctype, this.id, this.subId := kind, ctype, id, subId;
      this.ticks, this.endTime, this.speedDelta, this.mods, this.percent := ticks, 0, speedDelta, mods, percent;
    }

    function EffectOf(isPlayer: bool): Effect
      reads this
    {
      match kind
      case SpeedKind => Effect(speedDelta, ZERO)
      case AttributesKind => if isPlayer then Effect(0, mods) else Effect(0, ZERO)
      case OtherKind => Effect(0, ZERO)
    }

    /** The end that Condition::startCondition gives: one that is set already, as after loading, stays. */
    function Begun(now: int): int
      reads `ticks, `endTime
    {
      if ticks > 0 && endTime == 0 then ticks + now else endTime
    }

    /** Whether a turn at `now` leaves the condition in force. */
    predicate Stays(now: int)
      reads `ticks, `endTime
    {
      ticks == -1 || endTime >= now
    }

    /** Condition::updateCondition. */
    predicate Updates(other: Condition, now: int)
      reads this, other
    {
      && ctype == other.ctype && !(ticks == -1 && other.ticks > 0)
      && !(other.ticks >= 0 && endTime > now + other.ticks)
    }
  }

  /** Conditions of one sort share one place in the list. */
  predicate SameSort(p: Condition, c: Condition)
  {
    p.ctype == c.ctype && p.id == c.id && p.subId == c.subId
  }

  predicate Acts(c: Condition, ctype: nat, now: int)
    reads c
  {
    c.ctype == ctype && c.subId == 0 && (c.endTime >= now || c.ticks == -1)
  }

  predicate Merges(list: seq<Condition>, c: Condition)
  {
    exists p <- list :: SameSort(p, c)
  }

  /** Whether an active condition takes over the values of a new one of its sort. */
  predicate Accepts(prev: Condition, c: Condition, now: int)
    reads prev, c
  {
    if c.kind == SpeedKind then !(prev.ticks == -1 && c.ticks > 0) else prev.Updates(c, now)
  }

  /**
   A condition takes over the time of a new one exactly when that does not bring its end nearer and
   does not make a permanent one temporary; changes of speed give way whatever their end.
   */
  lemma TakesOverExactly(prev: Condition, c: Condition, now: int)
    requires prev.kind == c.kind && prev.ctype == c.ctype
    ensures Accepts(prev, c, now) <==>
              && (prev.ticks == -1 ==> c.ticks <= 0)
              && (c.kind != SpeedKind && c.ticks >= 0 ==> prev.endTime <= now + c.ticks)
  {
  }

  /** The effect a condition has once its random and percentage values are drawn. */
  function Given(c: Condition, isPlayer: bool, draw: Effect): Effect
    reads c
  {
    match c.kind
    case SpeedKind => Effect(if c.speedDelta == 0 then draw.speed else c.speedDelta, ZERO)
    case AttributesKind => if isPlayer then Effect(0, Drawn(c.mods, c.percent, draw.mods)) else Effect(0, ZERO)
    case OtherKind => Effect(0, ZERO)
  }

  function Plus(a: Modifiers, b: Modifiers): Modifiers
  {
    seq(MODIFIERS, k requires 0 <= k < MODIFIERS => a[k] + b[k])
  }

  function Minus(a: Modifiers, b: Modifiers): Modifiers
  {
    seq(MODIFIERS, k requires 0 <= k < MODIFIERS => a[k] - b[k])
  }

  function Drawn(mods: Modifiers, percent: set<nat>, draw: Modifiers): Modifiers
  {
    seq(MODIFIERS, k requires 0 <= k < MODIFIERS => if k in percent then draw[k] else mods[k])
  }

  /** The sum of what the active conditions do. */
  function TotalEffect(effects: seq<Effect>): Effect
  {
    if effects == [] then Effect(0, ZERO)
    else
      var rest := TotalEffect(effects[1..]);
      Effect(effects[0].speed + rest.speed, Plus(effects[0].mods, rest.mods))
  }

  function Add(a: Effect, b: Effect): Effect
  {
    Effect(a.speed + b.speed, Plus(a.mods, b.mods))
  }

  function Subtract(a: Effect, b: Effect): Effect
  {
    Effect(a.speed - b.speed, Minus(a.mods, b.mods))
  }

  lemma {:induction false} TotalAppend(effects: seq<Effect>, e: Effect)
    ensures TotalEffect(effects + [e]) == Add(TotalEffect(effects), e)
  {
    if effects == [] {
      assert [] + [e] == [e] && [e][1..] == [];
      assert Plus(e.mods, ZERO) == e.mods && Plus(ZERO, e.mods) == e.mods;
    } else {
      assert (effects + [e])[1..] == effects[1..] + [e];
      TotalAppend(effects[1..], e);
      var rest := TotalEffect(effects[1..]).mods;
      assert Plus(effects[0].mods, Plus(rest, e.mods)) == Plus(Plus(effects[0].mods, rest), e.mods);
    }
  }

  lemma {:induction false} TotalRemove(effects: seq<Effect>, k: nat)
    requires k < |effects|
    ensures TotalEffect(Containment.Remove(effects, k)) == Subtract(TotalEffect(effects), effects[k])
  {
    var e, left := effects[k], Containment.Remove(effects, k);
    if k == 0 {
      assert left == effects[1..];
      var rest := TotalEffect(effects[1..]).mods;
      assert Minus(Plus(e.mods, rest), e.mods) == rest;
    } else {
      assert left[1..] == Containment.Remove(effects[1..], k - 1);
      TotalRemove(effects[1..], k - 1);
      var first, rest := effects[0].mods, TotalEffect(effects[1..]).mods;
      assert Plus(first, Minus(rest, e.mods)) == Minus(Plus(first, rest), e.mods);
    }
  }

  lemma {:induction false} TotalUpdate(effects: seq<Effect>, k: nat, e: Effect)
    requires k < |effects|
    ensures TotalEffect(effects[k := e]) == Add(Subtract(TotalEffect(effects), effects[k]), e)
  {
    var was := effects[k].mods;
    if k == 0 {
      assert effects[0 := e][1..] == effects[1..];
      var rest := TotalEffect(effects[1..]).mods;
      assert Plus(e.mods, rest) == Plus(Minus(Plus(was, rest), was), e.mods);
    } else {
      assert effects[k := e][1..] == effects[1..][k - 1 := e];
      TotalUpdate(effects[1..], k - 1, e);
      var first, rest := effects[0].mods, TotalEffect(effects[1..]).mods;
      assert Plus(first, Plus(Minus(rest, was), e.mods)) == Plus(Minus(Plus(first, rest), was), e.mods);
    }
  }

  lemma AddBack(total: Effect, base: Effect, was: Effect, e: Effect)
    ensures Add(Add(base, total), e) == Add(base, Add(total, e))
    ensures Subtract(Add(base, total), was) == Add(base, Subtract(total, was))
    ensures Subtract(Add(total, e), e) == total
    ensures Add(base, Effect(0, ZERO)) == base
  {
  }

  const CONDITION_PARALYZE: nat := 32
  const CONDITION_HASTE: nat := 16

  /** Haste and paralysis drive each other out. */
  function Opposite(ctype: nat): Option<nat>
  {
    if ctype == CONDITION_PARALYZE then Some(CONDITION_HASTE)
    else if ctype == CONDITION_HASTE then Some(CONDITION_PARALYZE)
    else None
  }

  /** The conditions of other types, in order. */
  function Without(list: seq<Condition>, ctype: nat): seq<Condition>
  {
    if list == [] then []
    else (if list[0].ctype == ctype then [] else [list[0]]) + Without(list[1..], ctype)
  }

  lemma {:induction false} WithoutSkips(list: seq<Condition>, k: nat, ctype: nat)
    requires k < |list| && list[k].ctype == ctype
    ensures Without(Containment.Remove(list, k), ctype) == Without(list, ctype)
  {
    if k > 0 {
      WithoutSkips(list[1..], k - 1, ctype);
      assert Containment.Remove(list, k)[1..] == Containment.Remove(list[1..], k - 1);
    } else {
      assert Containment.Remove(list, k) == list[1..];
    }
  }

  lemma {:induction false} WithoutAbsent(list: seq<Condition>, ctype: nat)
    requires forall c <- list :: c.ctype != ctype
    ensures Without(list, ctype) == list
  {
    if list != [] {
      WithoutAbsent(list[1..], ctype);
    }
  }

  lemma {:induction false} WithoutMembers(list: seq<Condition>, ctype: nat)
    ensures forall c :: c in Without(list, ctype) <==> c in list && c.ctype != ctype
  {
    if list != [] {
      WithoutMembers(list[1..], ctype);
      assert list == [list[0]] + list[1..];
    }
  }

  class Creature {
    const isPlayer: bool
    const isMonster: bool
    var suppressed: set<nat>
    var baseSpeed: int
    var varSpeed: int
    var varMods: Modifiers
    var conditions: seq<Condition>
    /** The modifiers with no condition active, and what each active condition did. */
    ghost const base: Effect
    ghost var effects: seq<Effect>

    /** No two active conditions are of one sort. */
    ghost predicate Distinct()
      reads this
    {
      forall j, k | 0 <= j < k < |conditions| :: !SameSort(conditions[j], conditions[k])
    }

    ghost predicate Mirrored()
      reads this, conditions
    {
      |effects| == |conditions| && forall k | 0 <= k < |effects| :: effects[k] == conditions[k].EffectOf(isPlayer)
    }

    /** The ledger: the modifiers are the base plus what the active conditions say, no more and no less. */
    ghost predicate Balanced()
      reads this
    {
      Effect(varSpeed, varMods) == Add(base, TotalEffect(effects))
    }

    ghost predicate Valid()
      reads this, conditions
    {
      Distinct() && Mirrored() && Balanced()
    }

    constructor (player: bool, monster: bool, speed: int, mods: Modifiers)
      ensures Valid() && conditions == [] && base == Effect(0, mods)
      ensures isPlayer == player && isMonster == monster && suppressed == {}
    {
      isPlayer, isMonster, suppressed := player, monster, {};
      baseSpeed, varSpeed, varMods, conditions := speed, 0, mods, [];
      base, effects := Effect(0, mods), [];
      new;
      AddBack(base, base, base, base);
    }

    /** When no condition is left, every modifier is back where it was. */
    lemma BackToBase()
      requires Valid() && conditions == []
      ensures varSpeed == base.speed && varMods == base.mods
    {
      AddBack(base, base, base, base);
    }

    /** Game::changeSpeed. */
    method ChangeSpeed(varSpeedDelta: int)
      modifies this`varSpeed
      ensures varSpeed == old(varSpeed) + varSpeedDelta
    {
      var change := (baseSpeed + varSpeed) - baseSpeed;
      varSpeed := change + varSpeedDelta;
    }

    /** setVarSkill, setVarSpecialSkill and setVarStats, for each modifier that is not zero. */
    method ChangeModifiers(mods: Modifiers, sign: int)
      requires sign == 1 || sign == -1
      modifies this`varMods
      ensures varMods == if sign == 1 then Plus(old(varMods), mods) else Minus(old(varMods), mods)
    {
      var i := 0;
      while i < MODIFIERS
        invariant i <= MODIFIERS
        invariant forall k | 0 <= k < MODIFIERS ::
                    varMods[k] == if k < i then old(varMods)[k] + sign * mods[k] else old(varMods)[k]
      {
        if mods[i] != 0 {
          varMods := varMods[i := varMods[i] + sign * mods[i]];
        }
        i := i + 1;
      }
    }

    /** The startCondition of a speed or attributes condition; `draw` stands for the random and percentage values. */
    method StartCondition(c: Condition, now: int, draw: Effect)
      modifies this`varSpeed, this`varMods, c
      ensures Effect(varSpeed, varMods) == Add(old(Effect(varSpeed, varMods)), c.EffectOf(isPlayer))
      ensures c.EffectOf(isPlayer) == old(Given(c, isPlayer, draw))
      ensures c.ticks == old(c.ticks) && c.endTime == old(c.Begun(now))
      ensures varSpeed == old(varSpeed) + if c.kind == SpeedKind then c.speedDelta else 0
      ensures forall k | 0 <= k < MODIFIERS ::
                varMods[k] == old(varMods)[k] + if c.kind == AttributesKind && isPlayer then c.mods[k] else 0
    {
      if c.ticks > 0 && c.endTime == 0 {
        c.endTime := c.ticks + now;
      }
      AddBack(draw, Effect(varSpeed, varMods), draw, draw);
      match c.kind
      case SpeedKind =>
        if c.speedDelta == 0 {
          c.speedDelta := draw.speed;
        }
        ChangeSpeed(c.speedDelta);
        assert Plus(varMods, ZERO) == varMods;
      case AttributesKind =>
        if isPlayer {
          c.mods := Drawn(c.mods, c.percent, draw.mods);
          ChangeModifiers(c.mods, 1);
        }
      case OtherKind =>
    }

    method EndCondition(c: Condition)
      modifies this`varSpeed, this`varMods
      ensures Effect(varSpeed, varMods) == Subtract(old(Effect(varSpeed, varMods)), c.EffectOf(isPlayer))
      ensures varSpeed == old(varSpeed) - if c.kind == SpeedKind then c.speedDelta else 0
      ensures forall k | 0 <= k < MODIFIERS ::
                varMods[k] == old(varMods)[k] - if c.kind == AttributesKind && isPlayer then c.mods[k] else 0
    {
      assert Minus(varMods, ZERO) == varMods;
      match c.kind
      case SpeedKind =>
        ChangeSpeed(0 - c.speedDelta);
      case AttributesKind =>
        if isPlayer {
          ChangeModifiers(c.mods, -1);
        }
      case OtherKind =>
    }

    /** ConditionSpeed::addCondition: the difference to the old change of speed. */
    method RefreshSpeed(prev: Condition, c: Condition, now: int, draw: Effect)
      requires prev.kind == c.kind == SpeedKind && prev != c
      modifies this`varSpeed, prev
      ensures Effect(varSpeed, varMods)
           == Add(Subtract(old(Effect(varSpeed, varMods)), old(prev.EffectOf(isPlayer))), prev.EffectOf(isPlayer))
      ensures prev.EffectOf(isPlayer)
           == if old(Accepts(prev, c, now)) then Given(c, isPlayer, draw) else old(prev.EffectOf(isPlayer))
      ensures if old(Accepts(prev, c, now)) then prev.ticks == c.ticks && prev.endTime == c.ticks + now
              else prev.ticks == old(prev.ticks) && prev.endTime == old(prev.endTime)
    {
      assert Plus(Minus(varMods, ZERO), ZERO) == varMods;
      if prev.ticks == -1 && c.ticks > 0 {
        return;
      }
      prev.ticks, prev.endTime := c.ticks, c.ticks + now;
      var oldSpeedDelta := prev.speedDelta;
      prev.speedDelta := if c.speedDelta == 0 then draw.speed else c.speedDelta;
      var newSpeedChange := prev.speedDelta - oldSpeedDelta;
      if newSpeedChange != 0 {
        ChangeSpeed(newSpeedChange);
      }
    }

    /** ConditionAttributes::addCondition: the old effect is taken back, the new one applied. */
    method RefreshAttributes(prev: Condition, c: Condition, now: int, draw: Effect)
      requires prev.kind == c.kind == AttributesKind && prev != c
      modifies this`varSpeed, this`varMods, prev
      ensures Effect(varSpeed, varMods)
           == Add(Subtract(old(Effect(varSpeed, varMods)), old(prev.EffectOf(isPlayer))), prev.EffectOf(isPlayer))
      ensures prev.EffectOf(isPlayer)
           == if old(Accepts(prev, c, now)) then Given(c, isPlayer, draw) else old(prev.EffectOf(isPlayer))
      ensures if old(Accepts(prev, c, now)) then prev.ticks == c.ticks && prev.endTime == c.ticks + now
              else prev.ticks == old(prev.ticks) && prev.endTime == old(prev.endTime)
    {
      assert forall m: Modifiers :: Plus(Minus(varMods, m), m) == varMods;
      if !prev.Updates(c, now) {
        return;
      }
      prev.ticks, prev.endTime := c.ticks, c.ticks + now;
      EndCondition(prev);
      prev.percent := c.percent;
      prev.mods := c.mods;
      if isPlayer {
        prev.mods := Drawn(prev.mods, prev.percent, draw.mods);
        ChangeModifiers(prev.mods, 1);
      } else {
        assert Plus(varMods, ZERO) == varMods;
      }
    }

    /** The condition's own addCondition: an active condition takes over the values of a new one of its sort. */
    method Refresh(k: nat, c: Condition, now: int, draw: Effect)
      requires Valid() && k < |conditions| && c !in conditions
      requires conditions[k].kind == c.kind && conditions[k].ctype == c.ctype
      modifies this`varSpeed, this`varMods, this`effects, conditions[k]
      ensures Valid()
      ensures conditions[k].EffectOf(isPlayer)
           == if old(Accepts(conditions[k], c, now)) then Given(c, isPlayer, draw)
              else old(conditions[k].EffectOf(isPlayer))
      ensures if old(Accepts(conditions[k], c, now))
              then conditions[k].ticks == c.ticks && conditions[k].endTime == c.ticks + now
              else conditions[k].ticks == old(conditions[k].ticks)
                   && conditions[k].endTime == old(conditions[k].endTime)
    {
      hide Condition.EffectOf, Add, Subtract;
      var prev := conditions[k];
      ghost var total := TotalEffect(effects);
      match c.kind
      case SpeedKind =>
        RefreshSpeed(prev, c, now, draw);
        Settle(k, total);
      case AttributesKind =>
        RefreshAttributes(prev, c, now, draw);
        Settle(k, total);
      case OtherKind =>
        if prev.Updates(c, now) {
          SameEffect(prev);
          prev.ticks, prev.endTime := c.ticks, c.ticks + now;
          SameEffect(prev);
        }
    }

    lemma SameEffect(c: Condition)
      requires c.kind == OtherKind
      ensures c.EffectOf(isPlayer) == Effect(0, ZERO)
    {
    }

    /** The ledger after one condition's effect was replaced. */
    ghost method Settle(k: nat, total: Effect)
      requires k < |conditions| == |effects| && Distinct() && total == TotalEffect(effects)
      requires forall j | 0 <= j < |effects| && j != k :: effects[j] == conditions[j].EffectOf(isPlayer)
      requires Effect(varSpeed, varMods)
            == Add(Subtract(Add(base, total), effects[k]), conditions[k].EffectOf(isPlayer))
      modifies this`effects
      ensures Valid()
    {
      var e := conditions[k].EffectOf(isPlayer);
      TotalUpdate(effects, k, e);
      AddBack(total, base, effects[k], e);
      AddBack(Subtract(total, effects[k]), base, effects[k], e);
      effects := effects[k := e];
    }

    /** Creature::hasCondition: a condition of the type is in force, unless the type is suppressed. */
    predicate InForce(ctype: nat, now: int)
      reads this`suppressed, this`conditions, conditions
    {
      ctype !in suppressed && exists c <- conditions :: Acts(c, ctype, now)
    }

    predicate OppositeInForce(ctype: nat, now: int)
      reads this`suppressed, this`conditions, conditions
    {
      Opposite(ctype).Some? && InForce(Opposite(ctype).value, now)
    }

    method HasCondition(ctype: nat, now: int) returns (found: bool)
      ensures found == InForce(ctype, now)
    {
      if ctype in suppressed {
        return false;
      }
      var k := 0;
      while k < |conditions|
        invariant k <= |conditions|
        invariant forall c <- conditions[..k] :: !Acts(c, ctype, now)
      {
        var c := conditions[k];
        if c.ctype == ctype && c.subId == 0 && (c.endTime >= now || c.ticks == -1) {
          assert c in conditions && Acts(c, ctype, now);
          return true;
        }
        assert conditions[..k + 1] == conditions[..k] + [c];
        k := k + 1;
      }
      assert conditions[..k] == conditions;
      found := false;
    }

    /** What is left of a list after onAddCondition: the opposite goes, unless paralysis must wait. */
    function AfterAdding(list: seq<Condition>, ctype: nat, oppositeInForce: bool, walkDelay: int): seq<Condition>
    {
      match Opposite(ctype)
      case None => list
      case Some(other) =>
        if isMonster || !oppositeInForce || (other == CONDITION_PARALYZE && walkDelay > 0) then list
        else Without(list, other)
    }

    /** Creature::onAddCondition, which monsters replace. Nothing opposite is in force after it, unless it must wait. */
    method OnAddCondition(ctype: nat, walkDelay: int, now: int)
      requires Valid()
      modifies this
      ensures Valid() && suppressed == old(suppressed)
      ensures conditions
           == AfterAdding(old(conditions), ctype, old(OppositeInForce(ctype, now)), walkDelay)
      ensures !isMonster && !(ctype == CONDITION_HASTE && walkDelay > 0) ==> !OppositeInForce(ctype, now)
    {
      hide Distinct, Mirrored, Balanced;
      if isMonster {
        return;
      }
      if ctype == CONDITION_PARALYZE {
        var hasted := HasCondition(CONDITION_HASTE, now);
        if hasted {
          RemoveConditions(CONDITION_HASTE, walkDelay > 0);
          WithoutMembers(old(conditions), CONDITION_HASTE);
        }
      } else if ctype == CONDITION_HASTE {
        var paralyzed := HasCondition(CONDITION_PARALYZE, now);
        if paralyzed {
          RemoveConditions(CONDITION_PARALYZE, walkDelay > 0);
          WithoutMembers(old(conditions), CONDITION_PARALYZE);
        }
      }
    }

    /** Whether an added condition is put off: haste that is not forced, on a paralyzed creature about to step. */
    predicate Waits(c: Condition, force: bool, walkDelay: int, now: int)
      reads this, conditions
    {
      !force && c.ctype == CONDITION_HASTE && InForce(CONDITION_PARALYZE, now) && walkDelay > 0
    }

    /**
     Creature::addCondition. `starts` is what startCondition of a condition of another kind answers.
     A condition of a sort already there is merged into it; any other goes to the end of the list
     and drives out its opposite.
     */
    method AddCondition(c: Condition, force: bool, walkDelay: int, now: int, draw: Effect, starts: bool)
      returns (added: bool)
      requires Valid() && c !in conditions
      requires forall p <- conditions :: p.ctype == c.ctype ==> p.kind == c.kind
      modifies this, conditions, c
      ensures Valid()
      ensures added
           == (!old(Waits(c, force, walkDelay, now)) && (Merges(old(conditions), c) || c.kind != OtherKind || starts))
      ensures conditions
           == if !added || Merges(old(conditions), c) then old(conditions)
              else AfterAdding(old(conditions) + [c], c.ctype, old(OppositeInForce(c.ctype, now)), walkDelay)
      ensures added && !Merges(old(conditions), c) && !isMonster && !(c.ctype == CONDITION_HASTE && walkDelay > 0) ==>
                !OppositeInForce(c.ctype, now)
      ensures c in conditions ==> c.EffectOf(isPlayer) == old(Given(c, isPlayer, draw))
      ensures forall p <- old(conditions) :: p.EffectOf(isPlayer)
                == if added && SameSort(p, c) && old(Accepts(p, c, now)) then old(Given(c, isPlayer, draw))
                   else old(p.EffectOf(isPlayer))
      // when the conditions end
      ensures c in conditions ==> c.ticks == old(c.ticks) && c.endTime == old(c.Begun(now))
      ensures forall p <- old(conditions) ::
                if added && SameSort(p, c) && old(Accepts(p, c, now))
                then p.ticks == old(c.ticks) && p.endTime == old(c.ticks) + now
                else p.ticks == old(p.ticks) && p.endTime == old(p.endTime)
    {
      hide Creature.AfterAdding, Creature.InForce, Creature.OppositeInForce, Given, Accepts, Condition.EffectOf, Acts,
           Creature.Mirrored, Creature.Balanced, Condition.Begun;
      if !force && c.ctype == CONDITION_HASTE {
        var paralyzed := HasCondition(CONDITION_PARALYZE, now);
        if paralyzed && walkDelay > 0 {
          return false;
        }
      }
      added := true;
      var k := GetCondition(c);
      if k < |conditions| {
        Refresh(k, c, now, draw);
        return;
      }
      if c.kind == OtherKind && !starts {
        return false;
      }
      Append(c, now, draw);
      OnAddCondition(c.ctype, walkDelay, now);
    }

    /** Creature::getCondition: the place of the condition of this sort, or the length of the list. */
    method GetCondition(c: Condition) returns (k: nat)
      ensures k <= |conditions| && forall j | 0 <= j < k :: !SameSort(conditions[j], c)
      ensures k < |conditions| ==> SameSort(conditions[k], c)
    {
      k := 0;
      while k < |conditions|
        invariant k <= |conditions| && forall j | 0 <= j < k :: !SameSort(conditions[j], c)
      {
        if SameSort(conditions[k], c) {
          return;
        }
        k := k + 1;
      }
    }

    /** startCondition and push_back. */
    method Append(c: Condition, now: int, draw: Effect)
      requires Valid() && forall p <- conditions :: !SameSort(p, c)
      modifies this, c
      ensures Valid() && conditions == old(conditions) + [c] && suppressed == old(suppressed)
      ensures c.EffectOf(isPlayer) == old(Given(c, isPlayer, draw))
      ensures c.ticks == old(c.ticks) && c.endTime == old(c.Begun(now))
      ensures OppositeInForce(c.ctype, now) == old(OppositeInForce(c.ctype, now))
    {
      hide Acts, Accepts, Given, Add, Subtract, Condition.EffectOf;
      ghost var total := TotalEffect(effects);
      assert c !in conditions;
      StartCondition(c, now, draw);
      TotalAppend(effects, c.EffectOf(isPlayer));
      AddBack(total, base, total, c.EffectOf(isPlayer));
      assert Mirrored();
      effects := effects + [c.EffectOf(isPlayer)];
      if Opposite(c.ctype).Some? {
        StillInForce(c, Opposite(c.ctype).value, now);
      }
      conditions := conditions + [c];
    }

    /** A condition of another type at the end of the list changes nothing about a type. */
    lemma StillInForce(c: Condition, ctype: nat, now: int)
      requires c.ctype != ctype
      ensures InForce(ctype, now) == (ctype !in suppressed && exists p <- conditions + [c] :: Acts(p, ctype, now))
    {
      assert !Acts(c, ctype, now);
    }

    /** A condition leaves the list and takes its effect back. */
    method EraseAt(k: nat)
      requires Valid() && k < |conditions|
      modifies this
      ensures Valid() && conditions == Containment.Remove(old(conditions), k) && suppressed == old(suppressed)
    {
      var c := conditions[k];
      ghost var total := TotalEffect(effects);
      conditions := Containment.Remove(conditions, k);
      TotalRemove(effects, k);
      AddBack(total, base, effects[k], total);
      effects := Containment.Remove(effects, k);
      EndCondition(c);
    }

    /** Creature::removeCondition by type; a paralysis that must wait stops it. */
    method RemoveConditions(ctype: nat, delayed: bool)
      requires Valid()
      modifies this
      ensures Valid() && suppressed == old(suppressed)
      ensures conditions
           == if delayed && ctype == CONDITION_PARALYZE then old(conditions) else Without(old(conditions), ctype)
    {
      hide Distinct, Mirrored, Balanced, Without;
      var k := 0;
      while k < |conditions|
        invariant k <= |conditions| && Valid() && suppressed == old(suppressed)
        invariant forall j | 0 <= j < k :: conditions[j].ctype != ctype
        invariant Without(conditions, ctype) == Without(old(conditions), ctype)
        invariant delayed && ctype == CONDITION_PARALYZE ==> conditions == old(conditions)
        decreases |conditions| - k
      {
        if conditions[k].ctype != ctype {
          k := k + 1;
        } else if delayed && ctype == CONDITION_PARALYZE {
          return;
        } else {
          WithoutSkips(conditions, k, ctype);
          EraseAt(k);
        }
      }
      WithoutAbsent(conditions, ctype);
    }

    /** The time a condition has left after a turn; -1 stands for no end. */
    function Left(ticks: int, interval: int): int
    {
      if ticks == -1 then -1 else if ticks < interval then 0 else ticks - interval
    }

    /** Condition::executeCondition: the time that is left, and whether the condition goes on. */
    method Execute(c: Condition, interval: int, now: int) returns (goesOn: bool)
      requires Valid()
      modifies c`ticks
      ensures Valid() && goesOn == old(c.Stays(now)) == c.Stays(now)
      ensures c.ticks == Left(old(c.ticks), interval)
    {
      if c.ticks == -1 {
        return true;
      }
      c.ticks := if c.ticks - interval < 0 then 0 else c.ticks - interval;
      assert c.EffectOf(isPlayer) == old(c.EffectOf(isPlayer));
      goesOn := c.endTime >= now;
    }

    /** Of two places in the list, each holds another condition. */
    lemma OnePlace(k: nat)
      requires Distinct() && k < |conditions|
      ensures conditions[k] !in conditions[k + 1..] && conditions[k] in conditions
      ensures conditions[k..] == [conditions[k]] + conditions[k + 1..]
      ensures Containment.Remove(conditions, k)[k..] == conditions[k + 1..]
      ensures forall c :: c in Containment.Remove(conditions, k) <==> c in conditions && c != conditions[k]
    {
      RemoveMembers(conditions, k);
    }

    /** Creature::executeConditions: one turn for each condition; those whose time is up end. */
    method ExecuteConditions(interval: int, now: int)
      requires Valid()
      modifies this, conditions
      ensures Valid() && forall c <- conditions :: c in old(conditions)
      ensures forall c <- old(conditions) :: c in conditions <==> old(c.Stays(now))
      ensures forall c <- old(conditions) :: c.endTime == old(c.endTime) && c.ticks == Left(old(c.ticks), interval)
    {
      hide Distinct, Balanced, Mirrored;
      var k := 0;
      while k < |conditions|
        invariant k <= |conditions| && Valid() && forall c <- conditions :: c in old(conditions)
        invariant forall c <- old(conditions) :: c in conditions[..k] ==> old(c.Stays(now))
        invariant forall c <- old(conditions) ::
                    c.ticks == if c in conditions[k..] then old(c.ticks) else Left(old(c.ticks), interval)
        invariant forall c <- old(conditions) :: c.endTime == old(c.endTime)
        invariant forall c <- old(conditions) :: old(c.Stays(now)) ==> c in conditions
        decreases |conditions| - k
      {
        var c := conditions[k];
        OnePlace(k);
        var goesOn := Execute(c, interval, now);
        if goesOn {
          k := k + 1;
        } else {
          EraseAt(k);
        }
      }
    }
  }

  lemma RemoveMembers(s: seq<Condition>, k: nat)
    requires k < |s| && forall i, j | 0 <= i < j < |s| :: s[i] != s[j]
    ensures forall c :: c in Containment.Remove(s, k) <==> c in s && c != s[k]
  {
    var r := Containment.Remove(s, k);
    forall c | c in s && c != s[k] ensures c in r {
      var j :| 0 <= j < |s| && s[j] == c;
      assert r[if j < k then j else j - 1] == c;
    }
  }
}
