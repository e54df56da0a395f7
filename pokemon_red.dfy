/** The Pokemon Red reward terms of src/games/pokemon_red.py.

    Every term reads the state table through `get(name)`; here the table is
    the map `values` (the manager's `state_values`) handed to each call.
    Each term's mutable fields form a small state, and each `Calculate`
    method is proved against a step function from the old state and the
    table to the new state and the returned reward.  A missing name, an int
    where the code iterates, a list where the code needs an int, and `max`
    of an empty list are failures, with the state changed exactly as far as
    the source got before raising. */
module PokemonRed {
  import opened Wrappers
  import opened GameState
  import Reward

  type Values = map<string, Value>

  /** `get(name)` where the code iterates over the result: an int raises `TypeError`. */
  function GetList(values: Values, name: string): (r: Result<seq<nat>>)
    ensures r.Success? <==> name in values && values[name].Sequence?
    ensures r.Success? ==> r.value == values[name].ns
    ensures name !in values ==> r == Failure(KeyError(name))
  {
    var v :- Lookup(values, name);
    if v.Sequence? then Success(v.ns) else Failure(TypeError(name))
  }

  /** `get(name)` where the code needs an int (`bin(...)`): a list raises `TypeError`. */
  function GetInt(values: Values, name: string): (r: Result<nat>)
    ensures r.Success? <==> name in values && values[name].Scalar?
    ensures r.Success? ==> r.value == values[name].n
    ensures name !in values ==> r == Failure(KeyError(name))
  {
    var v :- Lookup(values, name);
    if v.Scalar? then Success(v.n) else Failure(TypeError(name))
  }

  function Sum(xs: seq<nat>): nat {
    if xs == [] then 0 else xs[0] + Sum(xs[1..])
  }

  lemma {:induction false} SumBound(xs: seq<nat>, bound: nat)
    requires forall i :: 0 <= i < |xs| ==> xs[i] <= bound
    ensures Sum(xs) <= bound * |xs|
  {
    if xs != [] {
      SumBound(xs[1..], bound);
    }
  }

  ///////////////////////////////////////////////////////////////////////////
  // EventReward

  /** `sum([bit_count(flag) for flag in event_flags])` */
  function SumBitCounts(flags: seq<nat>): (r: nat)
    ensures r == 0 <==> forall i :: 0 <= i < |flags| ==> flags[i] == 0
    ensures (forall i :: 0 <= i < |flags| ==> flags[i] < 256) ==> r <= 8 * |flags|
  {
    if flags == [] then 0 else Reward.BitCount(flags[0]) + SumBitCounts(flags[1..])
  }

  /** The flags set at the start of a game, which do not count. */
  const BaseEventFlags: nat := 13

  /** `get_all_events_reward`: the set event flags beyond the base ones, never below zero. */
  function AllEventsReward(flags: seq<nat>): (r: nat)
    ensures r <= SumBitCounts(flags)
    ensures r == 0 <==> SumBitCounts(flags) <= BaseEventFlags
    ensures r > 0 ==> r + BaseEventFlags == SumBitCounts(flags)
  {
    if SumBitCounts(flags) > BaseEventFlags then SumBitCounts(flags) - BaseEventFlags else 0
  }

  /** One `calculate`: the running maximum of the events reward. */
  function EventStep(maxEventRew: nat, values: Values): (r: (nat, Result<real>))
    ensures r.1.Failure? <==> GetList(values, "event_flags").Failure?
    ensures r.1.Failure? ==> r.0 == maxEventRew && r.1.error == GetList(values, "event_flags").error
    ensures r.1.Success? ==> r.1.value == r.0 as real
    ensures r.0 >= maxEventRew
    ensures r.1.Success? ==>
      var cur := AllEventsReward(GetList(values, "event_flags").value);
      r.0 >= cur && (r.0 == cur || r.0 == maxEventRew)
  {
    match GetList(values, "event_flags")
    case Failure(e) => (maxEventRew, Failure(e))
    case Success(flags) =>
      var cur := AllEventsReward(flags);
      var m := if cur > maxEventRew then cur else maxEventRew;
      (m, Success(m as real))
  }

  /** The running maximum after a series of `calculate` calls. */
  function EventRun(maxEventRew: nat, tables: seq<Values>): nat
    decreases |tables|
  {
    if tables == [] then maxEventRew else EventRun(EventStep(maxEventRew, tables[0]).0, tables[1..])
  }

  /** The running maximum never falls, and it is at least every events reward seen along the way. */
  lemma {:induction false} EventRunIsMaximum(maxEventRew: nat, tables: seq<Values>)
    ensures EventRun(maxEventRew, tables) >= maxEventRew
    ensures forall i :: 0 <= i < |tables| && GetList(tables[i], "event_flags").Success? ==>
      EventRun(maxEventRew, tables) >= AllEventsReward(GetList(tables[i], "event_flags").value)
    decreases |tables|
  {
    if tables != [] {
      var m := EventStep(maxEventRew, tables[0]).0;
      EventRunIsMaximum(m, tables[1..]);
      forall i | 0 <= i < |tables| && GetList(tables[i], "event_flags").Success?
        ensures EventRun(maxEventRew, tables) >= AllEventsReward(GetList(tables[i], "event_flags").value)
      {
        if i > 0 {
          assert tables[i] == tables[1..][i - 1];
        }
      }
    }
  }

  class EventReward {
    const name: string
    var maxEventRew: nat

    constructor (name: string)
      ensures this.name == name && maxEventRew == 0
    {
      this.name := name;
      maxEventRew := 0;
    }

    method Calculate(values: Values) returns (r: Result<real>)
      modifies this
      ensures (maxEventRew, r) == EventStep(old(maxEventRew), values)
    {
      var flags :- GetList(values, "event_flags");
      var curRew := AllEventsReward(flags);
      maxEventRew := if curRew > maxEventRew then curRew else maxEventRew;
      return Success(maxEventRew as real);
    }

    method Reset()
      modifies this
      ensures maxEventRew == 0
    {
      maxEventRew := 0;
    }
  }

  ///////////////////////////////////////////////////////////////////////////
  // HealthReward

  /** The fields of HealthReward; `partySize` holds whatever `get("party_size")` last returned. */
  datatype HealthState = HealthState(lastHealth: real, diedCount: nat, totalHealingRew: real, partySize: Value)

  const InitialHealth := HealthState(0.0, 0, 0.0, Scalar(0))

  /** `read_hp_fraction` on the two lists: the summed current HP over the summed maximum HP, the divisor at least 1. */
  function HpFraction(current: seq<nat>, maximum: seq<nat>): (r: real)
    ensures r >= 0.0
    ensures r == 0.0 <==> Sum(current) == 0
    ensures Sum(current) <= Sum(maximum) ==> r <= 1.0
    ensures Sum(maximum) > 0 ==> r * Sum(maximum) as real == Sum(current) as real
  {
    var hpSum := Sum(current);
    var maxHpSum := if Sum(maximum) > 1 then Sum(maximum) else 1;
    Quotient(hpSum, maxHpSum);
    hpSum as real / maxHpSum as real
  }

  /** Facts about a quotient of naturals with a positive divisor. */
  lemma Quotient(a: nat, b: nat)
    requires b >= 1
    ensures var q := a as real / b as real;
      && q * b as real == a as real && q >= 0.0 && (q == 0.0 <==> a == 0) && (a <= b ==> q <= 1.0)
  {
    var q := a as real / b as real;
    assert q * b as real == a as real;
  }

  /** `read_hp_fraction`, which reads "party_current_hp" first and "party_max_hp" second. */
  function ReadHpFraction(values: Values): (r: Result<real>)
    ensures r.Success? <==> GetList(values, "party_current_hp").Success? && GetList(values, "party_max_hp").Success?
    ensures r.Success? ==> r.value == HpFraction(values["party_current_hp"].ns, values["party_max_hp"].ns)
    ensures r.Success? ==> r.value >= 0.0
  {
    var current :- GetList(values, "party_current_hp");
    var maximum :- GetList(values, "party_max_hp");
    Success(HpFraction(current, maximum))
  }

  /** One `calculate`.  A rise in health with an unchanged party is healing
      when the last health was positive and a revival (a counted death)
      otherwise; the new health and party size are stored either way.  The
      party size is read in the condition only when health rose, and read
      again after `last_health` has been stored. */
  function HealthStep(s: HealthState, values: Values): (r: (HealthState, Result<real>))
    ensures r.0.totalHealingRew >= s.totalHealingRew
    ensures s.diedCount <= r.0.diedCount <= s.diedCount + 1
    ensures r.1.Success? <==> ReadHpFraction(values).Success? && "party_size" in values
    ensures r.1.Success? ==> r.1.value == r.0.totalHealingRew
    ensures r.1.Success? ==> r.0.lastHealth == ReadHpFraction(values).value && r.0.partySize == values["party_size"]
    ensures ReadHpFraction(values).Failure? ==> r == (s, Failure(ReadHpFraction(values).error))
    ensures ReadHpFraction(values).Success? && "party_size" !in values ==>
      && r.1 == Failure(KeyError("party_size"))
      && r.0 == if ReadHpFraction(values).value > s.lastHealth then s else s.(lastHealth := ReadHpFraction(values).value)
  {
    match ReadHpFraction(values)
    case Failure(e) => (s, Failure(e))
    case Success(curHealth) =>
      var rose := curHealth > s.lastHealth;
      if rose && "party_size" !in values then
        (s, Failure(KeyError("party_size")))
      else
        var s1 :=
          if rose && values["party_size"] == s.partySize then
            if s.lastHealth > 0.0 then s.(totalHealingRew := s.totalHealingRew + (curHealth - s.lastHealth) * 4.0)
            else s.(diedCount := s.diedCount + 1)
          else s;
        var s2 := s1.(lastHealth := curHealth);
        match Lookup(values, "party_size")
        case Failure(e) => (s2, Failure(e))
        case Success(partySize) => (s2.(partySize := partySize), Success(s2.totalHealingRew))
  }

  /** Healing: health rose from a positive value with the party unchanged,
      so the total grows by four times the rise and no death is counted. */
  lemma HealStep(s: HealthState, values: Values)
    requires ReadHpFraction(values).Success? && "party_size" in values
    requires ReadHpFraction(values).value > s.lastHealth > 0.0
    requires values["party_size"] == s.partySize
    ensures HealthStep(s, values).0.totalHealingRew == s.totalHealingRew + 4.0 * (ReadHpFraction(values).value - s.lastHealth)
    ensures HealthStep(s, values).0.diedCount == s.diedCount
  {
  }

  /** Revival: health rose from zero with the party unchanged, so one death
      is counted and the total stays. */
  lemma DeathStep(s: HealthState, values: Values)
    requires ReadHpFraction(values).Success? && "party_size" in values
    requires ReadHpFraction(values).value > s.lastHealth == 0.0
    requires values["party_size"] == s.partySize
    ensures HealthStep(s, values).0.diedCount == s.diedCount + 1
    ensures HealthStep(s, values).0.totalHealingRew == s.totalHealingRew
  {
  }

  /** A change of party size makes any rise in health count for nothing. */
  lemma PartyChangeStep(s: HealthState, values: Values)
    requires ReadHpFraction(values).Success? && "party_size" in values
    requires values["party_size"] != s.partySize
    ensures HealthStep(s, values).0 == s.(lastHealth := ReadHpFraction(values).value, partySize := values["party_size"])
  {
  }

  /** No rise in health: the condition fails at its first operand, so only
      the stored health and party size change. */
  lemma NoRiseStep(s: HealthState, values: Values)
    requires ReadHpFraction(values).Success? && "party_size" in values
    requires ReadHpFraction(values).value <= s.lastHealth
    ensures HealthStep(s, values).0 == s.(lastHealth := ReadHpFraction(values).value, partySize := values["party_size"])
    ensures HealthStep(s, values).1 == Success(s.totalHealingRew)
  {
  }

  /** The state after a series of `calculate` calls, failures included. */
  function HealthRun(s: HealthState, tables: seq<Values>): HealthState
    decreases |tables|
  {
    if tables == [] then s else HealthRun(HealthStep(s, tables[0]).0, tables[1..])
  }

  /** Over any series of calls the healing total never falls, deaths only
      accumulate, and the stored health stays a non-negative fraction. */
  lemma {:induction false} HealthRunMonotone(s: HealthState, tables: seq<Values>)
    requires s.lastHealth >= 0.0
    ensures HealthRun(s, tables).totalHealingRew >= s.totalHealingRew
    ensures HealthRun(s, tables).diedCount >= s.diedCount
    ensures HealthRun(s, tables).lastHealth >= 0.0
    decreases |tables|
  {
    if tables != [] {
      var s' := HealthStep(s, tables[0]).0;
      assert s'.lastHealth >= 0.0 by {
        match ReadHpFraction(tables[0])
        case Failure(_) =>
        case Success(cur) =>
      }
      HealthRunMonotone(s', tables[1..]);
    }
  }

  class HealthReward {
    const name: string
    var lastHealth: real
    var diedCount: nat
    var totalHealingRew: real
    var partySize: Value

    constructor (name: string)
      ensures this.name == name && State() == InitialHealth
    {
      this.name := name;
      lastHealth, diedCount, totalHealingRew, partySize := 0.0, 0, 0.0, Scalar(0);
    }

    function State(): HealthState
      reads this
    {
      HealthState(lastHealth, diedCount, totalHealingRew, partySize)
    }

    method Calculate(values: Values) returns (r: Result<real>)
      modifies this
      ensures (State(), r) == HealthStep(old(State()), values)
    {
      var curHealth :- ReadHpFraction(values);
      if curHealth > lastHealth {
        var size :- Lookup(values, "party_size");
        if size == partySize {
          if lastHealth > 0.0 {
            var healAmount := curHealth - lastHealth;
            totalHealingRew := totalHealingRew + healAmount * 4.0;
          } else {
            diedCount := diedCount + 1;
          }
        }
      }
      lastHealth := curHealth;
      var size :- Lookup(values, "party_size");
      partySize := size;
      return Success(totalHealingRew);
    }

    method Reset()
      modifies this
      ensures State() == InitialHealth
    {
      lastHealth, diedCount, totalHealingRew, partySize := 0.0, 0, 0.0, Scalar(0);
    }
  }

  ///////////////////////////////////////////////////////////////////////////
  // BadgeReward

  /** `calculate`: the number of badges, one bit each in the "badges" byte. */
  function BadgeValue(values: Values): (r: Result<real>)
    ensures r.Success? <==> GetInt(values, "badges").Success?
    ensures r.Success? ==> r.value == Reward.BitCount(values["badges"].n) as real
    ensures r.Success? && values["badges"].n < 256 ==> 0.0 <= r.value <= 8.0
  {
    var badges :- GetInt(values, "badges");
    Success(Reward.BitCount(badges) as real)
  }

  /** Three badges, 0b00000111, give 3. */
  lemma ThreeBadges(values: Values)
    requires "badges" in values && values["badges"] == Scalar(7)
    ensures BadgeValue(values) == Success(3.0)
  {
    assert Reward.Popcount(1) == 1;
    assert Reward.Popcount(3) == 2;
    assert Reward.Popcount(7) == 3;
  }

  /** Stateless: `reset` is the inherited no-op. */
  class BadgeReward {
    const name: string

    constructor (name: string)
      ensures this.name == name
    {
      this.name := name;
    }

    method Calculate(values: Values) returns (r: Result<real>)
      ensures r == BadgeValue(values)
    {
      var badges :- GetInt(values, "badges");
      return Success(Reward.BitCount(badges) as real);
    }
  }

  ///////////////////////////////////////////////////////////////////////////
  // MaxOpLevelReward

  /** `max(xs)` */
  function Max(xs: seq<nat>): (r: nat)
    requires xs != []
    ensures r in xs
    ensures forall i :: 0 <= i < |xs| ==> xs[i] <= r
  {
    if |xs| == 1 then xs[0]
    else
      var rest := Max(xs[1..]);
      assert forall i :: 1 <= i < |xs| ==> xs[i] == xs[1..][i - 1];
      if xs[0] > rest then xs[0] else rest
  }

  /** One `calculate`: the running maximum of the strongest opponent's level
      less 5, which starts at 0, reported at a fifth of its value. */
  function OpLevelStep(maxOpponentLevel: nat, values: Values): (r: (nat, Result<real>))
    ensures r.0 >= maxOpponentLevel
    ensures r.1.Success? <==> GetList(values, "opponent_levels").Success? && values["opponent_levels"].ns != []
    ensures r.1.Failure? ==> r.0 == maxOpponentLevel
    ensures GetList(values, "opponent_levels").Success? && values["opponent_levels"].ns == [] ==>
      r.1 == Failure(ValueError("max() arg is an empty sequence"))
    ensures r.1.Success? ==>
      var levels := values["opponent_levels"].ns;
      && r.1.value == r.0 as real * 0.2 && r.1.value >= 0.0
      && (forall i :: 0 <= i < |levels| ==> r.0 + 5 >= levels[i])
      && (r.0 == maxOpponentLevel || r.0 + 5 in levels)
  {
    match GetList(values, "opponent_levels")
    case Failure(e) => (maxOpponentLevel, Failure(e))
    case Success(levels) =>
      if levels == [] then (maxOpponentLevel, Failure(ValueError("max() arg is an empty sequence")))
      else
        var opponentLevel := Max(levels) - 5;
        var m := if maxOpponentLevel > opponentLevel then maxOpponentLevel else opponentLevel;
        (m, Success(m as real * 0.2))
  }

  /** `reset` is the inherited no-op, so the running maximum survives episodes. */
  class MaxOpLevelReward {
    const name: string
    var maxOpponentLevel: nat

    constructor (name: string)
      ensures this.name == name && maxOpponentLevel == 0
    {
      this.name := name;
      maxOpponentLevel := 0;
    }

    method Calculate(values: Values) returns (r: Result<real>)
      modifies this
      ensures (maxOpponentLevel, r) == OpLevelStep(old(maxOpponentLevel), values)
    {
      var levels :- GetList(values, "opponent_levels");
      if levels == [] {
        return Failure(ValueError("max() arg is an empty sequence"));
      }
      var opponentLevel := Max(levels) - 5;
      maxOpponentLevel := if maxOpponentLevel > opponentLevel then maxOpponentLevel else opponentLevel;
      return Success(maxOpponentLevel as real * 0.2);
    }
  }

  ///////////////////////////////////////////////////////////////////////////
  // LevelSumReward

  const ExploreThresh: nat := 22
  const ScaleFactor: nat := 4

  /** `get_levels_sum`: levels above 2 summed, less the starter's 4, never below zero. */
  function LevelsSum(levels: seq<nat>): (r: nat)
    ensures r <= Sum(levels)
    ensures (forall i :: 0 <= i < |levels| ==> levels[i] <= 2) ==> r == 0
  {
    var s := Sum(LevelsAboveTwo(levels));
    LevelsAboveTwoBound(levels);
    if s > 4 then s - 4 else 0
  }

  /** `[max(level - 2, 0) for level in levels]` */
  function LevelsAboveTwo(levels: seq<nat>): (r: seq<nat>)
    ensures |r| == |levels|
    ensures forall i :: 0 <= i < |r| ==> r[i] == if levels[i] > 2 then levels[i] - 2 else 0
  {
    seq(|levels|, i requires 0 <= i < |levels| => if levels[i] > 2 then levels[i] - 2 else 0)
  }

  lemma {:induction false} LevelsAboveTwoBound(levels: seq<nat>)
    ensures Sum(LevelsAboveTwo(levels)) <= Sum(levels)
    ensures (forall i :: 0 <= i < |levels| ==> levels[i] <= 2) ==> Sum(LevelsAboveTwo(levels)) == 0
  {
    if levels != [] {
      LevelsAboveTwoBound(levels[1..]);
      assert LevelsAboveTwo(levels)[1..] == LevelsAboveTwo(levels[1..]);
    }
  }

  /** Sums below 22 count in full; beyond that a quarter of the excess counts. */
  function Scaled(levelSum: nat): (r: real)
    ensures 0.0 <= r <= levelSum as real
    ensures levelSum < ExploreThresh ==> r == levelSum as real
    ensures levelSum >= ExploreThresh ==> r >= ExploreThresh as real
  {
    if levelSum < ExploreThresh then levelSum as real
    else (levelSum - ExploreThresh) as real / ScaleFactor as real + ExploreThresh as real
  }

  /** A larger sum never scales to less. */
  lemma ScaledMonotone(a: nat, b: nat)
    requires a <= b
    ensures Scaled(a) <= Scaled(b)
  {
    if a < ExploreThresh <= b {
      assert Scaled(a) < ExploreThresh as real;
    }
  }

  /** Levels 10 and 12 give (8 + 10) - 4 = 14 below the threshold, so 14; levels 10 and 14 give 16; levels 20 and 20 give 32, of which the 10 above 22 count a quarter. */
  lemma LevelSumExample()
    ensures LevelsSum([10, 12]) == 14 && Scaled(14) == 14.0
    ensures LevelsSum([10, 14]) == 16 && Scaled(16) == 16.0
    ensures LevelsSum([20, 20]) == 32 && Scaled(32) == 24.5
  {
    assert LevelsAboveTwo([10, 12]) == [8, 10];
    SumPair(8, 10);
    assert LevelsSum([10, 12]) == 14;
    assert LevelsAboveTwo([10, 14]) == [8, 12];
    SumPair(8, 12);
    assert LevelsSum([10, 14]) == 16;
    assert LevelsAboveTwo([20, 20]) == [18, 18];
    SumPair(18, 18);
    assert LevelsSum([20, 20]) == 32;
  }

  lemma SumPair(a: nat, b: nat)
    ensures Sum([a, b]) == a + b
  {
    assert [a, b][1..] == [b];
    assert [b][1..] == [];
    assert Sum([b]) == b + Sum([]);
  }

  datatype LevelState = LevelState(maxLevelRew: real, levelsSatisfied: bool)

  const InitialLevel := LevelState(0.0, false)

  /** One `calculate`: the running maximum of the scaled level sum. */
  function LevelStep(s: LevelState, values: Values): (r: (LevelState, Result<real>))
    ensures r.0.maxLevelRew >= s.maxLevelRew && r.0.levelsSatisfied == s.levelsSatisfied
    ensures r.1.Failure? <==> GetList(values, "party_levels").Failure?
    ensures r.1.Failure? ==> r.0 == s
    ensures r.1.Success? ==>
      var cur := Scaled(LevelsSum(values["party_levels"].ns));
      r.1.value == r.0.maxLevelRew && r.0.maxLevelRew >= cur && (r.0.maxLevelRew == cur || r.0.maxLevelRew == s.maxLevelRew)
  {
    match GetList(values, "party_levels")
    case Failure(e) => (s, Failure(e))
    case Success(levels) =>
      var scaled := Scaled(LevelsSum(levels));
      var m := if s.maxLevelRew > scaled then s.maxLevelRew else scaled;
      (s.(maxLevelRew := m), Success(m))
  }

  class LevelSumReward {
    const name: string
    var maxLevelRew: real
    /** Never read; `reset` clears it. */
    var levelsSatisfied: bool

    constructor (name: string)
      ensures this.name == name && State() == InitialLevel
    {
      this.name := name;
      maxLevelRew, levelsSatisfied := 0.0, false;
    }

    function State(): LevelState
      reads this
    {
      LevelState(maxLevelRew, levelsSatisfied)
    }

    method Calculate(values: Values) returns (r: Result<real>)
      modifies this
      ensures (State(), r) == LevelStep(old(State()), values)
    {
      var levels :- GetList(values, "party_levels");
      var levelSum := LevelsSum(levels);
      var scaled: real;
      if levelSum < ExploreThresh {
        scaled := levelSum as real;
      } else {
        scaled := (levelSum - ExploreThresh) as real / ScaleFactor as real + ExploreThresh as real;
      }
      maxLevelRew := if maxLevelRew > scaled then maxLevelRew else scaled;
      return Success(maxLevelRew);
    }

    method Reset()
      modifies this
      ensures State() == InitialLevel
    {
      maxLevelRew, levelsSatisfied := 0.0, false;
    }
  }
}
