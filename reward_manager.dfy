/** `RewardManager` of src/reward.py and its Pokemon Red subclass.

    The manager holds an ordered list of (term, weight) items.  The terms
    of the source are objects of six classes sharing an abstract base
    class; here a term is a value of the closed union `Term`, holding the
    fields its class's `calculate` and `reset` change, and `Step` is the
    step function each class's `Calculate` method is proved against.  The
    loop of `update` is written once for any `calculate` (the abstract
    base class's view): it calls every term in list order, writes each
    weighted score into the name -> score table, and the result is the sum
    of the whole table, entries left from earlier calls included.  The
    first term that raises ends the update with the table written up to
    that item. */
module RewardAggregation {
  import opened Wrappers
  import opened VisualUtil
  import opened GameState
  import Reward
  import PokemonRed

  type Values = map<string, Value>

  /** A term with the fields that its `calculate` and `reset` change. */
  datatype Term =
    | Explore(similarFrameDist: real, explore: Reward.ExploreState)
    | Event(maxEventRew: nat)
    | Heal(health: PokemonRed.HealthState)
    | Badge
    | OpLevel(maxOpponentLevel: nat)
    | Level(level: PokemonRed.LevelState)

  /** The class passed to `add_reward`, with the keyword arguments it takes. */
  datatype TermKind = ExploreKind(similarFrameDist: real) | EventKind | HealKind | BadgeKind | OpLevelKind | LevelKind

  function KindOf(t: Term): TermKind {
    match t
    case Explore(d, _) => ExploreKind(d)
    case Event(_) => EventKind
    case Heal(_) => HealKind
    case Badge => BadgeKind
    case OpLevel(_) => OpLevelKind
    case Level(_) => LevelKind
  }

  /** `explore_weight` and `base_explore` as ExplorationReward's constructor sets them. */
  const ExploreWeight: real := 1.0
  const BaseExplore: real := 0.0

  /** `reward_type(name, ...)`: a newly constructed term of the given class. */
  function NewTerm(kind: TermKind): (t: Term)
    ensures KindOf(t) == kind
  {
    match kind
    case ExploreKind(d) => Explore(d, Reward.ExploreState([], false))
    case EventKind => Event(0)
    case HealKind => Heal(PokemonRed.InitialHealth)
    case BadgeKind => Badge
    case OpLevelKind => OpLevel(0)
    case LevelKind => Level(PokemonRed.InitialLevel)
  }

  /** One `calculate` of term t; the exploration term reads the frame, the others the state values. */
  function Step(t: Term, values: Values, frame: Image, compress: Compressor, dist: Reward.Distance): (r: (Term, Result<real>))
    ensures KindOf(r.0) == KindOf(t)
  {
    match t
    case Explore(d, s) =>
      var r := Reward.ExploreStep(s, frame, d, ExploreWeight, BaseExplore, compress, dist); (Explore(d, r.0), r.1)
    case Event(m) => var r := PokemonRed.EventStep(m, values); (Event(r.0), r.1)
    case Heal(s) => var r := PokemonRed.HealthStep(s, values); (Heal(r.0), r.1)
    case Badge => (t, PokemonRed.BadgeValue(values))
    case OpLevel(m) => var r := PokemonRed.OpLevelStep(m, values); (OpLevel(r.0), r.1)
    case Level(s) => var r := PokemonRed.LevelStep(s, values); (Level(r.0), r.1)
  }

  /** `reset`: the base class's `reset` does nothing, so the badge and
      opponent-level terms keep their state. */
  function ResetTerm(t: Term): (r: Term)
    ensures KindOf(r) == KindOf(t)
  {
    match t
    case Explore(d, s) => Explore(d, Reward.ExploreState([], s.levelsSatisfied))
    case Event(_) => Event(0)
    case Heal(_) => Heal(PokemonRed.InitialHealth)
    case Badge => t
    case OpLevel(_) => t
    case Level(_) => Level(PokemonRed.InitialLevel)
  }

  /** Resetting is idempotent, the opponent-level ratchet survives it, and
      the other terms return to their initial state, the exploration term
      keeping only its gating flag. */
  lemma ResetTermProperties(t: Term)
    ensures ResetTerm(ResetTerm(t)) == ResetTerm(t)
    ensures t.OpLevel? || t.Badge? ==> ResetTerm(t) == t
    ensures t.Event? || t.Heal? || t.Level? ==> ResetTerm(t) == NewTerm(KindOf(t))
    ensures t.Explore? ==> ResetTerm(t).explore.index == [] && ResetTerm(t).explore.levelsSatisfied == t.explore.levelsSatisfied
  {
  }

  /** A term that raises keeps its state, except that the healing term has
      already stored the new health when the party size turns out missing. */
  lemma FailedStepState(t: Term, values: Values, frame: Image, compress: Compressor, dist: Reward.Distance)
    ensures var r := Step(t, values, frame, compress, dist);
      r.1.Failure? ==> r.0 == t || (t.Heal? && r.0 == Heal(t.health.(lastHealth := r.0.health.lastHealth)))
  {
  }

  ///////////////////////////////////////////////////////////////////////////
  // The score table: a Python dict, so its keys keep insertion order.

  datatype ScoreTable = ScoreTable(names: seq<string>, scores: map<string, real>) {
    ghost predicate Valid() {
      && (forall i, j :: 0 <= i < j < |names| ==> names[i] != names[j])
      && (forall n :: n in scores <==> n in names)
    }
  }

  const EmptyScores := ScoreTable([], map[])

  /** `state_scores[name] = score`: overwrite in place, or append a new key. */
  function Put(d: ScoreTable, name: string, score: real): (r: ScoreTable)
    requires d.Valid()
    ensures r.Valid()
    ensures r.scores == d.scores[name := score]
    ensures name in d.scores ==> r.names == d.names
    ensures name !in d.scores ==> r.names == d.names + [name]
  {
    if name in d.scores then d.(scores := d.scores[name := score])
    else ScoreTable(d.names + [name], d.scores[name := score])
  }

  /** The sum of the scores of `names`, in order. */
  function SumOver(names: seq<string>, scores: map<string, real>): real
    requires forall n :: n in names ==> n in scores
  {
    if names == [] then 0.0 else SumOver(names[..|names| - 1], scores) + scores[names[|names| - 1]]
  }

  /** `total_reward`: the sum of every value in the table. */
  function Total(d: ScoreTable): real
    requires d.Valid()
  {
    SumOver(d.names, d.scores)
  }

  lemma {:induction false} SumOverUpdate(names: seq<string>, scores: map<string, real>, name: string, score: real)
    requires forall i, j :: 0 <= i < j < |names| ==> names[i] != names[j]
    requires forall n :: n in names ==> n in scores
    ensures SumOver(names, scores[name := score]) == SumOver(names, scores) + (if name in names then score - scores[name] else 0.0)
  {
    if names != [] {
      var init := names[..|names| - 1];
      assert forall n :: n in names <==> n in init || n == names[|names| - 1];
      SumOverUpdate(init, scores, name, score);
    }
  }

  /** Writing a score changes the total by the difference to the score it replaces (or by the score, for a new name). */
  lemma TotalPut(d: ScoreTable, name: string, score: real)
    requires d.Valid()
    ensures Total(Put(d, name, score)) == Total(d) + score - (if name in d.scores then d.scores[name] else 0.0)
  {
    SumOverUpdate(d.names, d.scores, name, score);
    if name !in d.scores {
      var r := Put(d, name, score);
      assert r.names[..|r.names| - 1] == d.names;
    }
  }

  ///////////////////////////////////////////////////////////////////////////
  // The manager

  /** A `(reward_item, weight)` pair of `reward_items`, with the term's name. */
  datatype RewardItem = RewardItem(name: string, term: Term, weight: real)

  /** What a term's `calculate` does: its new state and its score or exception. */
  type Calculate = Term -> (Term, Result<real>)

  /** Every term's `calculate` on the given state values and frame. */
  function TermCalculate(values: Values, frame: Image, compress: Compressor, dist: Reward.Distance): Calculate {
    t => Step(t, values, frame, compress, dist)
  }

  /** What each item's `calculate` gives from its term as it is before the
      update; the terms share no state, so these are the results of the update. */
  function Steps(items: seq<RewardItem>, calculate: Calculate): (steps: seq<(Term, Result<real>)>)
    ensures |steps| == |items|
  {
    seq(|items|, j requires 0 <= j < |items| => calculate(items[j].term))
  }

  /** The position of the first step that fails, or the number of steps. */
  function FirstFailure(steps: seq<(Term, Result<real>)>): (k: nat)
    ensures k <= |steps|
    ensures forall j :: 0 <= j < k ==> steps[j].1.Success?
    ensures k < |steps| ==> steps[k].1.Failure?
  {
    if steps == [] then 0
    else if steps[0].1.Failure? then 0
    else 1 + FirstFailure(steps[1..])
  }

  /** The items once the first n steps have taken effect and the later terms have not run. */
  function ItemsAfter(items: seq<RewardItem>, steps: seq<(Term, Result<real>)>, n: nat): (r: seq<RewardItem>)
    requires |items| == |steps|
    ensures |r| == |items|
    ensures forall j :: 0 <= j < |items| ==> r[j] == if j < n then items[j].(term := steps[j].0) else items[j]
  {
    seq(|items|, j requires 0 <= j < |items| => if j < n then items[j].(term := steps[j].0) else items[j])
  }

  /** `reward_scale * calculate() * weight` */
  function Weighted(scale: real, score: real, weight: real): real {
    scale * score * weight
  }

  /** The scores after the first n items of a successful prefix have written
      their weighted results under their names, in list order. */
  function ScoresWritten(scores: map<string, real>, items: seq<RewardItem>, steps: seq<(Term, Result<real>)>, scale: real, n: nat): map<string, real>
    requires n <= |items| == |steps|
    requires forall j :: 0 <= j < n ==> steps[j].1.Success?
  {
    if n == 0 then scores
    else ScoresWritten(scores, items, steps, scale, n - 1)[items[n - 1].name := Weighted(scale, steps[n - 1].1.value, items[n - 1].weight)]
  }

  /** The last item written under a name decides its score. */
  lemma {:induction false} ScoresWrittenLastWins(scores: map<string, real>, items: seq<RewardItem>, steps: seq<(Term, Result<real>)>, scale: real, n: nat, j: nat)
    requires n <= |items| == |steps|
    requires forall i :: 0 <= i < n ==> steps[i].1.Success?
    requires j < n && forall i :: j < i < n ==> items[i].name != items[j].name
    ensures var m := ScoresWritten(scores, items, steps, scale, n);
      items[j].name in m && m[items[j].name] == Weighted(scale, steps[j].1.value, items[j].weight)
  {
    if j < n - 1 {
      ScoresWrittenLastWins(scores, items, steps, scale, n - 1, j);
    }
  }

  /** A name no item wrote keeps the score it had, so entries from earlier updates stay in the total. */
  lemma {:induction false} ScoresWrittenUntouched(scores: map<string, real>, items: seq<RewardItem>, steps: seq<(Term, Result<real>)>, scale: real, n: nat, name: string)
    requires n <= |items| == |steps|
    requires forall i :: 0 <= i < n ==> steps[i].1.Success?
    requires forall i :: 0 <= i < n ==> items[i].name != name
    ensures var m := ScoresWritten(scores, items, steps, scale, n);
      (name in m <==> name in scores) && (name in scores ==> m[name] == scores[name])
  {
    if n > 0 {
      ScoresWrittenUntouched(scores, items, steps, scale, n - 1, name);
    }
  }

  /** When the items carry distinct names, as the Pokemon Red items do, a
      successful update leaves each item's own weighted result under its name. */
  lemma DistinctNamesScores(scores: map<string, real>, items: seq<RewardItem>, steps: seq<(Term, Result<real>)>, scale: real, j: nat)
    requires |items| == |steps| && j < |items|
    requires forall i :: 0 <= i < |items| ==> steps[i].1.Success?
    requires forall i, i' :: 0 <= i < i' < |items| ==> items[i].name != items[i'].name
    ensures var m := ScoresWritten(scores, items, steps, scale, |items|);
      items[j].name in m && m[items[j].name] == Weighted(scale, steps[j].1.value, items[j].weight)
  {
    ScoresWrittenLastWins(scores, items, steps, scale, |items|, j);
  }

  /** The loop of `update`: the items calculate in order, each success
      writing its weighted score into the table, until one raises; the
      item that raised keeps whatever its `calculate` changed. */
  method CalculateAll(items: seq<RewardItem>, scores: ScoreTable, scale: real, calculate: Calculate)
      returns (items': seq<RewardItem>, table: ScoreTable, outcome: Outcome)
    requires scores.Valid()
    ensures table.Valid()
    ensures var steps := Steps(items, calculate); var k := FirstFailure(steps);
      && items' == ItemsAfter(items, steps, k + 1)
      && table.scores == ScoresWritten(scores.scores, items, steps, scale, k)
      && (k < |items| ==> outcome == Fail(steps[k].1.error))
      && (k == |items| ==> outcome == Pass)
  {
    ghost var steps := Steps(items, calculate);
    ghost var k := FirstFailure(steps);
    items', table, outcome := items, scores, Pass;
    var i := 0;
    while i < |items| && outcome.Pass?
      invariant i <= |items| && |items'| == |items|
      invariant outcome.Pass? ==> i <= k
      invariant outcome.Fail? ==> i == k < |items| && outcome == Fail(steps[k].1.error)
      invariant forall j :: 0 <= j < |items| ==>
        items'[j] == if j < i || (j == i && outcome.Fail?) then items[j].(term := steps[j].0) else items[j]
      invariant table.Valid() && table.scores == ScoresWritten(scores.scores, items, steps, scale, i)
      decreases |items| - i, if outcome.Pass? then 1 else 0
    {
      var step := calculate(items'[i].term);
      assert step == steps[i];
      items' := items'[i := items'[i].(term := step.0)];
      if step.1.Failure? {
        outcome := Fail(step.1.error);
      } else {
        table := Put(table, items[i].name, Weighted(scale, step.1.value, items[i].weight));
        i := i + 1;
      }
    }
  }

  /** The state `update` leaves behind, from items, table and total before
      it and the calculation it runs: the items before the first raising
      one have calculated and written their weighted scores, that item
      keeps what it changed, and the result is either its error with the
      total untouched or, when none raised, the new total of the table. */
  ghost predicate UpdatedFrom(items: seq<RewardItem>, scores: ScoreTable, total: real, scale: real, calculate: Calculate,
                              items': seq<RewardItem>, scores': ScoreTable, total': real, r: Result<real>)
  {
    var steps := Steps(items, calculate);
    var k := FirstFailure(steps);
    && scores'.Valid()
    && items' == ItemsAfter(items, steps, k + 1)
    && scores'.scores == ScoresWritten(scores.scores, items, steps, scale, k)
    && (k < |items| ==> r == Failure(steps[k].1.error) && total' == total)
    && (k == |items| ==> r == Success(Total(scores')) && total' == Total(scores'))
  }

  class RewardManager {
    /** Stored but never read. */
    const range: (real, real)
    const rewardScale: real
    /** `config["sim_frame_dist"]`, handed to the exploration term. */
    const similarFrameDist: real
    /** The frame resizer and the index distance the exploration terms use. */
    const compress: Compressor
    const dist: Reward.Distance
    var items: seq<RewardItem>
    var stateScores: ScoreTable
    var totalReward: real

    ghost predicate Valid()
      reads this
    {
      stateScores.Valid()
    }

    /** A manager with the one exploration item "explore" of weight 1.0. */
    constructor (range: (real, real), similarFrameDist: real, compress: Compressor, dist: Reward.Distance)
      ensures Valid()
      ensures this.range == range && this.similarFrameDist == similarFrameDist && rewardScale == 1.0
      ensures this.compress == compress && this.dist == dist
      ensures items == [RewardItem("explore", NewTerm(ExploreKind(similarFrameDist)), 1.0)]
      ensures stateScores == EmptyScores && totalReward == 0.0
    {
      this.range, this.similarFrameDist, rewardScale := range, similarFrameDist, 1.0;
      this.compress, this.dist := compress, dist;
      items := [RewardItem("explore", NewTerm(ExploreKind(similarFrameDist)), 1.0)];
      stateScores, totalReward := EmptyScores, 0.0;
    }

    /** `PokemonRedReward`: the base manager's exploration item, then
        "event", "heal", "badge", "op_lvl" and "level" added in that order,
        all of weight 1.0 and newly constructed. */
    constructor PokemonRed(range: (real, real), similarFrameDist: real, compress: Compressor, dist: Reward.Distance)
      ensures Valid()
      ensures this.range == range && this.similarFrameDist == similarFrameDist && rewardScale == 1.0
      ensures this.compress == compress && this.dist == dist
      ensures items == [
        RewardItem("explore", NewTerm(ExploreKind(similarFrameDist)), 1.0),
        RewardItem("event", NewTerm(EventKind), 1.0),
        RewardItem("heal", NewTerm(HealKind), 1.0),
        RewardItem("badge", NewTerm(BadgeKind), 1.0),
        RewardItem("op_lvl", NewTerm(OpLevelKind), 1.0),
        RewardItem("level", NewTerm(LevelKind), 1.0)]
      ensures stateScores == EmptyScores && totalReward == 0.0
    {
      this.range, this.similarFrameDist, rewardScale := range, similarFrameDist, 1.0;
      this.compress, this.dist := compress, dist;
      items := [RewardItem("explore", NewTerm(ExploreKind(similarFrameDist)), 1.0)];
      stateScores, totalReward := EmptyScores, 0.0;
      new;
      AddReward(EventKind, "event");
      AddReward(HealKind, "heal");
      AddReward(BadgeKind, "badge");
      AddReward(OpLevelKind, "op_lvl");
      AddReward(LevelKind, "level");
    }

    /** `add_reward`: construct a term of the given kind and append it with its weight. */
    method AddReward(kind: TermKind, name: string, weight: real := 1.0)
      requires Valid()
      modifies this
      ensures Valid()
      ensures items == old(items) + [RewardItem(name, NewTerm(kind), weight)]
      ensures stateScores == old(stateScores) && totalReward == old(totalReward)
    {
      items := items + [RewardItem(name, NewTerm(kind), weight)];
    }

    /** `update`: every item in order writes `reward_scale * calculate() * weight`
        under its name, and the result is the total of the table.  When item k
        raises, items before k have written their scores, item k keeps what it
        changed before raising, later items are untouched and the total is
        not recomputed. */
    method Update(values: Values, frame: Image) returns (r: Result<real>)
      requires Valid()
      modifies this
      ensures Valid()
      ensures UpdatedFrom(old(items), old(stateScores), old(totalReward), rewardScale, TermCalculate(values, frame, compress, dist),
                          items, stateScores, totalReward, r)
    {
      var newItems, table, outcome := CalculateAll(items, stateScores, rewardScale, TermCalculate(values, frame, compress, dist));
      items, stateScores := newItems, table;
      if outcome.Fail? {
        r := Failure(outcome.error);
      } else {
        totalReward := Total(table);
        r := Success(totalReward);
      }
    }

    /** `reset`: every item resets in order; the score table is not cleared. */
    method Reset()
      requires Valid()
      modifies this
      ensures Valid() && |items| == |old(items)|
      ensures forall j :: 0 <= j < |items| ==> items[j] == old(items)[j].(term := ResetTerm(old(items)[j].term))
      ensures stateScores == old(stateScores) && totalReward == old(totalReward)
    {
      for i := 0 to |items|
        invariant Valid() && |items| == |old(items)| && stateScores == old(stateScores) && totalReward == old(totalReward)
        invariant forall j :: 0 <= j < i ==> items[j] == old(items)[j].(term := ResetTerm(old(items)[j].term))
        invariant forall j :: i <= j < |items| ==> items[j] == old(items)[j]
      {
        items := items[i := items[i].(term := ResetTerm(items[i].term))];
      }
    }
  }
}
