/** The episode loop of src/game_env.py.

    `GameEnv` wires the emulator, the state table, the reward manager and
    the observation builder together and keeps the episode's counters.
    A step presses a button, refreshes the state table from memory, asks
    the reward manager for the new total and returns the difference to the
    previous total as the step's reward.  The screen and the memory after
    the action are what the emulator would show and hold; they are
    parameters of `Step` and `Reset`. */
module Environment {
  import opened Wrappers
  import opened VisualUtil
  import Emulator
  import GameState
  import RewardAggregation
  import GbEmulator
  import Observation

  /** What `step` returns.  `rewardDrop` says whether the "Reward drop"
      message is printed. */
  datatype StepResult = StepResult(obs: Image, reward: real, terminated: bool, truncated: bool, rewardDrop: bool)

  function Sum(xs: seq<real>): real {
    if xs == [] then 0.0 else Sum(xs[..|xs| - 1]) + xs[|xs| - 1]
  }

  /** The last total, or the 0.0 that `reset` sets. */
  function LastTotal(totals: seq<real>): real {
    if totals == [] then 0.0 else totals[|totals| - 1]
  }

  /** The rewards `step` returns for a run of totals after a reset: each
      total minus the one before it, the first one minus 0.0. */
  function Deltas(totals: seq<real>): (ds: seq<real>)
    ensures |ds| == |totals|
    ensures forall i :: 0 < i < |ds| ==> totals[i] == totals[i - 1] + ds[i]
    ensures |ds| > 0 ==> ds[0] == totals[0]
  {
    seq(|totals|, i requires 0 <= i < |totals| => totals[i] - (if i == 0 then 0.0 else totals[i - 1]))
  }

  lemma DeltasSnoc(totals: seq<real>, t: real)
    ensures Deltas(totals + [t]) == Deltas(totals) + [t - LastTotal(totals)]
  {
    assert forall i :: 0 <= i < |totals| ==> (totals + [t])[i] == totals[i];
  }

  /** The rewards of an episode add up to its last total. */
  lemma {:induction false} DeltasTelescope(totals: seq<real>)
    ensures Sum(Deltas(totals)) == LastTotal(totals)
  {
    if totals != [] {
      var init := totals[..|totals| - 1];
      DeltasTelescope(init);
      DeltasSnoc(init, totals[|totals| - 1]);
      assert init + [totals[|totals| - 1]] == totals;
      assert Deltas(totals)[..|totals| - 1] == Deltas(init);
    }
  }

  class GameEnv {
    /** `config["max_steps"]` */
    const maxSteps: int
    const emulator: GbEmulator.GBEmulator
    const gameStateManager: GameState.GameStateManager
    const rewardManager: RewardAggregation.RewardManager
    const obs: Observation.Observation
    var currentAction: GbEmulator.GBAction
    var resetCount: nat
    var stepCount: nat
    var currentReward: real
    var stepLimitReach: bool
    /** The totals of the reward manager since the last reset, and the rewards `step` returned for them. */
    ghost var totals: seq<real>
    ghost var rewards: seq<real>

    ghost predicate Valid()
      reads this, emulator, gameStateManager, rewardManager
    {
      && emulator.Valid() && gameStateManager.Valid() && rewardManager.Valid()
      && obs.emulator == emulator
      && obs.compress == rewardManager.compress
      && rewards == Deltas(totals)
      && currentReward == LastTotal(totals)
    }

    /** The rewards returned since the last reset add up to `current_reward`. */
    lemma RewardsAddUp()
      requires Valid()
      ensures Sum(rewards) == currentReward
    {
      DeltasTelescope(totals);
    }

    /** `GameEnv(...)`: the counters start at zero and the constructor ends
        with a `reset`, so a new environment has been reset once. */
    constructor (emulator: GbEmulator.GBEmulator, gameStateManager: GameState.GameStateManager,
                 rewardManager: RewardAggregation.RewardManager, maxSteps: int, screen: Image)
      requires emulator.Valid() && gameStateManager.Valid() && rewardManager.Valid()
      modifies emulator, rewardManager
      ensures Valid()
      ensures this.emulator == emulator && this.gameStateManager == gameStateManager && this.rewardManager == rewardManager
      ensures this.maxSteps == maxSteps && obs.compress == rewardManager.compress
      ensures currentAction == GbEmulator.Up
      ensures resetCount == 1 && stepCount == 0 && currentReward == 0.0 && !stepLimitReach
      ensures totals == [] && rewards == []
      ensures emulator.calls == old(emulator.calls) + [GbEmulator.LoadState(emulator.initState)]
      ensures emulator.currentFrameCache == if old(emulator.currentFrameCache).Some? then old(emulator.currentFrameCache) else Some(screen)
      ensures |rewardManager.items| == |old(rewardManager.items)|
      ensures forall j :: 0 <= j < |rewardManager.items| ==>
        rewardManager.items[j] == old(rewardManager.items)[j].(term := RewardAggregation.ResetTerm(old(rewardManager.items)[j].term))
      ensures rewardManager.stateScores == old(rewardManager.stateScores) && rewardManager.totalReward == old(rewardManager.totalReward)
    {
      this.maxSteps := maxSteps;
      currentAction := GbEmulator.GetAction(0).value;
      this.emulator, this.gameStateManager, this.rewardManager := emulator, gameStateManager, rewardManager;
      obs := new Observation.Observation(emulator, rewardManager.compress);
      resetCount, stepCount, currentReward, stepLimitReach := 0, 0, 0.0, false;
      totals, rewards := [], [];
      new;
      var _ := Reset(screen);
    }

    /** `reset`: reload the initial state, reset every reward term, zero the
        step counter and the reward, and count the reset. */
    method Reset(screen: Image) returns (obsMemory: Image)
      requires Valid()
      modifies this, emulator, rewardManager
      ensures Valid()
      ensures stepCount == 0 && resetCount == old(resetCount) + 1 && currentReward == 0.0 && !stepLimitReach
      ensures totals == [] && rewards == [] && currentAction == old(currentAction)
      ensures emulator.calls == old(emulator.calls) + [GbEmulator.LoadState(emulator.initState)]
      ensures emulator.currentFrameCache == if old(emulator.currentFrameCache).Some? then old(emulator.currentFrameCache) else Some(screen)
      ensures |rewardManager.items| == |old(rewardManager.items)|
      ensures forall j :: 0 <= j < |rewardManager.items| ==>
        rewardManager.items[j] == old(rewardManager.items)[j].(term := RewardAggregation.ResetTerm(old(rewardManager.items)[j].term))
      ensures rewardManager.stateScores == old(rewardManager.stateScores) && rewardManager.totalReward == old(rewardManager.totalReward)
      ensures obsMemory == Observation.ObservationOf(obs.compress, emulator.lastNFrames[..])
    {
      emulator.Reset();
      rewardManager.Reset();
      ResetCounters();
      obsMemory := obs.CreateObsMem(screen);
    }

    /** The counters `reset` sets: a new episode with no steps and no reward. */
    method ResetCounters()
      requires Valid()
      modifies this
      ensures Valid()
      ensures stepCount == 0 && resetCount == old(resetCount) + 1 && currentReward == 0.0 && !stepLimitReach
      ensures totals == [] && rewards == [] && currentAction == old(currentAction)
    {
      stepCount := 0;
      resetCount := resetCount + 1;
      currentReward := 0.0;
      stepLimitReach := false;
      totals, rewards := [], [];
    }

    /** `render`: the emulator's current frame. */
    method Render(screen: Image) returns (frame: Image)
      requires Valid()
      modifies emulator
      ensures Valid()
      ensures emulator.currentFrameCache.Some? && frame == emulator.currentFrameCache.value
      ensures old(emulator.currentFrameCache).Some? ==> emulator.currentFrameCache == old(emulator.currentFrameCache)
    {
      frame := emulator.CurrentFrame(screen);
    }

    /** `step(action)`: run the action, refresh the state table, and return
        the change in the reward manager's total.  The episode never
        terminates; it is truncated once `max_steps` steps have been
        counted before this one.  An invalid action raises before anything
        changes; a failing reward term raises after the emulator and the
        state table have moved on, with the counters untouched. */
    method Step(action: int, screen: Image, mem: Emulator.Memory) returns (r: Result<StepResult>)
      requires Valid()
      modifies this, emulator, emulator.lastNFrames, gameStateManager, rewardManager
      ensures Valid() && resetCount == old(resetCount)
      ensures gameStateManager.states == old(gameStateManager.states)
      ensures GbEmulator.GetAction(action).Failure? ==>
        && r == Failure(GbEmulator.GetAction(action).error)
        && currentAction == old(currentAction)
        && emulator.calls == old(emulator.calls)
        && emulator.currentFrameCache == old(emulator.currentFrameCache)
        && emulator.lastNFrames[..] == old(emulator.lastNFrames[..])
        && gameStateManager.stateValues == old(gameStateManager.stateValues)
        && rewardManager.items == old(rewardManager.items)
        && rewardManager.stateScores == old(rewardManager.stateScores)
        && rewardManager.totalReward == old(rewardManager.totalReward)
      ensures GbEmulator.GetAction(action).Success? ==>
        && currentAction == GbEmulator.GetAction(action).value
        && emulator.calls == old(emulator.calls) + GbEmulator.GBEmulator.ActionCalls(currentAction, emulator.actFreq)
        && emulator.currentFrameCache == Some(screen)
        && emulator.lastNFrames[..] == GbEmulator.Rolled(old(emulator.lastNFrames[..]), screen)
        && gameStateManager.stateValues == GameState.Refreshed(old(gameStateManager.stateValues), gameStateManager.states, mem)
      ensures GbEmulator.GetAction(action).Success? ==> RewardAggregation.UpdatedFrom(
        old(rewardManager.items), old(rewardManager.stateScores), old(rewardManager.totalReward), rewardManager.rewardScale,
        RewardAggregation.TermCalculate(gameStateManager.stateValues, screen, rewardManager.compress, rewardManager.dist),
        rewardManager.items, rewardManager.stateScores, rewardManager.totalReward,
        if r.Success? then Success(currentReward) else Failure(r.error))
      ensures r.Failure? ==>
        && stepCount == old(stepCount) && stepLimitReach == old(stepLimitReach)
        && currentReward == old(currentReward) && totals == old(totals)
      ensures r.Success? ==>
        && currentReward == rewardManager.totalReward
        && totals == old(totals) + [currentReward]
        && r.value.reward == currentReward - old(currentReward)
        && (r.value.rewardDrop <==> currentReward < old(currentReward))
        && !r.value.terminated
        && stepLimitReach == (old(stepCount) >= maxSteps) && r.value.truncated == stepLimitReach
        && stepCount == old(stepCount) + 1
        && r.value.obs == Observation.ObservationOf(obs.compress, emulator.lastNFrames[..])
    {
      var a := GbEmulator.GetAction(action);
      if a.Failure? {
        return Failure(a.error);
      }
      currentAction := a.value;
      Advance(action, screen, mem);
      r := Score(screen);
    }

    /** The first half of `step`: run the action and refresh the state table. */
    method Advance(action: int, screen: Image, mem: Emulator.Memory)
      requires Valid() && GbEmulator.GetAction(action).Success?
      modifies emulator, emulator.lastNFrames, gameStateManager
      ensures Valid()
      ensures emulator.calls == old(emulator.calls) + GbEmulator.GBEmulator.ActionCalls(GbEmulator.GetAction(action).value, emulator.actFreq)
      ensures emulator.currentFrameCache == Some(screen)
      ensures emulator.lastNFrames[..] == GbEmulator.Rolled(old(emulator.lastNFrames[..]), screen)
      ensures gameStateManager.states == old(gameStateManager.states)
      ensures gameStateManager.stateValues == GameState.Refreshed(old(gameStateManager.stateValues), gameStateManager.states, mem)
    {
      var _ := emulator.RunAction(action, screen);
      gameStateManager.Update(mem);
    }

    /** `reward_manager.update()` on the refreshed state values and the
        frame the exploration term reads from the emulator. */
    method UpdateTotal(screen: Image) returns (total: Result<real>)
      requires Valid() && emulator.currentFrameCache == Some(screen)
      modifies emulator, rewardManager
      ensures Valid() && emulator.currentFrameCache == Some(screen) && emulator.calls == old(emulator.calls)
      ensures RewardAggregation.UpdatedFrom(
        old(rewardManager.items), old(rewardManager.stateScores), old(rewardManager.totalReward), rewardManager.rewardScale,
        RewardAggregation.TermCalculate(gameStateManager.stateValues, screen, rewardManager.compress, rewardManager.dist),
        rewardManager.items, rewardManager.stateScores, rewardManager.totalReward, total)
    {
      var frame := emulator.CurrentFrame(screen);
      total := rewardManager.Update(gameStateManager.stateValues, frame);
    }

    /** Store the new total as `current_reward`; the result says whether the reward dropped. */
    method RecordTotal(total: real) returns (rewardDrop: bool)
      requires Valid()
      modifies this
      ensures Valid() && currentReward == total && totals == old(totals) + [total]
      ensures rewardDrop <==> total < old(currentReward)
      ensures stepCount == old(stepCount) && stepLimitReach == old(stepLimitReach)
      ensures resetCount == old(resetCount) && currentAction == old(currentAction)
    {
      var oldReward := currentReward;
      currentReward := total;
      DeltasSnoc(totals, currentReward);
      totals, rewards := totals + [currentReward], rewards + [currentReward - oldReward];
      rewardDrop := currentReward - oldReward < 0.0;
    }

    /** `step_limit_reach` compares the count before this step with `max_steps`, then the step is counted. */
    method CountStep() returns (truncated: bool)
      requires Valid()
      modifies this
      ensures Valid() && stepLimitReach == (old(stepCount) >= maxSteps) && truncated == stepLimitReach
      ensures stepCount == old(stepCount) + 1
      ensures currentReward == old(currentReward) && totals == old(totals)
      ensures resetCount == old(resetCount) && currentAction == old(currentAction)
    {
      stepLimitReach := stepCount >= maxSteps;
      stepCount := stepCount + 1;
      truncated := stepLimitReach;
    }

    /** The second half of `step`: the new total, the reward, the observation and the counters. */
    method Score(screen: Image) returns (r: Result<StepResult>)
      requires Valid() && emulator.currentFrameCache == Some(screen)
      modifies this, emulator, rewardManager
      ensures Valid() && resetCount == old(resetCount) && currentAction == old(currentAction)
      ensures emulator.calls == old(emulator.calls) && emulator.currentFrameCache == Some(screen)
      ensures RewardAggregation.UpdatedFrom(
        old(rewardManager.items), old(rewardManager.stateScores), old(rewardManager.totalReward), rewardManager.rewardScale,
        RewardAggregation.TermCalculate(gameStateManager.stateValues, screen, rewardManager.compress, rewardManager.dist),
        rewardManager.items, rewardManager.stateScores, rewardManager.totalReward,
        if r.Success? then Success(currentReward) else Failure(r.error))
      ensures r.Failure? ==>
        && stepCount == old(stepCount) && stepLimitReach == old(stepLimitReach)
        && currentReward == old(currentReward) && totals == old(totals)
      ensures r.Success? ==>
        && currentReward == rewardManager.totalReward
        && totals == old(totals) + [currentReward]
        && r.value.reward == currentReward - old(currentReward)
        && (r.value.rewardDrop <==> currentReward < old(currentReward))
        && !r.value.terminated
        && stepLimitReach == (old(stepCount) >= maxSteps) && r.value.truncated == stepLimitReach
        && stepCount == old(stepCount) + 1
        && r.value.obs == Observation.ObservationOf(obs.compress, emulator.lastNFrames[..])
    {
      var oldReward := currentReward;
      var total := UpdateTotal(screen);
      if total.Failure? {
        return Failure(total.error);
      }
      var rewardDrop := RecordTotal(total.value);
      var obsMemory := obs.CreateObsMem(screen);
      var truncated := CountStep();
      r := Success(StepResult(obsMemory, currentReward - oldReward, false, truncated, rewardDrop));
    }
  }
}
