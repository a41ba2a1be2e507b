/**
  The training metric tracker `RewardTrackerCallback`: called after every
  environment step, it accumulates the episode's reward and length and, when
  the episode ends, records them together with the running success rate.
  The `rewards`, `dones` and `infos[0]` entries the training loop puts in
  `self.locals` are the parameters of `OnStep`.
*/
module Callbacks {
  import opened Grid
  import opened Reward

  /** `info.get("is_success", False)`: a missing key counts as a failure. */
  predicate IsSuccess(info: Info) {
    SuccessKey in info && info[SuccessKey]
  }

  /** Number of successful episodes in a history of outcomes. */
  function Successes(outcomes: seq<bool>): nat
    decreases |outcomes|
  {
    if outcomes == [] then 0 else (if outcomes[0] then 1 else 0) + Successes(outcomes[1..])
  }

  /** Success rate after each episode of a history: successes so far over episodes so far. */
  function RunningRates(outcomes: seq<bool>): (rates: seq<real>)
    ensures |rates| == |outcomes|
    decreases |outcomes|
  {
    if outcomes == [] then []
    else RunningRates(outcomes[..|outcomes| - 1]) + [Successes(outcomes) as real / |outcomes| as real]
  }

  /** Total of a sequence of step rewards. */
  function Sum(rewards: seq<real>): real
    decreases |rewards|
  {
    if rewards == [] then 0.0 else Sum(rewards[..|rewards| - 1]) + rewards[|rewards| - 1]
  }

  /** One more episode adds one to the count exactly when it succeeded. */
  lemma {:induction false} SuccessesAppend(outcomes: seq<bool>, b: bool)
    ensures Successes(outcomes + [b]) == Successes(outcomes) + if b then 1 else 0
    decreases |outcomes|
  {
    if outcomes != [] {
      assert (outcomes + [b])[1..] == outcomes[1..] + [b];
      SuccessesAppend(outcomes[1..], b);
    }
  }

  /** There are never more successes than episodes. */
  lemma {:induction false} SuccessesAtMost(outcomes: seq<bool>)
    ensures Successes(outcomes) <= |outcomes|
    decreases |outcomes|
  {
    if outcomes != [] {
      SuccessesAtMost(outcomes[1..]);
    }
  }

  /** A success rate over at least one episode lies in [0, 1]. */
  lemma SuccessRateInUnit(outcomes: seq<bool>)
    requires outcomes != []
    ensures 0.0 <= Successes(outcomes) as real / |outcomes| as real <= 1.0
  {
    SuccessesAtMost(outcomes);
  }

  /**
    The tracker counts a success for an episode exactly when its last step
    put the hero on the treasure with no monster next to it.
  */
  lemma SuccessMeansTreasure(hero: Pos, previousHero: Pos, treasure: Pos, monsters: seq<Pos>)
    ensures IsSuccess(Outcome(hero, previousHero, treasure, monsters).info) <==>
            hero == treasure && !Adjacent(hero, monsters)
    ensures IsSuccess(Outcome(hero, previousHero, treasure, monsters).info) ==>
            Outcome(hero, previousHero, treasure, monsters).done
  {
  }

  /** Entry `i` of the recorded totals and lengths describes finished episode `i`. */
  ghost predicate Recorded(totals: seq<real>, lengths: seq<int>, episodes: seq<seq<real>>) {
    && |totals| == |episodes| && |lengths| == |episodes|
    && forall i :: 0 <= i < |episodes| ==> totals[i] == Sum(episodes[i]) && lengths[i] == |episodes[i]| >= 1
  }

  class RewardTracker {
    var episodeRewards: seq<real>
    var episodeLengths: seq<int>
    var successRate: seq<real>
    var currentRewards: real
    var currentLength: int
    var successCount: int
    var explorationActions: int
    var exploitationActions: int

    /** Step rewards of every finished episode, and of the running one. */
    ghost var episodes: seq<seq<real>>
    ghost var current: seq<real>
    /** Whether each finished episode was a success. */
    ghost var outcomes: seq<bool>

    /**
      The three lists grow together, one entry per finished episode: its
      summed reward, its number of steps (at least one) and the success rate
      over the episodes so far.
    */
    ghost predicate Valid()
      reads this
    {
      && |episodes| == |outcomes|
      && Recorded(episodeRewards, episodeLengths, episodes)
      && successRate == RunningRates(outcomes)
      && successCount == Successes(outcomes)
      && currentRewards == Sum(current) && currentLength == |current|
    }

    /** `__init__`: empty lists and zero counters. */
    constructor ()
      ensures Valid()
      ensures episodeRewards == [] && episodeLengths == [] && successRate == []
      ensures currentRewards == 0.0 && currentLength == 0 && successCount == 0
      ensures explorationActions == 0 && exploitationActions == 0
    {
      episodeRewards, episodeLengths, successRate := [], [], [];
      currentRewards, currentLength, successCount := 0.0, 0, 0;
      explorationActions, exploitationActions := 0, 0;
      episodes, current, outcomes := [], [], [];
    }

    /** `_on_step` for one environment step with the given reward, done flag and info. */
    method OnStep(reward: real, done: bool, info: Info) returns (keepTraining: bool)
      requires Valid()
      modifies this
      ensures Valid()
      ensures keepTraining
      ensures !done ==> currentRewards == old(currentRewards) + reward
      ensures !done ==> currentLength == old(currentLength) + 1
      ensures !done ==> episodeRewards == old(episodeRewards) && episodeLengths == old(episodeLengths)
      ensures !done ==> successRate == old(successRate) && successCount == old(successCount)
      ensures !done ==> explorationActions == old(explorationActions)
      ensures !done ==> exploitationActions == old(exploitationActions)
      ensures done ==> episodeRewards == old(episodeRewards) + [old(currentRewards) + reward]
      ensures done ==> episodeLengths == old(episodeLengths) + [old(currentLength) + 1]
      ensures done ==> successCount == old(successCount) + (if IsSuccess(info) then 1 else 0)
      ensures done ==> successRate == old(successRate) + [successCount as real / |episodeRewards| as real]
      ensures done ==> 0.0 <= successRate[|successRate| - 1] <= 1.0
      ensures done ==> currentRewards == 0.0 && currentLength == 0
      ensures done ==> explorationActions == 0 && exploitationActions == 0
      ensures 0 <= successCount <= |episodeRewards|
    {
      currentRewards := currentRewards + reward;
      currentLength := currentLength + 1;
      current := current + [reward];
      assert current[..|current| - 1] == old(current);

      if done {
        EndEpisode(IsSuccess(info));
      }
      SuccessesAtMost(outcomes);
      keepTraining := true;
    }

    /**
      The `dones` branch of `_on_step`: record the running episode and the
      success rate so far, then start a new episode.
    */
    method EndEpisode(success: bool)
      requires Valid() && currentLength >= 1
      modifies this
      ensures Valid()
      ensures episodeRewards == old(episodeRewards) + [old(currentRewards)]
      ensures episodeLengths == old(episodeLengths) + [old(currentLength)]
      ensures successCount == old(successCount) + (if success then 1 else 0)
      ensures successRate == old(successRate) + [successCount as real / |episodeRewards| as real]
      ensures 0.0 <= successRate[|successRate| - 1] <= 1.0
      ensures currentRewards == 0.0 && currentLength == 0
      ensures explorationActions == 0 && exploitationActions == 0
      ensures current == [] && outcomes == old(outcomes) + [success]
    {
      ghost var newEpisodes := episodes + [current];
      ghost var newOutcomes := outcomes + [success];
      var newRewards := episodeRewards + [currentRewards];
      var newLengths := episodeLengths + [currentLength];
      assert Recorded(newRewards, newLengths, newEpisodes);

      var newCount := successCount + (if success then 1 else 0);
      SuccessesAppend(outcomes, success);
      var rate := newCount as real / |newRewards| as real;
      assert newOutcomes[..|newOutcomes| - 1] == outcomes;
      assert RunningRates(newOutcomes) == successRate + [rate];
      SuccessRateInUnit(newOutcomes);

      episodeRewards, episodeLengths, successCount := newRewards, newLengths, newCount;
      successRate := successRate + [rate];
      episodes, outcomes := newEpisodes, newOutcomes;
      currentRewards, currentLength, current := 0.0, 0, [];
      explorationActions, exploitationActions := 0, 0;
    }
  }
}
