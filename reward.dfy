/**
  The reward rules of `GameEnv.step`, applied once hero and monsters have
  moved, in their fixed priority: being next to a monster ends the episode,
  otherwise monsters within two cells cost a penalty each, moving closer to
  the treasure earns a bonus (or a malus), and reaching the treasure
  overrides everything with the success reward.
*/
module Reward {
  import opened Grid

  /** The `info` mapping returned by a step. */
  type Info = map<string, bool>

  const SuccessKey: string := "is_success"

  const StepCost: real := -0.1
  const CaughtReward: real := -10.0
  const TreasureReward: real := 30.0
  const NearPenalty: real := 5.0
  const ApproachBonus: real := 3.0
  const RetreatMalus: real := 1.0

  /** Reward, termination flag and info of one step. */
  datatype StepResult = StepResult(reward: real, done: bool, info: Info)

  /** Some monster stands on a cell orthogonally next to the hero. */
  predicate Adjacent(hero: Pos, monsters: seq<Pos>) {
    exists i :: 0 <= i < |monsters| && Manhattan(hero, monsters[i]) == 1
  }

  /** Number of monsters within Manhattan distance 2 (distance 0 included). */
  function NearCount(hero: Pos, monsters: seq<Pos>): nat
    decreases |monsters|
  {
    if monsters == [] then 0
    else
      NearCount(hero, monsters[..|monsters| - 1])
      + if Manhattan(hero, monsters[|monsters| - 1]) <= 2 then 1 else 0
  }

  /** Distance shaping: did the hero strictly approach the treasure? */
  function Shaping(previousHero: Pos, hero: Pos, treasure: Pos): real {
    if SqDist(hero, treasure) < SqDist(previousHero, treasure) then ApproachBonus else -RetreatMalus
  }

  /** What a step returns, by the priority of its rules. */
  function Outcome(hero: Pos, previousHero: Pos, treasure: Pos, monsters: seq<Pos>): (r: StepResult)
    ensures r.done <==> Adjacent(hero, monsters) || hero == treasure
    ensures SuccessKey in r.info <==> !Adjacent(hero, monsters)
    ensures SuccessKey in r.info ==> (r.info[SuccessKey] <==> r.done)
  {
    if Adjacent(hero, monsters) then StepResult(CaughtReward, true, map[])
    else if hero == treasure then StepResult(TreasureReward, true, map[SuccessKey := true])
    else StepResult(StepCost - NearPenalty * NearCount(hero, monsters) as real
                      + Shaping(previousHero, hero, treasure),
                    false, map[SuccessKey := false])
  }

  /**
    The reward part of `step`: start from the step cost, return at once on a
    monster next to the hero, subtract the penalties, add the shaping term and
    let the treasure override the total.
  */
  method ComputeReward(hero: Pos, previousHero: Pos, treasure: Pos, monsters: seq<Pos>)
    returns (result: StepResult)
    ensures result == Outcome(hero, previousHero, treasure, monsters)
  {
    var reward := StepCost;
    var done := false;
    var info: Info := map[SuccessKey := false];
    for i := 0 to |monsters|
      invariant forall j :: 0 <= j < i ==> Manhattan(hero, monsters[j]) != 1
    {
      if Manhattan(hero, monsters[i]) == 1 {
        return StepResult(CaughtReward, true, map[]);
      }
    }
    for i := 0 to |monsters|
      invariant reward == StepCost - NearPenalty * NearCount(hero, monsters[..i]) as real
    {
      assert monsters[..i + 1][..i] == monsters[..i];
      if Manhattan(hero, monsters[i]) <= 2 {
        reward := reward - NearPenalty;
      }
    }
    assert monsters[..|monsters|] == monsters;
    if SqDist(hero, treasure) < SqDist(previousHero, treasure) {
      reward := reward + ApproachBonus;
    } else {
      reward := reward - RetreatMalus;
    }
    if hero == treasure {
      reward := TreasureReward;
      done := true;
      info := map[SuccessKey := true];
    }
    result := StepResult(reward, done, info);
  }

  /** The penalty counts each monster at most once, and is zero iff none is within two cells. */
  lemma {:induction false} NearCountBounds(hero: Pos, monsters: seq<Pos>)
    ensures NearCount(hero, monsters) <= |monsters|
    ensures NearCount(hero, monsters) == 0 <==>
            forall i :: 0 <= i < |monsters| ==> Manhattan(hero, monsters[i]) > 2
    decreases |monsters|
  {
    if monsters != [] {
      var init := monsters[..|monsters| - 1];
      NearCountBounds(hero, init);
      assert forall i :: 0 <= i < |init| ==> init[i] == monsters[i];
    }
  }

  /** With every monster at least three cells from the treasure, the treasure cell is safe. */
  lemma NoThreatAtTreasure(treasure: Pos, monsters: seq<Pos>)
    requires forall i :: 0 <= i < |monsters| ==> Manhattan(monsters[i], treasure) >= 3
    ensures !Adjacent(treasure, monsters)
    ensures NearCount(treasure, monsters) == 0
  {
    NearCountBounds(treasure, monsters);
  }

  /** Reaching the treasure always wins while the monsters keep their distance from it. */
  lemma TreasureReached(hero: Pos, previousHero: Pos, treasure: Pos, monsters: seq<Pos>)
    requires forall i :: 0 <= i < |monsters| ==> Manhattan(monsters[i], treasure) >= 3
    requires hero == treasure
    ensures Outcome(hero, previousHero, treasure, monsters) ==
            StepResult(TreasureReward, true, map[SuccessKey := true])
  {
    NoThreatAtTreasure(treasure, monsters);
  }

  /** The reward of a step that does not end the episode lies in [-1.1 - 5k, 2.9]. */
  lemma OngoingRewardRange(hero: Pos, previousHero: Pos, treasure: Pos, monsters: seq<Pos>)
    requires !Outcome(hero, previousHero, treasure, monsters).done
    ensures !Adjacent(hero, monsters) && hero != treasure
    ensures StepCost - RetreatMalus - NearPenalty * |monsters| as real
            <= Outcome(hero, previousHero, treasure, monsters).reward
            <= StepCost + ApproachBonus
  {
    NearCountBounds(hero, monsters);
  }

  /**
    Hero at (0, 1) after moving right from (0, 0), treasure at (5, 5), no
    monster within two cells: the step earns -0.1 + 3 = 2.9 and goes on.
  */
  lemma ApproachExample()
    ensures Outcome(Pos(0, 1), Pos(0, 0), Pos(5, 5), [Pos(9, 9), Pos(9, 0), Pos(0, 9)]) ==
            StepResult(2.9, false, map[SuccessKey := false])
  {
    var ms := [Pos(9, 9), Pos(9, 0), Pos(0, 9)];
    assert forall i :: 0 <= i < |ms| ==> Manhattan(Pos(0, 1), ms[i]) > 2;
    NearCountBounds(Pos(0, 1), ms);
    assert Shaping(Pos(0, 0), Pos(0, 1), Pos(5, 5)) == ApproachBonus;
  }

  /**
    A monster on the hero's own cell (distance 0) does not end the episode;
    it only costs the proximity penalty.  Hero on (5, 5) after moving away
    from the treasure at (0, 0), one monster on (5, 5) that could not move:
    -0.1 - 5 - 1 = -6.1 and the episode goes on.
  */
  lemma SharedCellDoesNotEnd()
    ensures Outcome(Pos(5, 5), Pos(5, 4), Pos(0, 0), [Pos(5, 5), Pos(9, 9), Pos(9, 0)]) ==
            StepResult(-6.1, false, map[SuccessKey := false])
  {
    var ms := [Pos(5, 5), Pos(9, 9), Pos(9, 0)];
    assert ms[..2] == [Pos(5, 5), Pos(9, 9)] && ms[..2][..1] == [Pos(5, 5)];
    assert NearCount(Pos(5, 5), ms[..1]) == 1;
    assert NearCount(Pos(5, 5), ms[..2]) == 1;
    assert NearCount(Pos(5, 5), ms) == 1;
    assert Shaping(Pos(5, 4), Pos(5, 5), Pos(0, 0)) == -1.0;
  }
}
