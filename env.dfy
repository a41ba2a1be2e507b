/**
  The grid-world environment `GameEnv`: its state fields and the two
  operations that rewrite them, `reset` and `step`.  The random draws the
  source takes from `np.random` are the extra parameters of both methods.
*/
module Env {
  import opened Grid
  import opened Observation
  import opened Movement
  import opened Reward

  class GameEnv {
    var hero: Pos
    var treasure: Pos
    var monsters: seq<Pos>
    var previousHero: Pos
    var previousMonsters: seq<Pos>
    var stepCount: nat

    /**
      The state after a reset and after every step: everything on the board,
      exactly three monsters, and no monster closer than three cells to the
      treasure (so the treasure cell is never next to a monster).
    */
    ghost predicate Valid()
      reads this
    {
      && InBounds(hero) && InBounds(treasure) && InBounds(previousHero)
      && |monsters| == MonsterCount && |previousMonsters| == MonsterCount
      && AllInBounds(monsters) && AllInBounds(previousMonsters)
      && forall i :: 0 <= i < |monsters| ==> Manhattan(monsters[i], treasure) >= 3
    }

    /**
      `__init__`.  The source leaves the positions unset (`None`) until the
      first reset; here they hold a placeholder cell and there are no
      monsters, so `Valid()` does not hold before `Reset`.
    */
    constructor ()
      ensures monsters == [] && previousMonsters == [] && stepCount == 0
      ensures !Valid()
    {
      hero, treasure, previousHero := Pos(0, 0), Pos(0, 0), Pos(0, 0);
      monsters, previousMonsters := [], [];
      stepCount := 0;
    }

    /**
      `reset`: hero and treasure go to the drawn cells (they may coincide),
      then the spawn sampler consumes `spawnDraws` until three monsters are
      accepted.  The draws are cells of the grid, as `randint` gives.
    */
    method Reset(heroDraw: Pos, treasureDraw: Pos, spawnDraws: seq<Pos>) returns (obs: seq<real>)
      requires InBounds(heroDraw) && InBounds(treasureDraw) && AllInBounds(spawnDraws)
      requires |Accepted(spawnDraws, heroDraw, treasureDraw)| >= MonsterCount
      modifies this
      ensures Valid()
      ensures hero == heroDraw && previousHero == heroDraw && treasure == treasureDraw
      ensures stepCount == 0
      ensures monsters == Accepted(spawnDraws, heroDraw, treasureDraw)[..MonsterCount]
      ensures previousMonsters == monsters
      ensures forall i :: 0 <= i < |monsters| ==> SpawnOk(monsters[i], hero, treasure)
      ensures obs == Observe(hero, treasure, monsters) && |obs| == ObsLength
    {
      hero := heroDraw;
      previousHero := hero;
      treasure := treasureDraw;
      stepCount := 0;
      var spawned, _ := SpawnMonsters(hero, treasure, spawnDraws);
      monsters := spawned;
      previousMonsters := spawned;
      obs := Observe(hero, treasure, monsters);
    }

    /**
      `step(action)`: count the step, move the hero, move every monster with
      its ten perturbations `draws[i]`, then evaluate the reward rules on the
      new positions and observe the new state.
    */
    method Step(action: int, draws: seq<seq<Perturbation>>)
      returns (obs: seq<real>, reward: real, done: bool, info: Info)
      requires Valid()
      requires |draws| == MonsterCount
      requires forall i :: 0 <= i < |draws| ==> |draws[i]| == MaxAttempts
      modifies this
      ensures Valid()
      ensures stepCount == old(stepCount) + 1
      ensures treasure == old(treasure)
      ensures previousHero == old(hero) && hero == MoveHero(old(hero), action)
      ensures previousMonsters == old(monsters)
      ensures forall i :: 0 <= i < MonsterCount ==>
                monsters[i] == MonsterMove(old(monsters[i]), hero, treasure, draws[i])
      ensures forall i :: 0 <= i < MonsterCount ==>
                monsters[i] == old(monsters[i]) || MoveOk(old(monsters[i]), monsters[i], hero, treasure)
      ensures StepResult(reward, done, info) == Outcome(hero, previousHero, treasure, monsters)
      ensures hero == treasure ==> reward == TreasureReward && done && info == map[SuccessKey := true]
      ensures obs == Observe(hero, treasure, monsters) && |obs| == ObsLength
    {
      stepCount := stepCount + 1;
      previousHero := hero;
      hero := MoveHero(hero, action);

      ghost var before := monsters;
      for i := 0 to |monsters|
        invariant |monsters| == MonsterCount && |previousMonsters| == MonsterCount
        invariant forall j :: 0 <= j < i ==>
                    monsters[j] == MonsterMove(before[j], hero, treasure, draws[j]) && previousMonsters[j] == before[j]
        invariant forall j :: i <= j < MonsterCount ==> monsters[j] == before[j]
        invariant hero == MoveHero(previousHero, action) && previousHero == old(hero)
        invariant treasure == old(treasure) && stepCount == old(stepCount) + 1
      {
        var next, _ := ChooseMonsterMove(monsters[i], hero, treasure, draws[i]);
        previousMonsters := previousMonsters[i := monsters[i]];
        monsters := monsters[i := next];
      }
      assert previousMonsters == before;
      forall i | 0 <= i < MonsterCount
        ensures InBounds(monsters[i]) && Manhattan(monsters[i], treasure) >= 3
        ensures monsters[i] == before[i] || MoveOk(before[i], monsters[i], hero, treasure)
      {
        MonsterMoveSafe(before[i], hero, treasure, draws[i]);
        MonsterKeepsAway(before[i], hero, treasure, draws[i]);
      }

      var result := ComputeReward(hero, previousHero, treasure, monsters);
      reward, done, info := result.reward, result.done, result.info;
      if hero == treasure {
        TreasureReached(hero, previousHero, treasure, monsters);
      }
      obs := Observe(hero, treasure, monsters);
    }
  }
}
