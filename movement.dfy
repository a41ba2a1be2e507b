/**
  How entities are placed and moved: the hero's action (`step`, first part),
  the rejection sampler that spawns the monsters (`reset`) and the bounded
  random search for each monster's next cell (`step`, second part).  The
  random draws of the source are inputs here, so every rule is deterministic.
*/
module Movement {
  import opened Grid

  /** Candidate moves tried per monster and step before it stays put. */
  const MaxAttempts: int := 10

  /** Hero actions; any other value leaves the hero where it is. */
  const Up: int := 0
  const Down: int := 1
  const Left: int := 2
  const Right: int := 3
  const Stay: int := 4

  /** One axis of `np.random.choice([-1, 0, 1], size=2)`. */
  type Shift = x: int | -1 <= x <= 1

  /** One random perturbation drawn for a monster. */
  datatype Perturbation = Perturbation(dr: Shift, dc: Shift)

  // ---------------------------------------------------------------- hero

  /** The hero's move for `action`, clamped at the edges of the grid. */
  function MoveHero(p: Pos, action: int): (q: Pos)
    ensures InBounds(p) ==> InBounds(q)
    ensures InBounds(p) && action == Up ==> q == if p.row == 0 then p else Pos(p.row - 1, p.col)
    ensures InBounds(p) && action == Down ==> q == if p.row == GridSize - 1 then p else Pos(p.row + 1, p.col)
    ensures InBounds(p) && action == Left ==> q == if p.col == 0 then p else Pos(p.row, p.col - 1)
    ensures InBounds(p) && action == Right ==> q == if p.col == GridSize - 1 then p else Pos(p.row, p.col + 1)
    ensures action == Stay ==> q == p
    ensures !(Up <= action <= Right) ==> q == p
  {
    if action == Up then Pos(Max(0, p.row - 1), p.col)
    else if action == Down then Pos(Min(GridSize - 1, p.row + 1), p.col)
    else if action == Left then Pos(p.row, Max(0, p.col - 1))
    else if action == Right then Pos(p.row, Min(GridSize - 1, p.col + 1))
    else p
  }

  /** A hero move changes at most one coordinate, by at most one. */
  lemma HeroStepIsSmall(p: Pos, action: int)
    requires InBounds(p)
    ensures Manhattan(p, MoveHero(p, action)) <= 1
    ensures MoveHero(p, action) == p || MoveHero(p, action).row == p.row || MoveHero(p, action).col == p.col
  {
  }

  // ------------------------------------------------------------- spawning

  /** The acceptance test of the spawn sampler for a monster candidate `c`. */
  predicate SpawnOk(c: Pos, hero: Pos, treasure: Pos) {
    c != hero && c != treasure && Manhattan(c, hero) >= 3 && Manhattan(c, treasure) >= 3
  }

  /** The draws the sampler keeps, in the order they were drawn. */
  function Accepted(draws: seq<Pos>, hero: Pos, treasure: Pos): (kept: seq<Pos>)
    decreases |draws|
  {
    if draws == [] then []
    else
      var last := draws[|draws| - 1];
      Accepted(draws[..|draws| - 1], hero, treasure) + if SpawnOk(last, hero, treasure) then [last] else []
  }

  /** Every kept draw was drawn and passes the spawn test. */
  lemma {:induction false} AcceptedSound(draws: seq<Pos>, hero: Pos, treasure: Pos)
    ensures forall x :: x in Accepted(draws, hero, treasure) ==> x in draws && SpawnOk(x, hero, treasure)
    decreases |draws|
  {
    if draws != [] {
      var init := draws[..|draws| - 1];
      AcceptedSound(init, hero, treasure);
      assert forall x :: x in init ==> x in draws;
    }
  }

  /** Every draw that passes the spawn test is kept. */
  lemma {:induction false} AcceptedComplete(draws: seq<Pos>, hero: Pos, treasure: Pos)
    ensures forall x :: x in draws && SpawnOk(x, hero, treasure) ==> x in Accepted(draws, hero, treasure)
    decreases |draws|
  {
    if draws != [] {
      var init := draws[..|draws| - 1];
      AcceptedComplete(init, hero, treasure);
      assert draws == init + [draws[|draws| - 1]];
    }
  }

  /** Consuming fewer draws keeps a prefix of the monsters kept from all of them. */
  lemma {:induction false} AcceptedPrefix(draws: seq<Pos>, i: nat, hero: Pos, treasure: Pos)
    requires i <= |draws|
    ensures Accepted(draws[..i], hero, treasure) <= Accepted(draws, hero, treasure)
    decreases |draws|
  {
    if i < |draws| {
      var init := draws[..|draws| - 1];
      assert init[..i] == draws[..i];
      AcceptedPrefix(init, i, hero, treasure);
    } else {
      assert draws[..i] == draws;
    }
  }

  /**
    The spawn loop of `reset`: draw candidates until three are accepted.
    `used` is the number of draws it consumed; the last of them is the
    third accepted one.  The source loops for ever if the random source never
    yields three acceptable cells; here the draws must contain three.
  */
  method SpawnMonsters(hero: Pos, treasure: Pos, draws: seq<Pos>) returns (monsters: seq<Pos>, used: nat)
    requires |Accepted(draws, hero, treasure)| >= MonsterCount
    ensures |monsters| == MonsterCount
    ensures 0 < used <= |draws|
    ensures monsters == Accepted(draws[..used], hero, treasure)
    ensures SpawnOk(draws[used - 1], hero, treasure)
    ensures monsters == Accepted(draws, hero, treasure)[..MonsterCount]
    ensures forall i :: 0 <= i < |monsters| ==> monsters[i] in draws && SpawnOk(monsters[i], hero, treasure)
  {
    monsters, used := [], 0;
    while |monsters| < MonsterCount
      invariant used <= |draws|
      invariant monsters == Accepted(draws[..used], hero, treasure)
      invariant |monsters| <= MonsterCount
      invariant |monsters| < MonsterCount ==> used < |draws|
      invariant used > 0 ==> SpawnOk(draws[used - 1], hero, treasure) || |monsters| < MonsterCount
      decreases |draws| - used
    {
      var candidate := draws[used];
      assert draws[..used + 1][..used] == draws[..used];
      if SpawnOk(candidate, hero, treasure) {
        monsters := monsters + [candidate];
      }
      used := used + 1;
      assert used == |draws| ==> draws[..used] == draws;
    }
    AcceptedPrefix(draws, used, hero, treasure);
    AcceptedSound(draws[..used], hero, treasure);
    assert forall x :: x in draws[..used] ==> x in draws;
  }

  // ------------------------------------------------------ monster moves

  /** A perturbed cell, clamped to the grid. */
  function Candidate(m: Pos, d: Perturbation): (c: Pos)
    ensures InBounds(c)
  {
    Pos(Clip(m.row + d.dr), Clip(m.col + d.dc))
  }

  /** The test a candidate cell `c` of a monster at `m` has to pass. */
  predicate MoveOk(m: Pos, c: Pos, hero: Pos, treasure: Pos) {
    Manhattan(c, m) == 1 && c != hero && c != treasure && Manhattan(c, treasure) >= 3
  }

  /** Where a monster at `m` ends up: the first candidate that passes, else `m`. */
  function MonsterMove(m: Pos, hero: Pos, treasure: Pos, draws: seq<Perturbation>): (p: Pos)
    ensures p != m ==> exists i :: 0 <= i < |draws| && p == Candidate(m, draws[i])
    decreases |draws|
  {
    if draws == [] then m
    else if MoveOk(m, Candidate(m, draws[0]), hero, treasure) then Candidate(m, draws[0])
    else MonsterMove(m, hero, treasure, draws[1..])
  }

  /** A monster either stays or takes one orthogonal step to an allowed in-bounds cell. */
  lemma {:induction false} MonsterMoveSafe(m: Pos, hero: Pos, treasure: Pos, draws: seq<Perturbation>)
    requires InBounds(m)
    ensures InBounds(MonsterMove(m, hero, treasure, draws))
    ensures MonsterMove(m, hero, treasure, draws) == m ||
            MoveOk(m, MonsterMove(m, hero, treasure, draws), hero, treasure)
    decreases |draws|
  {
    if draws != [] && !MoveOk(m, Candidate(m, draws[0]), hero, treasure) {
      MonsterMoveSafe(m, hero, treasure, draws[1..]);
    }
  }

  /** A monster that keeps its distance from the treasure still does after moving. */
  lemma MonsterKeepsAway(m: Pos, hero: Pos, treasure: Pos, draws: seq<Perturbation>)
    requires InBounds(m) && Manhattan(m, treasure) >= 3
    ensures Manhattan(MonsterMove(m, hero, treasure, draws), treasure) >= 3
  {
    MonsterMoveSafe(m, hero, treasure, draws);
  }

  /**
    A monster can end a step on the hero's cell only if it started within one
    cell of the hero: it never moves onto the hero, so it must have stayed on
    the cell the hero walked into.
  */
  lemma MonsterCannotJoinHero(hero: Pos, m: Pos, treasure: Pos, action: int, draws: seq<Perturbation>)
    requires InBounds(hero) && InBounds(m) && Manhattan(hero, m) >= 2
    ensures MonsterMove(m, MoveHero(hero, action), treasure, draws) != MoveHero(hero, action)
  {
    MonsterMoveSafe(m, MoveHero(hero, action), treasure, draws);
    HeroStepIsSmall(hero, action);
  }

  /**
    The `attempts` loop of `step` for one monster.  `attempts` is the index of
    the accepted draw, or `MaxAttempts` when none passed and the monster stays.
  */
  method ChooseMonsterMove(m: Pos, hero: Pos, treasure: Pos, draws: seq<Perturbation>)
    returns (p: Pos, attempts: nat)
    requires |draws| == MaxAttempts
    ensures p == MonsterMove(m, hero, treasure, draws)
    ensures attempts <= MaxAttempts
    ensures forall j :: 0 <= j < attempts ==> !MoveOk(m, Candidate(m, draws[j]), hero, treasure)
    ensures attempts < MaxAttempts ==> p == Candidate(m, draws[attempts]) && MoveOk(m, p, hero, treasure)
    ensures attempts == MaxAttempts ==> p == m
  {
    attempts := 0;
    while attempts < MaxAttempts
      invariant attempts <= MaxAttempts
      invariant forall j :: 0 <= j < attempts ==> !MoveOk(m, Candidate(m, draws[j]), hero, treasure)
      invariant MonsterMove(m, hero, treasure, draws) == MonsterMove(m, hero, treasure, draws[attempts..])
    {
      var candidate := Candidate(m, draws[attempts]);
      if MoveOk(m, candidate, hero, treasure) {
        p := candidate;
        return;
      }
      assert draws[attempts..][1..] == draws[attempts + 1..];
      attempts := attempts + 1;
    }
    p := m;
  }
}
