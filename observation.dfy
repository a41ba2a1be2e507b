/**
  The observation vector that `GameEnv._get_obs` hands to the policy: the
  flattened occupancy grid, the treasure's offset from the hero, the hero's
  distance to each monster and a "next to the treasure" flag, every value
  scaled by the grid size.  Floating point is modelled by `real`.
*/
module Observation {
  import opened Grid

  /** Cells of the flattened grid. */
  const CellCount: int := GridSize * GridSize

  /** Observation length for the fixed monster count: 100 + 2 + 3 + 1 = 106. */
  const ObsLength: int := CellCount + 2 + MonsterCount + 1

  const HeroMark: real := 1.0
  const TreasureMark: real := 0.5
  const MonsterMark: real := -1.0
  /** Slot value for a monster that does not exist (`monster_distances` padding). */
  const MissingDistance: real := 1.0

  /**
    What a cell of the occupancy grid holds once everything has been written:
    the grid is written hero first, then treasure, then every monster, so the
    last writer of a cell decides its value.
  */
  function CellValue(hero: Pos, treasure: Pos, monsters: seq<Pos>, q: Pos): real {
    if q in monsters then MonsterMark
    else if q == treasure then TreasureMark
    else if q == hero then HeroMark
    else 0.0
  }

  /** Writes `MonsterMark` at the cell of every monster, in list order. */
  function PaintMonsters(grid: seq<real>, monsters: seq<Pos>): (g: seq<real>)
    requires |grid| == CellCount && AllInBounds(monsters)
    ensures |g| == CellCount
    decreases |monsters|
  {
    if monsters == [] then grid
    else PaintMonsters(grid[Index(monsters[0]) := MonsterMark], monsters[1..])
  }

  /** The occupancy grid, built by successive writes into a zero grid. */
  function Occupancy(hero: Pos, treasure: Pos, monsters: seq<Pos>): (g: seq<real>)
    requires InBounds(hero) && InBounds(treasure) && AllInBounds(monsters)
    ensures |g| == CellCount
  {
    var blank := seq(CellCount, _ => 0.0);
    PaintMonsters(blank[Index(hero) := HeroMark][Index(treasure) := TreasureMark], monsters)
  }

  /** Manhattan distance hero-monster over the grid size, padded to three slots. */
  function MonsterDistances(hero: Pos, monsters: seq<Pos>): (d: seq<real>)
    ensures |d| == if |monsters| < MonsterCount then MonsterCount else |monsters|
    ensures forall i :: 0 <= i < |monsters| ==> d[i] == Manhattan(hero, monsters[i]) as real / GridSize as real
    ensures forall i :: |monsters| <= i < |d| ==> d[i] == MissingDistance
  {
    var measured := seq(|monsters|, i requires 0 <= i < |monsters| =>
                          Manhattan(hero, monsters[i]) as real / GridSize as real);
    var padding := if |monsters| < MonsterCount then seq(MonsterCount - |monsters|, _ => MissingDistance) else [];
    measured + padding
  }

  function ProximityFlag(hero: Pos, treasure: Pos): real {
    if Manhattan(hero, treasure) <= 1 then 1.0 else 0.0
  }

  /** `_get_obs`: the four parts concatenated in their fixed order. */
  function Observe(hero: Pos, treasure: Pos, monsters: seq<Pos>): (obs: seq<real>)
    requires InBounds(hero) && InBounds(treasure) && AllInBounds(monsters)
    ensures |monsters| <= MonsterCount ==> |obs| == ObsLength
    ensures MonsterCount < |monsters| ==> |obs| == ObsLength + |monsters| - MonsterCount
  {
    Occupancy(hero, treasure, monsters)
      + [(treasure.row - hero.row) as real / GridSize as real,
         (treasure.col - hero.col) as real / GridSize as real]
      + MonsterDistances(hero, monsters)
      + [ProximityFlag(hero, treasure)]
  }

  /** After painting, a cell holds the monster mark iff some monster stands there. */
  lemma {:induction false} PaintMonstersAt(grid: seq<real>, monsters: seq<Pos>, q: Pos)
    requires |grid| == CellCount && AllInBounds(monsters) && InBounds(q)
    ensures PaintMonsters(grid, monsters)[Index(q)] ==
            if q in monsters then MonsterMark else grid[Index(q)]
    decreases |monsters|
  {
    if monsters != [] {
      var g' := grid[Index(monsters[0]) := MonsterMark];
      PaintMonstersAt(g', monsters[1..], q);
      IndexInjective(monsters[0], q);
      assert q in monsters <==> q == monsters[0] || q in monsters[1..];
    }
  }

  /** Every cell of the occupancy grid obeys the last-write-wins rule. */
  lemma OccupancyAt(hero: Pos, treasure: Pos, monsters: seq<Pos>, q: Pos)
    requires InBounds(hero) && InBounds(treasure) && AllInBounds(monsters) && InBounds(q)
    ensures Occupancy(hero, treasure, monsters)[Index(q)] == CellValue(hero, treasure, monsters, q)
  {
    var blank: seq<real> := seq(CellCount, _ => 0.0);
    var g := blank[Index(hero) := HeroMark][Index(treasure) := TreasureMark];
    PaintMonstersAt(g, monsters, q);
    IndexInjective(hero, q);
    IndexInjective(treasure, q);
  }

  /** The fixed layout of the 106-slot vector the trained policy relies on. */
  lemma ObservationLayout(hero: Pos, treasure: Pos, monsters: seq<Pos>)
    requires InBounds(hero) && InBounds(treasure) && AllInBounds(monsters)
    requires |monsters| == MonsterCount
    ensures |Observe(hero, treasure, monsters)| == ObsLength == 106
    ensures forall q :: InBounds(q) ==>
              Observe(hero, treasure, monsters)[Index(q)] == CellValue(hero, treasure, monsters, q)
    ensures Observe(hero, treasure, monsters)[CellCount] == (treasure.row - hero.row) as real / 10.0
    ensures Observe(hero, treasure, monsters)[CellCount + 1] == (treasure.col - hero.col) as real / 10.0
    ensures forall i :: 0 <= i < MonsterCount ==>
              Observe(hero, treasure, monsters)[CellCount + 2 + i] == Manhattan(hero, monsters[i]) as real / 10.0
    ensures Observe(hero, treasure, monsters)[ObsLength - 1] == if Manhattan(hero, treasure) <= 1 then 1.0 else 0.0
  {
    var obs := Observe(hero, treasure, monsters);
    forall q | InBounds(q)
      ensures obs[Index(q)] == CellValue(hero, treasure, monsters, q)
    {
      GridSlotAt(hero, treasure, monsters, q);
    }
    var dists := MonsterDistances(hero, monsters);
    forall i | 0 <= i < MonsterCount
      ensures obs[CellCount + 2 + i] == Manhattan(hero, monsters[i]) as real / 10.0
    {
      assert obs[CellCount + 2 + i] == dists[i];
    }
  }

  /**
    A cell of the grid is marked 1.0 exactly when it is the hero's cell and
    the hero shares it with neither the treasure nor a monster.
  */
  lemma HeroMarkedOnce(hero: Pos, treasure: Pos, monsters: seq<Pos>, q: Pos)
    requires InBounds(hero) && InBounds(treasure) && AllInBounds(monsters) && InBounds(q)
    ensures Observe(hero, treasure, monsters)[Index(q)] == HeroMark <==>
            q == hero && hero != treasure && hero !in monsters
  {
    GridSlotAt(hero, treasure, monsters, q);
  }

  /** The grid part of the observation is the occupancy grid, cell by cell. */
  lemma GridSlotAt(hero: Pos, treasure: Pos, monsters: seq<Pos>, q: Pos)
    requires InBounds(hero) && InBounds(treasure) && AllInBounds(monsters) && InBounds(q)
    ensures Observe(hero, treasure, monsters)[Index(q)] == CellValue(hero, treasure, monsters, q)
  {
    var obs := Observe(hero, treasure, monsters);
    var grid := Occupancy(hero, treasure, monsters);
    assert obs[Index(q)] == grid[Index(q)];
    OccupancyAt(hero, treasure, monsters, q);
  }
}
