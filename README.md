# Grid-world treasure hunt: a verified Dafny model

This project models the environment that a reinforcement-learning agent is trained in. A hero moves on a 10 × 10 grid to reach a treasure while three monsters wander around it. The model also covers the callback that tracks episode metrics during training.

The environment `GameEnv` has three operations:
- `reset` places the hero and the treasure, then rejection-samples three monsters.
- `step(action)` moves the hero, then each monster. It then scores the step by a fixed priority of reward rules.
- `_get_obs` encodes the state as a 106-slot vector.

The tracker `RewardTrackerCallback._on_step` sums each episode's reward and length. When the episode ends, it records both together with the running success rate.

Files and modules:
- `grid.dfy` (`Grid`): cells, bounds, Manhattan and squared Euclidean distance, clipping, the row-major index.
- `observation.dfy` (`Observation`): `_get_obs` as pure functions, with the layout lemmas.
- `movement.dfy` (`Movement`): the hero's move, the spawn sampler of `reset` and the per-monster attempts loop of `step`.
- `reward.dfy` (`Reward`): the reward rules of `step`. There is a loop method, the function it is proved against, and lemmas about that function.
- `env.dfy` (`Env`): class `GameEnv` with its fields. `Reset` and `Step` rewrite those fields.
- `callbacks.dfy` (`Callbacks`): class `RewardTracker` and its `OnStep`.

Randomness is an explicit parameter, so every operation is deterministic:
- `Reset` takes the hero cell, the treasure cell and the sequence of candidate monster cells that `np.random.randint` would have produced.
- `Step` takes, for each monster, the ten perturbations in {-1, 0, 1}² that `np.random.choice` would have produced. The draws after the accepted one are simply not consumed.

Rewards and observation values are `real`s. The Euclidean comparison `norm(now) < norm(before)` is decided on squared integer distances, which order cells the same way.

Behaviour of the code worth noting:
- The proximity penalty (`<= 2` in `step`) counts every monster within Manhattan distance 2, distance 0 included. `Reward.SharedCellDoesNotEnd` shows that a monster on the hero's own cell costs the penalty but does not end the episode. This happens only when `step` is called again after a terminal step: a monster that starts the step two or more cells from the hero can never end it on the hero's cell (`Movement.MonsterCannotJoinHero`). Reset spawns monsters at distance ≥ 3, and a step that ends with a monster at distance 1 returns done.
- An action outside 0–4 leaves the hero in place. `step` may be called again after a terminal step. The code raises no error in either case.
- A step that ends on a monster's adjacency returns an empty info mapping. A step that ends on the treasure returns `{is_success: true}`.

## Model

| member | source | states |
|---|---|---|
| `Movement.MoveHero` | src/env.py:119-129 | Actions 0–3 move one cell up, down, left or right, except at that edge, where the hero stays. The other coordinate never changes. Action 4 (stay) and any other value leave the hero in place. A hero on the board stays on it. |
| `Movement.HeroStepIsSmall` | src/env.py:120-129 | A hero move changes one coordinate by at most one: Manhattan displacement ≤ 1. |
| `Movement.SpawnMonsters` | src/env.py:58-65 | The spawn loop stops after exactly three accepted candidates. The monsters are the first three draws that pass the spawn test, in draw order. Each one differs from the hero and treasure cells and is at Manhattan distance ≥ 3 from both. The last draw consumed is the third accepted one. |
| `Movement.Accepted` | src/env.py:58-64 | The monsters the spawn sampler keeps from a sequence of candidate cells: exactly the draws that pass `SpawnOk` (differ from hero and treasure, distance ≥ 3 from both), in draw order. `AcceptedSound`, `AcceptedComplete` and `AcceptedPrefix` state those properties. |
| `Movement.AcceptedSound` | src/env.py:58-64 | Every kept candidate was drawn and passes all four spawn conditions. |
| `Movement.AcceptedComplete` | src/env.py:58-64 | Every drawn candidate that passes the spawn conditions is kept (the rejection is exactly the test). |
| `Movement.AcceptedPrefix` | src/env.py:58-64 | Sampling fewer draws keeps a prefix of the monsters kept from more draws: the sampler never reorders or revisits. |
| `Movement.Candidate` | src/env.py:136-138 | A perturbed, clipped candidate always lies on the board. |
| `Movement.ChooseMonsterMove` | src/env.py:133-148 | The attempts loop for one monster returns the first of its ten candidates that passes the move test, with that candidate's index. If none passes, it returns the old cell and index 10. All earlier candidates failed the test. |
| `Movement.MonsterCannotJoinHero` | src/env.py:120-148 | A monster that starts the step two or more cells from the hero never ends it on the hero's new cell. |
| `Movement.MonsterMove` | src/env.py:133-148 | Where one monster ends the step: the clipped candidate of the first of its draws that passes `MoveOk`, otherwise its old cell. The contract states that a monster that moves lands on the candidate of one of its draws. |
| `Movement.MonsterMoveSafe` | src/env.py:139-148 | A monster stays put or moves to an in-bounds cell that is orthogonally adjacent to its old cell, is not the hero's new cell, is not the treasure cell and is at Manhattan distance ≥ 3 from the treasure. |
| `Movement.MonsterKeepsAway` | src/env.py:142-148 | A monster at distance ≥ 3 from the treasure is still at distance ≥ 3 after its move. |
| `Observation.PaintMonstersAt` | src/env.py:86-87 | After the monster writes, a cell holds −1 exactly when some monster stands on it. Otherwise it keeps its earlier value. |
| `Observation.OccupancyAt` | src/env.py:83-87 | Each grid cell holds −1 if a monster is there, else 0.5 for the treasure, else 1 for the hero, else 0: last write wins. |
| `Observation.GridSlotAt` | src/env.py:83-103 | The row-major slot `10·row + col` of the observation holds that cell's occupancy value. |
| `Observation.HeroMarkedOnce` | src/env.py:84-87 | A grid slot holds 1.0 exactly when it is the hero's cell and neither the treasure nor a monster shares that cell. |
| `Observation.MonsterDistances` | src/env.py:90-94 | The distance part has one slot per monster, holding the hero–monster Manhattan distance divided by 10, and is padded with 1.0 up to three slots. |
| `Observation.Observe` | src/env.py:98-103 | With at most three monsters the observation has 106 slots. Each extra monster adds one slot. |
| `Observation.ObservationLayout` | src/env.py:83-103 | With three monsters the observation has these 106 slots in order: 100 grid slots by the occupancy rule, (treasure − hero)/10 for row and column, each hero–monster Manhattan distance/10, then a flag that is 1 exactly when the hero is within Manhattan distance 1 of the treasure. |
| `Reward.Outcome` | src/env.py:150-179 | The reward rules by priority: adjacency to a monster first (−10, done, {}), then the treasure override (30, done, {is_success: true}), then −0.1 − 5·k plus the shaping term, not done, {is_success: false}. The contract states that the step is done exactly on adjacency or the treasure, that `is_success` is present exactly when no monster is adjacent, and that when present it is true exactly when the step is done. |
| `Reward.ComputeReward` | src/env.py:150-179 | The loops with the early return compute the priority rule `Outcome`. A monster at distance 1 gives (−10, done, {}) with no further rule applied. Otherwise, on the treasure: (30, done, {is_success: true}). Otherwise: (−0.1 − 5·k + s, not done, {is_success: false}), where k counts monsters within distance 2 and s is +3 on a strict approach to the treasure, else −1. |
| `Reward.NearCountBounds` | src/env.py:162-165 | The penalty count k is at most the number of monsters. It is zero exactly when every monster is more than two cells away. |
| `Reward.NoThreatAtTreasure` | src/env.py:155-165 | While every monster keeps distance ≥ 3 from the treasure, a hero on the treasure has no adjacent monster and no proximity penalty. |
| `Reward.TreasureReached` | src/env.py:155-177 | Under that invariant, a hero on the treasure always gets (30, done, {is_success: true}). |
| `Reward.OngoingRewardRange` | src/env.py:150-172 | A step that does not end the episode has no adjacent monster and the hero is off the treasure. Its reward lies between −1.1 − 5·(number of monsters) and 2.9. |
| `Reward.ApproachExample` | src/env.py:150-172 | Hero (0,0) moves right to (0,1), treasure (5,5), no monster near: reward 2.9, not done. |
| `Reward.SharedCellDoesNotEnd` | src/env.py:155-172 | A monster on the hero's own cell costs −5 but does not end the episode: −0.1 − 5 − 1 = −6.1. |
| `Env.GameEnv.constructor` | src/env.py:25-36 | Fresh environment: no monsters, step count 0, not yet a valid state until the first reset. |
| `Env.GameEnv.Reset` | src/env.py:42-67 | After a reset the hero and treasure are on their drawn cells (possibly the same one) and the previous-hero cell equals the hero's. There are exactly the three spawned monsters, and the previous-monster cells equal them. Each monster passes the spawn test. The step count is 0. The state invariant holds (everything in bounds, monsters at distance ≥ 3 from the treasure). The 106-slot observation of the new state is returned. |
| `Env.GameEnv.Step` | src/env.py:107-179 | The step count rises by exactly 1 and the treasure is unchanged. The previous-hero cell is the old hero cell, and the hero is moved by `MoveHero`. Each monster gets its attempts-loop result against the new hero cell, and the previous-monster cells are the old monster cells. The state invariant is preserved, so a hero on the treasure always wins. The returned reward, done and info are `Outcome` of the new state, and the observation is that of the new state. |
| `Callbacks.SuccessesAppend` | src/callbacks.py:70-71 | Finishing one more episode adds one success exactly when that episode succeeded. |
| `Callbacks.SuccessesAtMost` | src/callbacks.py:70-75 | The success count never exceeds the number of finished episodes. |
| `Callbacks.SuccessRateInUnit` | src/callbacks.py:74-75 | Each recorded success rate lies in [0, 1]. |
| `Callbacks.SuccessMeansTreasure` | src/callbacks.py:70-71 | `info.get("is_success", False)` holds for a step's info exactly when the hero reached the treasure with no monster adjacent. Such a step is terminal. The empty info of a monster-adjacency loss counts as a failure. |
| `Callbacks.RewardTracker.constructor` | src/callbacks.py:29-41 | A new tracker has empty lists and zero counters. |
| `Callbacks.RewardTracker.OnStep` | src/callbacks.py:43-89 | Every call adds the reward to the running total and 1 to the running length, and returns true. Without `done`, the lists and the success count are unchanged. With `done`, the totals including this step are appended once, the success count rises by 1 exactly on success, and the appended rate is success count / episodes and lies in [0,1]. The running counters then return to 0. The invariant is kept: the three lists have equal length, entry i holds episode i's reward sum and step count (≥ 1), and the rates are the running success rates. |
| `Callbacks.RewardTracker.EndEpisode` | src/callbacks.py:65-87 | The `done` branch: append the finished episode's total and length, count a success, append the new success rate, reset the running total, the running length and the two exploration counters. |

## Left out

- Rendering (`GameEnv.render`) and the image loading in `__init__`: display and file I/O.
- The gym `spaces` objects: only their constants (106 observation slots, 5 actions) are kept.
- The random source itself: draws are parameters.
- `Env.GameEnv.Reset`: the source retries for ever. The model requires that the supplied candidate cells contain at least three acceptable ones. A random source that never produces three is not modelled.
- `Env.GameEnv.Step`: each monster receives exactly ten perturbations. The source draws `attempts + 1` of them when `ChooseMonsterMove` accepts the candidate at index `attempts`, and all ten otherwise; `Step` does not report this count.
- Floating point: rewards, rates and observation values are exact reals. For example, −0.1 + 3 is exactly 2.9 here, not the nearest double. The Euclidean norm comparison is modelled by squared integer distances.
- `Callbacks.RewardTracker.OnStep`: `rewards` and `dones` are scalars of one environment, not the one-element arrays of a vectorised environment.
- The exploration/exploitation bookkeeping of the tracker is disabled in the source. Only its two counters, which `_on_step` still zeroes, are modelled. The never-written `episode_exploration` and `episode_exploitation` lists are not modelled.
- The stable-baselines `BaseCallback` plumbing (`self.locals`), training, plotting, the trained-model drivers and the console menu are not part of this model.
