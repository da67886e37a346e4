# pixel_fight simulation engine in Dafny

This project models the per-tick engine of `pixel_fight`, found in `src/sim.rs`. Teams of
units are spread over a plane. On every tick, each live unit picks a random enemy, walks
towards it, and kills it once it is within reach.

The model has the same shape as the engine: a decide/apply state machine.

- **Data.** A `Unit` is a record with `id`, `teamId`, `position`, `targetId`, `alive` and
  `speed`. A `UnitAction` is one of `Displace`, `SetTarget` or `Kill`, and its first field
  is always the actor. A `World` holds the team roster and the flat unit sequence. Unit
  ids are sequence indices.
- **Construction.** `Simulation.New` is a method with nested loops, as in the source. It
  builds the population team by team. The random spawn positions and the random speed
  samples are inputs, indexed by unit id. `RandSpeed` turns a speed sample into the
  source's speed formula.
- **Decide phase.** `Units.Decide` is a pure function of one unit and a read-only
  snapshot. `Simulation.DecidePhase` maps it over the snapshot. The source runs this
  phase in parallel. Nothing in it writes, so a sequential map over the pre-tick state
  has the same meaning.
- **Apply phase.** `Simulation.ApplyAll` is a left fold of `ApplyAction` over the decided
  actions, in unit-id order. Empty slots are skipped.
- **Tick and runs.** `Simulation.Tick` is one decide phase followed by one apply phase.
  `Simulation.Run` is a sequence of ticks.
- **Oracles.** Random target choice is an oracle draw for each unit, taken modulo the
  number of candidates. Vector normalisation is an oracle `Normalizer`. The elapsed time
  is a non-negative real (`Seconds`).

## Behaviour worth knowing

- **The reach test is strict.** A unit kills only when the squared distance is `< 10²`.
  A target at distance exactly 10 is not killed, and the unit moves instead
  (`SimulationProofs.ReachBoundaryMoves`).
- **No retargeting when a target dies.** A unit keeps a target that has died and keeps
  acting on it: it moves towards it, or kills it again once in reach. The kill clears
  the unit's target. A dead unit also keeps its `targetId`
  (`SimulationProofs.ChasesDeadTarget`, `SimulationProofs.TickTargets`).
- **The apply-phase outcome does not depend on order.** Each unit contributes at most one
  action, and that action acts on its own slot. A kill only clears the killer's target
  and lowers the victim's `alive` flag. `Simulation.ApplyAllSettles` proves that the
  in-order fold equals `Settle`, which defines each unit's state slot by slot with no
  application order.
- **The zero-direction fallback is never reached from a decision.** A target sitting on
  the unit is at distance 0, inside reach, so the unit kills it rather than moving
  (`SimulationProofs.CoLocatedTargetIsKilled`).

## Model

| member | source | states |
|---|---|---|
| Units.RandSpeed | src/sim.rs:47-49 | the per-unit speed drawn from a sample in [0, 1) lies in [SPEED·(1−0.5), SPEED·(1+0.5)) = [10, 30), and a middle sample gives exactly SPEED |
| Units.NewUnit | src/sim.rs:52-61 | a new unit has the given id, team and position, is alive, holds no target, and has a speed in [10, 30) |
| Units.Displaced | src/sim.rs:63-65 | moving a unit changes only its position, and the change is exactly the movement vector |
| Units.Retargeted | src/sim.rs:67-69 | setting a target changes only the target field |
| Units.Killed | src/sim.rs:71-73 | killing changes only the liveness flag, and the unit is dead afterwards |
| Units.EnemyIds | src/sim.rs:88-92 | the candidate list holds exactly the ids of the alive units of other teams in the snapshot, and is no longer than the population |
| Units.Choose | src/sim.rs:93-95 | the random choice yields nothing exactly when there are no candidates, and otherwise yields one of the candidates |
| Units.InReach | src/sim.rs:117-119 | the reach test holds exactly when the squared distance, taken in either direction, is below REACH² = 100, so it is symmetric; a unit is always in reach of a point it sits on |
| Units.Decide | src/sim.rs:75-98 | a dead unit yields no action; a live unit yields exactly one action whose actor is its own id; with a target it kills exactly when the target is in reach (victim = the target's id) and moves exactly when it is not; without a target it sets a target that is an alive enemy, or nothing exactly when no alive enemy exists |
| Geometry.DirectionTo | src/sim.rs:121-125 | when the target sits on the unit, the direction is the zero vector instead of a failure; otherwise it is the normalised difference. The zero case is never reached from a decision (see `SimulationProofs.CoLocatedTargetIsKilled`) |
| Simulation.New | src/sim.rs:145-159 | the roster is kept as given; the unit count is the sum of the teams' counts; unit i has id i; every team id indexes the roster, and team j's units fill the contiguous block that starts after the units of teams 0..j−1; every unit starts alive, without a target, at its spawn position, with its drawn speed |
| Simulation.DecidePhase | src/sim.rs:162-166 | the decide phase yields exactly one slot per unit; the facts about each slot are stated by `SimulationProofs.DecidePhaseSlots` and `Simulation.DecidedActionsWellFormed` |
| Simulation.ApplyAction | src/sim.rs:170-177 | applying one action keeps the population size and every unit's id, team and speed, and never revives a unit |
| Simulation.ApplyAll | src/sim.rs:168-179 | the apply phase keeps the population size and every unit's id, team and speed, and never revives a unit |
| Simulation.ApplyAllSettles | src/sim.rs:168-179 | when each slot's action is taken by its own unit, the in-order fold leaves unit i as its own action alone dictates, and dead exactly when some action kills it; the result does not depend on application order |
| Simulation.ApplyAllKeepsValid | src/sim.rs:168-179 | applying actions that are in range, taken by their own slot's unit and never self-targeting keeps every id an index and every target an index other than the holder's own |
| Simulation.DecidedActionsWellFormed | src/sim.rs:75-98 | under the invariant, every decided action names in-range units, is taken by its own slot's unit, and never makes a unit target itself |
| Simulation.Tick | src/sim.rs:161-180 | a tick keeps the roster, the population size and every unit's id, team and speed; dead units stay dead; the invariant (ids are indices, team ids index the roster, every target is an index other than the holder's own) is preserved |
| Simulation.Run | src/sim.rs:161-180 | over any sequence of ticks the invariant holds, the roster, population and identities are unchanged, and no dead unit comes back to life |
| SimulationProofs.ApplyDisplaceEffect | src/sim.rs:171 | a displacement changes only its actor's position, by exactly the movement vector |
| SimulationProofs.ApplySetTargetEffect | src/sim.rs:172 | a set-target changes only its actor's target |
| SimulationProofs.ApplyKillEffect | src/sim.rs:173-176 | a kill clears the killer's target, marks the victim dead, and changes nothing else (also when the killer is its own victim) |
| SimulationProofs.KillIdempotent | src/sim.rs:173-176 | a kill on an already dead victim only clears the killer's target, and applying the same kill twice equals applying it once |
| SimulationProofs.DecidePhaseSlots | src/sim.rs:162-166 | slot i of the decide phase is empty exactly when unit i is dead, and otherwise holds an action whose actor is unit i |
| SimulationProofs.TickSettles | src/sim.rs:161-180 | after a tick, every unit equals its pointwise settlement under the actions decided against the pre-tick snapshot |
| SimulationProofs.TickDeath | src/sim.rs:161-180 | after a tick a unit is alive exactly when it was alive and no unit alive in the snapshot held it as a target within reach |
| SimulationProofs.TickMovement | src/sim.rs:79-86 | a unit's position changes only when it is alive with a target out of reach, and then by speed × elapsed along the direction to the target's snapshot position |
| SimulationProofs.TickTargets | src/sim.rs:77-97 | a live untargeted unit ends the tick holding an alive enemy (a valid index other than its own), or nothing exactly when no enemy is alive; a killer drops its target; every other unit, including a dead one, keeps its target |
| SimulationProofs.ChooseReachesEvery | src/sim.rs:93-95 | every candidate can be chosen: the draw equal to its index picks it |
| SimulationProofs.SelectionExcludesSelf | src/sim.rs:88-96 | when ids are indices, target selection never returns the chooser's own id |
| SimulationProofs.ReachBoundaryMoves | src/sim.rs:113-119 | the reach test is strict: a target at distance exactly REACH = 10 leads to a move, not a kill |
| SimulationProofs.ChasesDeadTarget | src/sim.rs:77-86 | a live unit holding a dead target aims its action at that target: a kill whose victim is that target, or a step towards the target's snapshot position. It never picks a new target |
| SimulationProofs.CoLocatedTargetIsKilled | src/sim.rs:79-80 | a live unit whose target sits on it kills that target; it never moves with the zero-direction fallback |
| SimulationProofs.StepLength | src/sim.rs:82-85 | a move has squared length (speed × elapsed)² whenever normalisation yields a unit vector for the difference towards the target |
| Scenarios.DuelTargets | src/sim.rs:88-96 | two lone enemies each pick the other on the first tick, whatever the draws, and do not move |
| Scenarios.DuelCloseIn | src/sim.rs:79-86 | on the next one-second tick they move from 0 and 100 to 20 and 80, and both survive |
| Scenarios.LungeKills | src/sim.rs:79-80 | a target at distance 5 is killed rather than overshot by a step of 20, and the killer drops its target |

## Left out

- Team colour, `Unit::color` and the accessors `units`, `teams`, `position` and `is_alive`:
  these are read-only presentation access. The accessors are plain field reads of the
  datatypes. `Team::new` is the `Team` datatype constructor.
- `random_nearby_pos`: trigonometry over random samples. Spawn positions are inputs to
  `Simulation.New`. The model does not state that they lie within the team's spawn
  radius.
- The random number generator: draws are oracle inputs. Speed samples are assumed to be
  in [0, 1), as `random::<f32>()` returns. Target choice uses a draw taken modulo the
  candidate count, and the model does not state uniformity.
- Units.Decide: the displacement vector is opaque, because normalisation (a square root)
  is an oracle. `SimulationProofs.StepLength` states its length only under the assumption
  that the oracle returns unit vectors.
- Floating point: `f32` arithmetic is exact real arithmetic here, so rounding in
  positions, distances and speeds is not modelled. `Duration::as_secs_f32` is a
  non-negative real.
- rayon parallelism in the decide phase: modelled as a sequential map over the
  unchanged snapshot.
- Out-of-range indexing panics in Rust. Here the matching `requires` clauses rule them
  out, and the construction invariant `Simulation.Valid` discharges them.
- Window handling, drawing, camera view, command-line parsing, RON configuration and the
  conversion from configuration to teams: these are I/O and presentation outside the
  engine.
