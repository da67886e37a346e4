/**
 * Properties of the decide/apply state machine: the exact effect of each
 * action, kill idempotence, what one tick does to each unit, and the reach and
 * target-selection guarantees of the decision.
 */
module SimulationProofs {

  import opened Wrappers
  import opened Geometry
  import opened Units
  import opened Simulation

  /** `a` and `b` agree on every index except those in `touched`. */
  predicate UnchangedExcept(a: seq<Unit>, b: seq<Unit>, touched: set<nat>)
  {
    |a| == |b| && forall i :: 0 <= i < |a| && i !in touched ==> a[i] == b[i]
  }

  /** A displacement moves its actor by the given vector and changes nothing else. */
  lemma ApplyDisplaceEffect(units: seq<Unit>, id: nat, movement: Vec2)
    requires id < |units|
    ensures var r := ApplyAction(units, Displace(id, movement));
      && UnchangedExcept(units, r, {id})
      && r[id].(position := units[id].position) == units[id]
      && r[id].position == Add(units[id].position, movement)
  {
  }

  /** Setting a target overwrites its actor's target and changes nothing else. */
  lemma ApplySetTargetEffect(units: seq<Unit>, id: nat, target: Option<nat>)
    requires id < |units| && (target.Some? ==> target.value < |units|)
    ensures var r := ApplyAction(units, SetTarget(id, target));
      && UnchangedExcept(units, r, {id})
      && r[id].(targetId := units[id].targetId) == units[id]
      && r[id].targetId == target
  {
  }

  /** A kill clears the killer's target and marks the victim dead, and changes nothing else. */
  lemma ApplyKillEffect(units: seq<Unit>, killer: nat, victim: nat)
    requires killer < |units| && victim < |units|
    ensures var r := ApplyAction(units, Kill(killer, victim));
      && UnchangedExcept(units, r, {killer, victim})
      && r[killer].targetId == None
      && !r[victim].alive
      && (killer != victim ==> r[killer] == units[killer].(targetId := None))
      && (killer != victim ==> r[victim] == units[victim].(alive := false))
      && (killer == victim ==> r[killer] == units[killer].(targetId := None, alive := false))
  {
  }

  /**
   * Killing an already dead unit only clears the killer's target, and applying
   * the same kill twice is the same as applying it once.
   */
  lemma KillIdempotent(units: seq<Unit>, killer: nat, victim: nat)
    requires killer < |units| && victim < |units|
    ensures !units[victim].alive ==>
      ApplyAction(units, Kill(killer, victim)) == units[killer := units[killer].(targetId := None)]
    ensures var once := ApplyAction(units, Kill(killer, victim));
      ApplyAction(once, Kill(killer, victim)) == once
  {
  }

  /** Some unit alive in the snapshot holds unit `i` as its target and has it in reach. */
  predicate Threatened(units: seq<Unit>, i: nat)
    requires i < |units|
  {
    exists k :: 0 <= k < |units| && units[k].alive && units[k].targetId == Some(i)
      && InReach(units[k].position, units[i].position)
  }

  /**
   * The decide phase has one slot per unit: empty exactly for a dead unit, and
   * otherwise holding an action whose actor is that unit.
   */
  lemma DecidePhaseSlots(units: seq<Unit>, elapsed: Seconds, normalize: Normalizer, draws: nat -> nat, i: nat)
    requires forall j :: 0 <= j < |units| ==> TargetInBounds(units[j], |units|)
    requires i < |units|
    ensures var acts := DecidePhase(units, elapsed, normalize, draws);
      && (acts[i].None? <==> !units[i].alive)
      && (acts[i].Some? ==> acts[i].value.id == units[i].id)
  {
    assert DecidePhase(units, elapsed, normalize, draws)[i] == Decide(units[i], units, elapsed, normalize, draws(i));
  }

  /** A tick leaves every unit as Settle predicts from the decided actions. */
  lemma TickSettles(w: World, elapsed: Seconds, normalize: Normalizer, draws: nat -> nat, i: nat)
    requires Valid(w) && i < |w.units|
    ensures Tick(w, elapsed, normalize, draws).units[i]
      == Settle(w.units, DecidePhase(w.units, elapsed, normalize, draws), i)
  {
    DecidedActionsWellFormed(w, elapsed, normalize, draws);
    ApplyAllSettles(w.units, DecidePhase(w.units, elapsed, normalize, draws));
  }

  /**
   * Death in a tick: a unit is alive afterwards exactly when it was alive before
   * and no unit alive in the snapshot had it as a target within reach. A kill
   * aimed at a target that another unit killed the same tick is harmless.
   */
  lemma TickDeath(w: World, elapsed: Seconds, normalize: Normalizer, draws: nat -> nat, i: nat)
    requires Valid(w) && i < |w.units|
    ensures Tick(w, elapsed, normalize, draws).units[i].alive
      <==> w.units[i].alive && !Threatened(w.units, i)
  {
    var units := w.units;
    var acts := DecidePhase(units, elapsed, normalize, draws);
    TickSettles(w, elapsed, normalize, draws, i);
    if KilledBy(acts, i) {
      var k :| 0 <= k < |acts| && acts[k].Some? && acts[k].value.Kill? && acts[k].value.victim == i;
      assert acts[k] == Decide(units[k], units, elapsed, normalize, draws(k));
      var t := units[k].targetId.value;
      assert units[t].id == t;
      assert units[k].alive && units[k].targetId == Some(i) && InReach(units[k].position, units[i].position);
    }
    if Threatened(units, i) {
      var k :| 0 <= k < |units| && units[k].alive && units[k].targetId == Some(i)
        && InReach(units[k].position, units[i].position);
      assert acts[k] == Decide(units[k], units, elapsed, normalize, draws(k));
      assert units[i].id == i;
      assert acts[k].Some? && acts[k].value.Kill? && acts[k].value.victim == i;
    }
  }

  /**
   * Movement in a tick: a unit's position changes only when it was alive and
   * held a target out of reach, and then by its speed times the elapsed time
   * along the direction to that target's snapshot position.
   */
  lemma TickMovement(w: World, elapsed: Seconds, normalize: Normalizer, draws: nat -> nat, i: nat)
    requires Valid(w) && i < |w.units|
    ensures var u := w.units[i];
      var p := Tick(w, elapsed, normalize, draws).units[i].position;
      if u.alive && u.targetId.Some? && !InReach(u.position, w.units[u.targetId.value].position) then
        p == Add(u.position, Scale(DirectionTo(u.position, w.units[u.targetId.value].position, normalize), u.speed * elapsed))
      else
        p == u.position
  {
    TickSettles(w, elapsed, normalize, draws, i);
    assert DecidePhase(w.units, elapsed, normalize, draws)[i] == Decide(w.units[i], w.units, elapsed, normalize, draws(i));
  }

  /**
   * Targets in a tick: a live unit without a target ends the tick holding an
   * alive enemy of the snapshot, or nothing exactly when no enemy is alive; a
   * live unit that kills drops its target; every other unit keeps its target,
   * even when that target has died (there is no retargeting on death).
   */
  lemma TickTargets(w: World, elapsed: Seconds, normalize: Normalizer, draws: nat -> nat, i: nat)
    requires Valid(w) && i < |w.units|
    ensures var u := w.units[i];
      var t := Tick(w, elapsed, normalize, draws).units[i].targetId;
      && (u.alive && u.targetId.None? && t.Some? ==>
            t.value < |w.units| && t.value != i && IsEnemyOf(u, w.units[t.value]))
      && (u.alive && u.targetId.None? ==>
            (t.None? <==> forall j :: 0 <= j < |w.units| ==> !IsEnemyOf(u, w.units[j])))
      && (u.alive && u.targetId.Some? && InReach(u.position, w.units[u.targetId.value].position) ==> t.None?)
      && (u.alive && u.targetId.Some? && !InReach(u.position, w.units[u.targetId.value].position) ==> t == u.targetId)
      && (!u.alive ==> t == u.targetId)
  {
    var units := w.units;
    var u := units[i];
    TickSettles(w, elapsed, normalize, draws, i);
    var d := Decide(u, units, elapsed, normalize, draws(i));
    assert DecidePhase(units, elapsed, normalize, draws)[i] == d;
    if u.alive && u.targetId.None? && d.value.target.Some? {
      var j :| 0 <= j < |units| && IsEnemyOf(u, units[j]) && units[j].id == d.value.target.value;
      assert units[j].id == j;
    }
  }

  /** Any candidate can be the one chosen: the draw that equals its index picks it. */
  lemma ChooseReachesEvery(candidates: seq<nat>, k: nat)
    requires k < |candidates|
    ensures Choose(candidates, k) == Some(candidates[k])
  {
  }

  /** Selection never picks the chooser itself: its own team is never an enemy team. */
  lemma SelectionExcludesSelf(units: seq<Unit>, i: nat, draw: nat)
    requires Indexed(units) && i < |units|
    ensures Choose(EnemyIds(units[i], units), draw) != Some(i)
  {
  }

  /**
   * The reach test is strict: a target at distance exactly REACH is out of
   * reach, so the unit moves instead of killing.
   */
  lemma ReachBoundaryMoves(self: Unit, units: seq<Unit>, elapsed: Seconds, normalize: Normalizer, draw: nat)
    requires self.alive && self.targetId.Some? && self.targetId.value < |units|
    requires MagnitudeSquared(Sub(self.position, units[self.targetId.value].position)) == REACH * REACH
    ensures Decide(self, units, elapsed, normalize, draw).value.Displace?
  {
  }

  /**
   * A unit keeps chasing a target that has died: its action is aimed at that
   * target, a kill of it when in reach and otherwise a step towards its
   * snapshot position; it never picks a new target while holding one.
   */
  lemma ChasesDeadTarget(self: Unit, units: seq<Unit>, elapsed: Seconds, normalize: Normalizer, draw: nat)
    requires self.alive && self.targetId.Some? && self.targetId.value < |units|
    requires !units[self.targetId.value].alive
    ensures var d := Decide(self, units, elapsed, normalize, draw).value;
      var to := units[self.targetId.value];
      && !d.SetTarget?
      && (d.Kill? ==> d == Kill(self.id, to.id))
      && (d.Displace? ==>
            d == Displace(self.id, Scale(DirectionTo(self.position, to.position, normalize), self.speed * elapsed)))
  {
  }

  /**
   * A target sitting on the unit is at distance zero, inside reach, so it is
   * killed: the zero-direction fallback of DirectionTo is never reached from a
   * decision.
   */
  lemma CoLocatedTargetIsKilled(self: Unit, units: seq<Unit>, elapsed: Seconds, normalize: Normalizer, draw: nat)
    requires self.alive && self.targetId.Some? && self.targetId.value < |units|
    requires self.position == units[self.targetId.value].position
    ensures Decide(self, units, elapsed, normalize, draw) == Some(Kill(self.id, units[self.targetId.value].id))
  {
  }

  /**
   * A move covers exactly speed times elapsed time when the normaliser returns
   * a unit vector for the difference towards the target.
   */
  lemma StepLength(self: Unit, units: seq<Unit>, elapsed: Seconds, normalize: Normalizer, draw: nat)
    requires self.alive && self.targetId.Some? && self.targetId.value < |units|
    requires var to := units[self.targetId.value].position;
      self.position != to ==> MagnitudeSquared(normalize(Sub(to, self.position))) == 1.0
    ensures var d := Decide(self, units, elapsed, normalize, draw).value;
      d.Displace? ==> MagnitudeSquared(d.movement) == (self.speed * elapsed) * (self.speed * elapsed)
  {
    var to := units[self.targetId.value].position;
    var d := Decide(self, units, elapsed, normalize, draw).value;
    if d.Displace? {
      ScaleMagnitude(DirectionTo(self.position, to, normalize), self.speed * elapsed);
    }
  }
}
