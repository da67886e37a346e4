/**
 * Small concrete runs: two single-unit teams closing in on each other, and a
 * unit whose target is closer than its step would carry it.
 */
module Scenarios {

  import opened Wrappers
  import opened Geometry
  import opened Units
  import opened Simulation
  import opened SimulationProofs

  const Duel: World := World(
    [Team(1, Vec2(0.0, 0.0), 0.0), Team(1, Vec2(100.0, 0.0), 0.0)],
    [Unit(0, 0, Vec2(0.0, 0.0), None, true, SPEED), Unit(1, 1, Vec2(100.0, 0.0), None, true, SPEED)]
  )

  /** The duel once both units hold each other as targets. */
  const Engaged: World := World(
    Duel.teams,
    [Unit(0, 0, Vec2(0.0, 0.0), Some(1), true, SPEED), Unit(1, 1, Vec2(100.0, 0.0), Some(0), true, SPEED)]
  )

  /** Tick one, for one unit: it picks the only enemy, whatever the draws, and does not move. */
  lemma DuelTargetsOne(w: World, normalize: Normalizer, draws: nat -> nat, i: nat)
    requires w == Duel && i < 2
    ensures Valid(w) && Tick(w, 1.0, normalize, draws).units[i] == Engaged.units[i]
  {
    assert Valid(w);
    var enemy := 1 - i;
    assert IsEnemyOf(w.units[i], w.units[enemy]);
    TickTargets(w, 1.0, normalize, draws, i);
    TickMovement(w, 1.0, normalize, draws, i);
    TickDeath(w, 1.0, normalize, draws, i);
  }

  /** Tick one: both units hold each other as targets, whatever the draws. */
  lemma DuelTargets(normalize: Normalizer, draws: nat -> nat)
    ensures Tick(Duel, 1.0, normalize, draws) == Engaged
  {
    var w1 := Tick(Duel, 1.0, normalize, draws);
    DuelTargetsOne(Duel, normalize, draws, 0);
    DuelTargetsOne(Duel, normalize, draws, 1);
    assert w1.units == Engaged.units;
  }

  /** Where each duellist stands after the second tick. */
  function DuelSecondPosition(i: nat): Vec2
  {
    if i == 0 then Vec2(20.0, 0.0) else Vec2(80.0, 0.0)
  }

  /** Tick two, for one unit: it moves 20 towards the other and survives. */
  lemma DuelCloseInOne(w: World, normalize: Normalizer, draws: nat -> nat, i: nat)
    requires w == Engaged && i < 2
    requires normalize(Vec2(100.0, 0.0)) == Vec2(1.0, 0.0)
    requires normalize(Vec2(-100.0, 0.0)) == Vec2(-1.0, 0.0)
    ensures Valid(w)
    ensures var u := Tick(w, 1.0, normalize, draws).units[i];
      u.position == DuelSecondPosition(i) && u.alive
  {
    assert Valid(w);
    assert !InReach(w.units[0].position, w.units[1].position);
    assert !InReach(w.units[1].position, w.units[0].position);
    TickMovement(w, 1.0, normalize, draws, i);
    TickDeath(w, 1.0, normalize, draws, i);
  }

  /**
   * Tick two, one second later: each unit moves 20 towards the other, and at
   * distance 100 nobody is in reach, so nobody dies.
   */
  lemma DuelCloseIn(normalize: Normalizer, draws: nat -> nat)
    requires normalize(Vec2(100.0, 0.0)) == Vec2(1.0, 0.0)
    requires normalize(Vec2(-100.0, 0.0)) == Vec2(-1.0, 0.0)
    ensures var w2 := Tick(Engaged, 1.0, normalize, draws);
      && w2.units[0].position == Vec2(20.0, 0.0) && w2.units[1].position == Vec2(80.0, 0.0)
      && w2.units[0].alive && w2.units[1].alive
  {
    DuelCloseInOne(Engaged, normalize, draws, 0);
    DuelCloseInOne(Engaged, normalize, draws, 1);
  }

  const Lunge: World := World(
    [Team(1, Vec2(0.0, 0.0), 0.0), Team(1, Vec2(5.0, 0.0), 0.0)],
    [Unit(0, 0, Vec2(0.0, 0.0), Some(1), true, SPEED), Unit(1, 1, Vec2(5.0, 0.0), None, true, SPEED)]
  )

  /**
   * A target at distance 5 is killed rather than overshot, even though the
   * unit's step for the tick would be 20; the killer then holds no target.
   */
  lemma LungeKills(normalize: Normalizer, draws: nat -> nat)
    ensures var w1 := Tick(Lunge, 1.0, normalize, draws);
      && !w1.units[1].alive && w1.units[0].targetId == None
      && w1.units[0].position == Vec2(0.0, 0.0)
  {
    assert Valid(Lunge);
    assert InReach(Lunge.units[0].position, Lunge.units[1].position);
    TickDeath(Lunge, 1.0, normalize, draws, 1);
    TickTargets(Lunge, 1.0, normalize, draws, 0);
    TickMovement(Lunge, 1.0, normalize, draws, 0);
  }
}
