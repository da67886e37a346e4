/**
 * The simulation: a fixed roster of teams and a flat population of units whose
 * ids are their indices. One tick is a decide phase (every unit decides against
 * the same pre-tick snapshot) followed by an apply phase (the decided actions are
 * applied one by one, in unit-id order).
 */
module Simulation {

  import opened Wrappers
  import opened Geometry
  import opened Units

  /** A team's spawn descriptor; its index in the roster is the team id. */
  datatype Team = Team(initialUnitCount: nat, initialPosition: Vec2, initialRadius: real)

  datatype World = World(teams: seq<Team>, units: seq<Unit>)

  /** Number of units the roster asks for. */
  function TotalCount(teams: seq<Team>): nat
  {
    if |teams| == 0 then 0
    else TotalCount(teams[..|teams| - 1]) + teams[|teams| - 1].initialUnitCount
  }

  /** Index of the first unit of team `j`: the units of the teams before it. */
  function TeamStart(teams: seq<Team>, j: nat): nat
    requires j <= |teams|
  {
    TotalCount(teams[..j])
  }

  /** Every unit's id is its index. */
  predicate Indexed(units: seq<Unit>)
  {
    forall i :: 0 <= i < |units| ==> units[i].id == i
  }

  /** Every held target is an index of the population, and never the holder itself. */
  predicate TargetsValid(units: seq<Unit>)
  {
    forall i :: 0 <= i < |units| && units[i].targetId.Some? ==>
      units[i].targetId.value < |units| && units[i].targetId.value != i
  }

  /** The invariant construction establishes and every tick keeps. */
  predicate Valid(w: World)
  {
    && Indexed(w.units)
    && TargetsValid(w.units)
    && forall i :: 0 <= i < |w.units| ==> w.units[i].teamId < |w.teams|
  }

  /** Units of team `j` occupy exactly the block [TeamStart(j), TeamStart(j + 1)). */
  predicate InTeamBlock(teams: seq<Team>, teamId: nat, i: nat)
  {
    teamId < |teams| && TeamStart(teams, teamId) <= i < TeamStart(teams, teamId + 1)
  }

  lemma TotalCountStep(teams: seq<Team>, j: nat)
    requires j < |teams|
    ensures TeamStart(teams, j + 1) == TeamStart(teams, j) + teams[j].initialUnitCount
  {
    assert teams[..j + 1][..j] == teams[..j];
  }

  /**
   * Builds the population team by team, scattering each team's count of units.
   * The random spawn positions and speed samples are inputs, indexed by the
   * id the unit receives.
   */
  method New(desired: seq<Team>, positions: seq<Vec2>, speedSamples: seq<real>) returns (w: World)
    requires |positions| == TotalCount(desired) && |speedSamples| == TotalCount(desired)
    requires forall i :: 0 <= i < |speedSamples| ==> 0.0 <= speedSamples[i] < 1.0
    ensures w.teams == desired
    ensures |w.units| == TotalCount(desired)
    ensures Valid(w)
    ensures forall i :: 0 <= i < |w.units| ==> InTeamBlock(desired, w.units[i].teamId, i)
    ensures forall i :: 0 <= i < |w.units| ==>
      && w.units[i].alive && w.units[i].targetId == None
      && w.units[i].position == positions[i]
      && w.units[i].speed == RandSpeed(speedSamples[i])
  {
    var teams: seq<Team> := [];
    var units: seq<Unit> := [];
    var j := 0;
    while j < |desired|
      invariant j <= |desired|
      invariant teams == desired[..j]
      invariant |units| == TeamStart(desired, j) <= |positions|
      invariant forall i :: 0 <= i < |units| ==> units[i].teamId < j && InTeamBlock(desired, units[i].teamId, i)
      invariant forall i :: 0 <= i < |units| ==>
        && units[i].id == i && units[i].alive && units[i].targetId == None
        && units[i].position == positions[i] && units[i].speed == RandSpeed(speedSamples[i])
    {
      TotalCountStep(desired, j);
      TeamStartMonotone(desired, j + 1, |desired|);
      assert desired[..|desired|] == desired;
      var team := desired[j];
      var k := 0;
      while k < team.initialUnitCount
        invariant k <= team.initialUnitCount
        invariant |units| == TeamStart(desired, j) + k <= |positions|
        invariant forall i :: 0 <= i < |units| ==> units[i].teamId <= j && InTeamBlock(desired, units[i].teamId, i)
        invariant forall i :: 0 <= i < |units| ==>
          && units[i].id == i && units[i].alive && units[i].targetId == None
          && units[i].position == positions[i] && units[i].speed == RandSpeed(speedSamples[i])
      {
        var id := |units|;
        var unit := NewUnit(j, id, positions[id], speedSamples[id]);
        assert InTeamBlock(desired, j, id);
        units := units + [unit];
        k := k + 1;
      }
      teams := teams + [team];
      j := j + 1;
    }
    assert desired[..|desired|] == desired;
    w := World(teams, units);
  }

  lemma TeamStartMonotone(teams: seq<Team>, a: nat, b: nat)
    requires a <= b <= |teams|
    ensures TeamStart(teams, a) <= TeamStart(teams, b)
    decreases b - a
  {
    if a < b {
      TotalCountStep(teams, a);
      TeamStartMonotone(teams, a + 1, b);
    }
  }

  /** The decide phase: every unit decides against the same snapshot. */
  function DecidePhase(units: seq<Unit>, elapsed: Seconds, normalize: Normalizer, draws: nat -> nat)
    : (acts: seq<Option<UnitAction>>)
    requires forall i :: 0 <= i < |units| ==> TargetInBounds(units[i], |units|)
    ensures |acts| == |units|
  {
    seq(|units|, i requires 0 <= i < |units| => Decide(units[i], units, elapsed, normalize, draws(i)))
  }

  /** The indices an action names exist in a population of `n` units. */
  predicate ActionInBounds(a: UnitAction, n: nat)
  {
    match a
    case Displace(id, _) => id < n
    case SetTarget(id, t) => id < n && (t.Some? ==> t.value < n)
    case Kill(id, victim) => id < n && victim < n
  }

  predicate AllInBounds(acts: seq<Option<UnitAction>>, n: nat)
  {
    forall k :: 0 <= k < |acts| && acts[k].Some? ==> ActionInBounds(acts[k].value, n)
  }

  /** Applies one action. A kill first clears the killer's target, then marks the victim dead. */
  function ApplyAction(units: seq<Unit>, a: UnitAction): (r: seq<Unit>)
    requires ActionInBounds(a, |units|)
    ensures |r| == |units|
    ensures forall i :: 0 <= i < |r| ==> SameIdentity(units[i], r[i])
    ensures forall i :: 0 <= i < |r| && !units[i].alive ==> !r[i].alive
  {
    match a
    case Displace(id, movement) => units[id := Displaced(units[id], movement)]
    case SetTarget(id, target) => units[id := Retargeted(units[id], target)]
    case Kill(id, victim) =>
      var cleared := units[id := Retargeted(units[id], None)];
      cleared[victim := Killed(cleared[victim])]
  }

  /** The apply phase: a left fold of ApplyAction over the decided actions, skipping the empty ones. */
  function ApplyAll(units: seq<Unit>, acts: seq<Option<UnitAction>>): (r: seq<Unit>)
    requires AllInBounds(acts, |units|)
    ensures |r| == |units|
    ensures forall i :: 0 <= i < |r| ==> SameIdentity(units[i], r[i])
    ensures forall i :: 0 <= i < |r| && !units[i].alive ==> !r[i].alive
    decreases |acts|
  {
    if |acts| == 0 then units
    else
      var prior := ApplyAll(units, acts[..|acts| - 1]);
      match acts[|acts| - 1]
      case None => prior
      case Some(a) => ApplyAction(prior, a)
  }

  /** Some decided action kills unit `i`. */
  predicate KilledBy(acts: seq<Option<UnitAction>>, i: nat)
  {
    exists k :: 0 <= k < |acts| && acts[k].Some? && acts[k].value.Kill? && acts[k].value.victim == i
  }

  /** The action in slot `k`, if any, is taken by unit `k`. */
  predicate ActorsIndexed(acts: seq<Option<UnitAction>>)
  {
    forall k :: 0 <= k < |acts| && acts[k].Some? ==> acts[k].value.id == k
  }

  /** No action in slot `k` makes unit `k` target itself. */
  predicate NoSelfTargeting(acts: seq<Option<UnitAction>>)
  {
    forall k :: 0 <= k < |acts| && acts[k].Some? && acts[k].value.SetTarget? && acts[k].value.target.Some? ==>
      acts[k].value.target.value != k
  }

  /**
   * What unit `i` looks like after the apply phase, computed from its own slot
   * alone and from whether any action kills it: the reference the fold is
   * proved against. It mentions no application order.
   */
  function Settle(units: seq<Unit>, acts: seq<Option<UnitAction>>, i: nat): Unit
    requires i < |units|
  {
    var u := units[i];
    var own: Option<UnitAction> := if i < |acts| then acts[i] else None;
    var acted :=
      match own
      case None => u
      case Some(Displace(_, movement)) => Displaced(u, movement)
      case Some(SetTarget(_, target)) => Retargeted(u, target)
      case Some(Kill(_, _)) => Retargeted(u, None);
    if KilledBy(acts, i) then Killed(acted) else acted
  }

  lemma KilledByLast(acts: seq<Option<UnitAction>>, i: nat)
    requires |acts| > 0
    ensures KilledBy(acts, i) <==>
      KilledBy(acts[..|acts| - 1], i) || (acts[|acts| - 1].Some? && acts[|acts| - 1].value == Kill(acts[|acts| - 1].value.id, i))
  {
    var m := |acts| - 1;
    var pre := acts[..m];
    if KilledBy(acts, i) {
      var k :| 0 <= k < |acts| && acts[k].Some? && acts[k].value.Kill? && acts[k].value.victim == i;
      if k < m {
        assert pre[k] == acts[k];
      }
    }
    if KilledBy(pre, i) {
      var k :| 0 <= k < |pre| && pre[k].Some? && pre[k].value.Kill? && pre[k].value.victim == i;
      assert acts[k] == pre[k];
    }
  }

  /**
   * The apply phase fold agrees, unit by unit, with Settle: when every slot's
   * action is taken by its own unit, the outcome does not depend on the order in
   * which the actions are applied.
   */
  lemma {:induction false} ApplyAllSettles(units: seq<Unit>, acts: seq<Option<UnitAction>>)
    requires |acts| <= |units| && AllInBounds(acts, |units|) && ActorsIndexed(acts)
    ensures forall i :: 0 <= i < |units| ==> ApplyAll(units, acts)[i] == Settle(units, acts, i)
    decreases |acts|
  {
    if |acts| > 0 {
      var m := |acts| - 1;
      var pre := acts[..m];
      assert forall k :: 0 <= k < m ==> pre[k] == acts[k];
      ApplyAllSettles(units, pre);
      var prior := ApplyAll(units, pre);
      forall i | 0 <= i < |units|
        ensures ApplyAll(units, acts)[i] == Settle(units, acts, i)
      {
        KilledByLast(acts, i);
      }
    }
  }

  /** Under the invariant, the decide phase yields in-bounds, self-acting, non-self-targeting actions. */
  lemma DecidedActionsWellFormed(w: World, elapsed: Seconds, normalize: Normalizer, draws: nat -> nat)
    requires Valid(w)
    ensures var acts := DecidePhase(w.units, elapsed, normalize, draws);
      AllInBounds(acts, |w.units|) && ActorsIndexed(acts) && NoSelfTargeting(acts)
  {
    var units := w.units;
    var acts := DecidePhase(units, elapsed, normalize, draws);
    forall k | 0 <= k < |acts| && acts[k].Some?
      ensures ActionInBounds(acts[k].value, |units|) && acts[k].value.id == k
      ensures acts[k].value.SetTarget? && acts[k].value.target.Some? ==> acts[k].value.target.value != k
    {
      var u := units[k];
      var a := acts[k].value;
      assert acts[k] == Decide(u, units, elapsed, normalize, draws(k));
      if a.SetTarget? && a.target.Some? {
        var i :| 0 <= i < |units| && IsEnemyOf(u, units[i]) && units[i].id == a.target.value;
        assert units[i].id == i;
      }
    }
  }

  /**
   * The apply phase keeps the invariant when every slot is taken by its own
   * unit, names only existing units and never makes a unit target itself.
   */
  lemma ApplyAllKeepsValid(w: World, acts: seq<Option<UnitAction>>)
    requires Valid(w) && |acts| == |w.units|
    requires AllInBounds(acts, |w.units|) && ActorsIndexed(acts) && NoSelfTargeting(acts)
    ensures Valid(World(w.teams, ApplyAll(w.units, acts)))
  {
    ApplyAllSettles(w.units, acts);
    var r := ApplyAll(w.units, acts);
    forall i | 0 <= i < |r| && r[i].targetId.Some?
      ensures r[i].targetId.value < |r| && r[i].targetId.value != i
    {
      assert r[i] == Settle(w.units, acts, i);
    }
  }

  /** One tick: decide against the pre-tick snapshot, then apply in unit-id order. */
  function Tick(w: World, elapsed: Seconds, normalize: Normalizer, draws: nat -> nat): (r: World)
    requires Valid(w)
    ensures r.teams == w.teams
    ensures |r.units| == |w.units|
    ensures forall i :: 0 <= i < |w.units| ==> SameIdentity(w.units[i], r.units[i])
    ensures forall i :: 0 <= i < |w.units| && !w.units[i].alive ==> !r.units[i].alive
    ensures Valid(r)
  {
    var acts := DecidePhase(w.units, elapsed, normalize, draws);
    DecidedActionsWellFormed(w, elapsed, normalize, draws);
    ApplyAllKeepsValid(w, acts);
    World(w.teams, ApplyAll(w.units, acts))
  }

  /** The inputs of one externally driven tick: elapsed time and the random draws. */
  datatype Step = Step(elapsed: Seconds, draws: nat -> nat)

  /** A sequence of ticks. Population, identities and teams never change, and no unit comes back to life. */
  function Run(w: World, normalize: Normalizer, steps: seq<Step>): (r: World)
    requires Valid(w)
    ensures Valid(r)
    ensures r.teams == w.teams
    ensures |r.units| == |w.units|
    ensures forall i :: 0 <= i < |w.units| ==> SameIdentity(w.units[i], r.units[i])
    ensures forall i :: 0 <= i < |w.units| && !w.units[i].alive ==> !r.units[i].alive
    decreases |steps|
  {
    if |steps| == 0 then w
    else Run(Tick(w, steps[0].elapsed, normalize, steps[0].draws), normalize, steps[1..])
  }
}
