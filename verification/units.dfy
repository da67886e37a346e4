/**
 * A simulated combatant and its per-tick decision. `Decide` is a pure function
 * of the unit and a read-only snapshot of the whole population; it never
 * mutates anything, which is what lets the source evaluate all units in
 * parallel.
 */
module Units {

  import opened Wrappers
  import opened Geometry

  /** Distance under which a unit kills its target instead of moving. */
  const REACH: real := 10.0
  /** Base speed, in distance per second. */
  const SPEED: real := 20.0
  /** Relative spread of the per-unit speed around SPEED. */
  const SPEED_RANDOMNESS: real := 0.5

  /** Elapsed wall-clock time of one tick; a duration is never negative. */
  type Seconds = r: real | 0.0 <= r witness 0.0

  datatype Unit = Unit(
    id: nat,
    teamId: nat,
    position: Vec2,
    targetId: Option<nat>,
    alive: bool,
    speed: real
  )

  /** The intended effect of one unit's decision; the first field is always the actor. */
  datatype UnitAction =
    | Displace(id: nat, movement: Vec2)
    | SetTarget(id: nat, target: Option<nat>)
    | Kill(id: nat, victim: nat)

  /**
   * Per-unit speed drawn once at creation from a uniform sample in [0, 1):
   * SPEED scaled by a factor in [1 - SPEED_RANDOMNESS, 1 + SPEED_RANDOMNESS).
   */
  function RandSpeed(sample: real): (s: real)
    requires 0.0 <= sample < 1.0
    ensures SPEED * (1.0 - SPEED_RANDOMNESS) <= s < SPEED * (1.0 + SPEED_RANDOMNESS)
    ensures sample == 0.5 ==> s == SPEED
  {
    SPEED * (1.0 + (sample * 2.0 - 1.0) * SPEED_RANDOMNESS)
  }

  /** A freshly created unit: alive, without a target, with a speed in range. */
  function NewUnit(teamId: nat, id: nat, position: Vec2, speedSample: real): (u: Unit)
    requires 0.0 <= speedSample < 1.0
    ensures u.id == id && u.teamId == teamId && u.position == position
    ensures u.alive && u.targetId == None
    ensures 10.0 <= u.speed < 30.0
  {
    Unit(id, teamId, position, None, true, RandSpeed(speedSample))
  }

  /** The fields no tick may change. */
  predicate SameIdentity(a: Unit, b: Unit)
  {
    a.id == b.id && a.teamId == b.teamId && a.speed == b.speed
  }

  /** Moves the unit by `movement`; nothing but its position changes. */
  function Displaced(u: Unit, movement: Vec2): (r: Unit)
    ensures r.(position := u.position) == u
    ensures Sub(r.position, u.position) == movement
  {
    u.(position := Add(u.position, movement))
  }

  /** Overwrites the unit's target (possibly with None); nothing else changes. */
  function Retargeted(u: Unit, target: Option<nat>): (r: Unit)
    ensures r.(targetId := u.targetId) == u
    ensures r.targetId == target
  {
    u.(targetId := target)
  }

  /** Marks the unit dead; nothing else changes, and a dead unit stays dead. */
  function Killed(u: Unit): (r: Unit)
    ensures r.(alive := u.alive) == u
    ensures !r.alive
  {
    u.(alive := false)
  }

  /** The candidates a unit may target: alive units of another team. */
  predicate IsEnemyOf(self: Unit, other: Unit)
  {
    other.teamId != self.teamId && other.alive
  }

  /** Ids of every unit in `units` eligible as a target of `self`, in snapshot order. */
  function EnemyIds(self: Unit, units: seq<Unit>): (ids: seq<nat>)
    ensures |ids| <= |units|
    ensures forall k :: 0 <= k < |ids| ==>
      exists i :: 0 <= i < |units| && IsEnemyOf(self, units[i]) && units[i].id == ids[k]
    ensures forall i :: 0 <= i < |units| && IsEnemyOf(self, units[i]) ==> units[i].id in ids
    decreases |units|
  {
    if |units| == 0 then []
    else
      var init := units[..|units| - 1];
      var last := units[|units| - 1];
      assert forall i :: 0 <= i < |init| ==> init[i] == units[i];
      EnemyIds(self, init) + (if IsEnemyOf(self, last) then [last.id] else [])
  }

  /**
   * The random choice among candidates, driven by an oracle draw: any draw picks
   * some candidate, and nothing is picked only when there is none to pick.
   */
  function Choose(candidates: seq<nat>, draw: nat): (r: Option<nat>)
    ensures r.None? <==> |candidates| == 0
    ensures r.Some? ==> r.value in candidates
  {
    if |candidates| == 0 then None else Some(candidates[draw % |candidates|])
  }

  /** Exact reach test: squared distance strictly below REACH squared. */
  predicate InReach(a: Vec2, b: Vec2)
    ensures InReach(a, b) <==> MagnitudeSquared(Sub(b, a)) < REACH * REACH
    ensures a == b ==> InReach(a, b)
  {
    MagnitudeSquared(Sub(a, b)) < REACH * REACH
  }

  /** The unit's target, if any, is an index of the snapshot. */
  predicate TargetInBounds(u: Unit, n: nat)
  {
    u.targetId.Some? ==> u.targetId.value < n
  }

  /**
   * The decide phase for one unit. A dead unit does nothing; a unit without a
   * target picks one among the alive enemies; a unit with a target kills it when
   * in reach and otherwise moves towards it. The target is read from the
   * snapshot as it is, alive or not.
   */
  function Decide(self: Unit, units: seq<Unit>, elapsed: Seconds, normalize: Normalizer, draw: nat)
    : (r: Option<UnitAction>)
    requires TargetInBounds(self, |units|)
    ensures r.None? <==> !self.alive
    ensures r.Some? ==> r.value.id == self.id
    ensures self.alive && self.targetId.Some? ==>
      (r.value.Kill? <==> InReach(self.position, units[self.targetId.value].position))
    ensures self.alive && self.targetId.Some? ==>
      (r.value.Displace? <==> !InReach(self.position, units[self.targetId.value].position))
    ensures self.alive && self.targetId.Some? && r.value.Kill? ==>
      r.value.victim == units[self.targetId.value].id
    ensures self.alive && self.targetId.None? ==> r.value.SetTarget?
    ensures self.alive && self.targetId.None? && r.value.target.Some? ==>
      exists i :: 0 <= i < |units| && IsEnemyOf(self, units[i]) && units[i].id == r.value.target.value
    ensures self.alive && self.targetId.None? ==>
      (r.value.target.None? <==> forall i :: 0 <= i < |units| ==> !IsEnemyOf(self, units[i]))
  {
    if !self.alive then None
    else match self.targetId
      case Some(t) =>
        var other := units[t];
        if InReach(self.position, other.position) then
          Some(Kill(self.id, other.id))
        else
          Some(Displace(self.id, Scale(DirectionTo(self.position, other.position, normalize), self.speed * elapsed)))
      case None =>
        Some(SetTarget(self.id, Choose(EnemyIds(self, units), draw)))
  }
}
