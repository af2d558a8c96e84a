/**
 * A weapon's fire control: a one-shot initial delay that gates the first
 * shot, then a one-shot reload timer that gates every later shot. In
 * Automatic mode the weapon re-arms the reload timer itself when it reports
 * a shot; in Manual mode the timer stays finished, so the weapon keeps
 * reporting "ready" until some caller resets it.
 */
module Weapons {
  import opened Values
  import opened Timers

  datatype FireMode = Automatic | Manual

  /**
   * The configuration record a weapon is built from. `reloadTime` and
   * `initialTime` are durations in nanoseconds.
   */
  datatype WeaponData = WeaponData(
    ammunition: ProjectileType,
    damage: F32,
    position: SpawnPosition,
    reloadTime: nat,
    initialTime: nat,
    speed: F32,
    direction: F32,
    despawnTime: F32,
    count: nat,
    spreadWeights: Vec2,
    fireMode: FireMode,
    capacity: nat,
    maxSpreadArc: F32,
    projectileGap: F32)

  /** The two timers of a weapon: all of the state an update reads and writes. */
  datatype FireClock = FireClock(initial: Timer, reload: Timer) {

    predicate Valid() {
      initial.Valid() && reload.Valid()
    }

    /**
     * One update by `delta`. Exactly one timer is ticked: the initial timer
     * while it is unfinished, the reload timer afterwards.
     */
    function Update(mode: FireMode, delta: nat): (r: Step)
      // Initial-delay phase: no shot, only the initial timer moves.
      ensures !initial.finished ==>
                !r.fireable && r.clock.reload == reload && r.clock.initial == initial.Tick(delta)
      // Reload phase: the initial timer is left alone for good.
      ensures initial.finished ==> r.clock.initial == initial
      // A shot is reported iff the initial delay is over and the reload timer,
      // after this tick, is finished: it already was, or the delta reaches its duration.
      ensures r.fireable <==>
                initial.finished && (reload.finished || reload.elapsed + delta >= reload.duration)
      // With no shot, the reload timer has simply been ticked (or not touched at all).
      ensures initial.finished && !r.fireable ==> r.clock.reload == reload.Tick(delta)
      // Automatic: the shot re-arms the reload timer, discarding any overshoot.
      ensures r.fireable && mode == Automatic ==>
                r.clock.reload.elapsed == 0 && !r.clock.reload.finished &&
                r.clock.reload.duration == reload.duration
      // Manual: the reload timer is left finished.
      ensures r.fireable && mode == Manual ==>
                r.clock.reload.finished && r.clock.reload == reload.Tick(delta)
      ensures Valid() ==> r.clock.Valid()
    {
      if !initial.finished then
        Step(FireClock(initial.Tick(delta), reload), false)
      else
        var ticked := reload.Tick(delta);
        if ticked.finished then
          Step(FireClock(initial, if mode == Automatic then ticked.Reset() else ticked), true)
        else
          Step(FireClock(initial, ticked), false)
    }
  }

  /** The timers after an update, and whether the weapon may fire now. */
  datatype Step = Step(clock: FireClock, fireable: bool)

  /** A live weapon, owned by the entity that fires it. */
  class Weapon {
    var ammunition: ProjectileType
    var damage: F32
    var position: SpawnPosition
    var reloadTimer: Timer
    var initialTimer: Timer
    var speed: F32
    var direction: F32
    var despawnTime: F32
    var count: nat
    var spreadWeights: Vec2
    var fireMode: FireMode
    var capacity: nat
    var maxSpreadArc: F32
    var projectileGap: F32

    /** The weapon's timers, as the update function sees them. */
    function Clock(): FireClock
      reads this
    {
      FireClock(initialTimer, reloadTimer)
    }

    /**
     * Build a live weapon from its configuration: both timers one-shot and
     * unstarted, every other field copied unchanged.
     */
    constructor FromData(data: WeaponData)
      ensures reloadTimer == Once(data.reloadTime) && initialTimer == Once(data.initialTime)
      ensures Clock().Valid() && !initialTimer.finished && !reloadTimer.finished
      ensures ammunition == data.ammunition && damage == data.damage && position == data.position
      ensures speed == data.speed && direction == data.direction && despawnTime == data.despawnTime
      ensures count == data.count && spreadWeights == data.spreadWeights
      ensures fireMode == data.fireMode && capacity == data.capacity
      ensures maxSpreadArc == data.maxSpreadArc && projectileGap == data.projectileGap
    {
      ammunition := data.ammunition;
      damage := data.damage;
      position := data.position;
      reloadTimer := Once(data.reloadTime);
      initialTimer := Once(data.initialTime);
      speed := data.speed;
      direction := data.direction;
      despawnTime := data.despawnTime;
      count := data.count;
      spreadWeights := data.spreadWeights;
      fireMode := data.fireMode;
      capacity := data.capacity;
      maxSpreadArc := data.maxSpreadArc;
      projectileGap := data.projectileGap;
    }

    /**
     * Advance the weapon's timers by `delta` and report whether it may fire.
     * The frame admits only the two timers: ammunition, damage, count,
     * capacity, fire mode and the other fields cannot change.
     */
    method Update(delta: nat) returns (fireable: bool)
      modifies this`initialTimer, this`reloadTimer
      ensures Step(Clock(), fireable) == old(Clock()).Update(fireMode, delta)
      ensures old(Clock().Valid()) ==> Clock().Valid()
    {
      if !initialTimer.finished {
        initialTimer := initialTimer.Tick(delta);
        return false;
      }
      reloadTimer := reloadTimer.Tick(delta);
      if reloadTimer.finished {
        if fireMode == Automatic {
          reloadTimer := reloadTimer.Reset();
        }
        return true;
      }
      return false;
    }
  }
}
