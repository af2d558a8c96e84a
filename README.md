# Thetawave fire control, modelled in Dafny

Thetawave is a 2D arcade shooter. This project models its fire-control
timing: when a weapon or a player may fire. The time source is the engine's
one-shot countdown timer.

- `timer.dfy` (module `Timers`) models that timer as a record: a duration and
  an elapsed time in whole nanoseconds, plus a `finished` flag.
  - `Tick` sets the flag once the elapsed time reaches the duration. It clamps
    the elapsed time at the duration and does nothing to a finished timer.
  - `Reset` clears the elapsed time and the flag.
  - `SetDuration` changes only the duration.
  - Because only a tick sets the flag, a zero-length timer is not finished
    until it has been ticked once.
- `weapon.dfy` (module `Weapons`) models `FireMode`, the `WeaponData`
  configuration record and the live `Weapon`.
  - `Weapon` is a class whose fields are those of the Rust struct.
  - `Weapon.FromData` is the `From<WeaponData>` conversion.
  - `Weapon.Update` is `Weapon::update`. It updates the two timers in place and
    is proved against the pure `FireClock.Update`.
  - While the initial timer is unfinished, only that timer is ticked and the
    result is false. After that, only the reload timer is ticked, and the
    result is true exactly when that timer is finished after the tick.
  - In Automatic mode a true result resets the reload timer. In Manual mode the
    timer is left finished.
- `weapon_runs.dfy` (module `WeaponRuns`) updates a weapon once per delta over
  a sequence of frame deltas. It proves what holds across many updates:
  - when the initial delay ends;
  - that it never comes back;
  - Manual weapons report false until the time since the last reset reaches
    the reload duration, then stay ready;
  - Automatic weapons follow a countdown that restarts at each shot;
  - two concrete scenarios.
- `attacks.dfy` (module `PlayerAttacks`) models `player_fire_weapon_system`.
  Each player's component sits in an array that is updated in place, and the
  two event writers become two returned sequences.
  - The frame delta ticks every player's fire timer once.
  - A player fires one projectile and one sound when three things hold: the
    timer is finished, the basic-attack input is held, and the main attack is
    enabled.
  - After firing, the timer is reset and sized to the player's new cooldown.
  - `main_attack_is_enabled` and `min_time_between_shots` are methods of the
    player component whose code is not part of this model. They are passed in
    as functions of the component and consulted after the tick, as `player_fire_weapon_system`
    does.
- `values.dfy` (module `Values`) declares abstract types for values that are
  only copied: `f32` fields, `Vec2`, `SpawnPosition`, `ProjectileType` and
  `Entity`.

Two concrete runs show the boundary behaviour of the code. The lemmas in
`weapon_runs.dfy` prove both.

- Initial delay 2 s, reload 1 s, Automatic, four updates of 1 s.
  - The results are false, false, true, true.
  - The initial delay ends on the second update. After each shot the reload
    timer restarts from zero, so every later 1 s update finishes it again
    (`WeaponRuns.AutomaticOneSecondFrames`).
- Initial delay 0, reload 0.5 s, Manual.
  - The first `update(0.5 s)` returns false. A zero-length initial timer is
    only marked finished by its first tick, and that update ticks the initial
    timer, not the reload timer.
  - The next two updates return true. After an outside reset of the reload
    timer, 0.4 s returns false and 0.1 s returns true
    (`WeaponRuns.ManualHalfSecondReload`).

## Model

| member | source | states |
|---|---|---|
| `Timers.Timer.Tick` | crates/thetawave_interface/src/weapon.rs:108-111 | ticking keeps the duration; a finished one-shot timer is unchanged; the timer becomes finished iff the remaining time is at most the delta; the elapsed time grows by the delta or is clamped at the duration; validity is preserved |
| `Timers.Timer.Reset` | crates/thetawave_interface/src/weapon.rs:117 | reset keeps the duration, sets elapsed to 0 and clears the finished flag |
| `Timers.Timer.SetDuration` | src/player/systems/attacks.rs:90 | only the duration changes; elapsed time and the finished flag are kept |
| `Timers.Once` | crates/thetawave_interface/src/weapon.rs:86-87 | a new one-shot timer has the given duration, elapsed 0, is not finished and is valid |
| `Timers.TickAllIsTickOfSum` | crates/thetawave_interface/src/weapon.rs:108 | for a non-empty sequence of deltas, ticking frame by frame equals one tick by their total (for an empty sequence it does not: a zero-length timer is only marked finished by a tick) |
| `Weapons.FireClock.Update` | crates/thetawave_interface/src/weapon.rs:104-123 | exactly one timer is ticked; during the initial delay the result is false and the reload timer is untouched; afterwards the initial timer is unchanged and the result is true iff the reload timer is finished after the tick; Automatic leaves the reload timer at elapsed 0, not finished, same duration; Manual leaves it finished; validity is preserved |
| `Weapons.Weapon.FromData` | crates/thetawave_interface/src/weapon.rs:80-98 | both timers are one-shot with elapsed 0, not finished, with durations `reload_time` and `initial_time`; every other field is copied from the configuration |
| `Weapons.Weapon.Update` | crates/thetawave_interface/src/weapon.rs:104-123 | the new timers and the result are those of `FireClock.Update` on the old timers and the weapon's fire mode; the frame allows only the two timers to change |
| `WeaponRuns.Run` | crates/thetawave_interface/src/weapon.rs:104-123 | one result per update; timer validity holds throughout a run |
| `WeaponRuns.RunTicksInitialByEveryDelta` | crates/thetawave_interface/src/weapon.rs:107-111 | across any run the initial timer ends as if ticked by every delta |
| `WeaponRuns.InitialDelayEndsWhenTotalReachesIt` | crates/thetawave_interface/src/weapon.rs:107-109 | the initial timer is finished after a non-empty run iff the cumulative delta reaches the initial delay |
| `WeaponRuns.NoShotDuringInitialDelay` | crates/thetawave_interface/src/weapon.rs:107-109 | while the cumulative delta is below the initial delay, every update returns false and the reload timer is untouched |
| `WeaponRuns.InitialDelayNeverReturns` | crates/thetawave_interface/src/weapon.rs:107-111 | once the initial timer is finished, no run changes it |
| `WeaponRuns.ManualStaysReady` | crates/thetawave_interface/src/weapon.rs:115-119 | in Manual mode with both timers finished, every update returns true and changes nothing |
| `WeaponRuns.LatchStaysTrue` | crates/thetawave_interface/src/weapon.rs:115-119 | once the time counted since the last reset reaches the reload period, the Manual reference reports true for every later delta |
| `WeaponRuns.ManualFollowsLatch` | crates/thetawave_interface/src/weapon.rs:111-121 | in Manual mode after the initial delay, starting from an unfinished reload timer (as after an outside reset), the results equal a reference that reports whether the time accumulated since the reset has reached the reload duration: false until it does, true from then on |
| `WeaponRuns.AutomaticFollowsCountdown` | crates/thetawave_interface/src/weapon.rs:111-121 | in Automatic mode after the initial delay, the results equal a countdown that restarts from zero at each shot and drops the overshoot; the reload timer is never left finished and keeps its duration |
| `WeaponRuns.AutomaticOneSecondFrames` | crates/thetawave_interface/src/weapon.rs:104-123 | initial 2 s, reload 1 s, Automatic, four 1 s updates return false, false, true, true |
| `WeaponRuns.ManualHalfSecondReload` | crates/thetawave_interface/src/weapon.rs:104-123 | initial 0, reload 0.5 s, Manual: three 0.5 s updates return false, true, true; after a reload reset, 0.4 s then 0.1 s return false, true |
| `PlayerAttacks.FireGate` | src/player/systems/attacks.rs:44-90 | only the fire timer changes; it is ticked once; a projectile is fired iff the ticked timer is finished, the input is held and the main attack is enabled; after a shot the timer has elapsed 0, is not finished and has the new cooldown as duration; without a shot it is only ticked and keeps its duration; the event carries the player's projectile type, damage, despawn time and entity |
| `PlayerAttacks.Frame` | src/player/systems/attacks.rs:42-92 | every player's component becomes its gate's result; there are no more projectiles than players; the sound queue holds exactly one firing-blast sound per projectile |
| `PlayerAttacks.FiredConcat` | src/player/systems/attacks.rs:42-85 | the projectiles of two runs of gate outcomes, one after the other, are the two runs' projectiles concatenated |
| `PlayerAttacks.FiredSplit` | src/player/systems/attacks.rs:42-85 | each gate outcome contributes exactly its own projectile, none or one, after those of all earlier outcomes and before those of all later ones |
| `PlayerAttacks.FrameSendsFiredInOrder` | src/player/systems/attacks.rs:42-85 | a frame's projectile queue is exactly the projectile of each player whose gate fired, in query order |
| `PlayerAttacks.FiringPlayerSends` | src/player/systems/attacks.rs:73-85 | a player whose gate fires has its projectile sent right after those of the players before it, with a firing sound at the same position; a player whose gate does not fire adds nothing |
| `PlayerAttacks.NoInputNoShots` | src/player/systems/attacks.rs:44-52 | if no player holds the attack input, no projectile and no sound is sent |
| `PlayerAttacks.FirePlayer` | src/player/systems/attacks.rs:44-90 | one iteration of the loop, written as `player_fire_weapon_system`'s sequence of tick, test, event construction, reset and resize, yields exactly the outcome of `FireGate` |
| `PlayerAttacks.PlayerFireWeaponSystem` | src/player/systems/attacks.rs:30-93 | the array of player components and the two event queues after the loop are those given by `Frame` on the old components |

## Left out

- `min_time_between_shots` (src/player/systems/attacks.rs:23-26) computes with `f32` arithmetic and a logarithm. The model takes it as a parameter: a function from the player component to a duration in nanoseconds.
- `main_attack_is_enabled` is defined outside the files modelled. It is a parameter: a predicate on the player component.
- `Timer::from_seconds` converts `f32` seconds to a `Duration`. It is not modelled. Durations in `WeaponData` are given directly in nanoseconds.
- `PlayerAttacks.FireGate` leaves out the projectile's spawn transform and initial velocity. They are `f32` vector sums of the player's position, offset and velocity (src/player/systems/attacks.rs:54-70). Neither the model nor its events carry them.
- The engine timer's paused state, repeating mode, finish count per tick and `Duration` overflow are not modelled. The weapon timers are created one-shot (crates/thetawave_interface/src/weapon.rs:86-87) and never paused.
- `PlayerAttacks.FireGate` assumes the player's `fire_timer` is a one-shot timer. That timer is created outside the files modelled, so its mode cannot be seen. Its promise that a finished timer stays finished while no shot is fired holds only for a one-shot timer.
- ECS queries, event delivery and system scheduling are left out. The queried players are an array, and the events are returned sequences.
- Mob spawning and mob stats, the phase and character-selection UI, input-binding loading and plugin registration are not part of this model. They are engine orchestration, UI construction and file I/O.
- `PlayerAttacks.PlayerComponent` holds only the fields the fire gate uses. All other stats are one abstract value, `stats`.
