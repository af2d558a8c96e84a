/**
 * The per-frame player fire gate: every player's fire timer is ticked by
 * the frame delta; a player whose timer is finished, whose basic-attack
 * input is held and whose main attack is enabled fires one projectile and
 * one firing sound, and then has the timer reset and resized to a new
 * cooldown.
 */
module PlayerAttacks {
  import opened Values
  import opened Timers

  /**
   * The parts of a player component the fire gate uses. `stats` stands for
   * every other field (money, abilities, ...), which this system reads only
   * through `main_attack_is_enabled` and `min_time_between_shots`.
   */
  type PlayerStats(==)

  datatype PlayerComponent = PlayerComponent(
    fireTimer: Timer,
    projectileType: ProjectileType,
    attackDamage: F32,
    projectileDespawnTime: F32,
    stats: PlayerStats)

  /** What the query yields beside the component: the held input and the entity. */
  datatype PlayerRow = PlayerRow(basicAttackPressed: bool, entity: Entity)

  /** The projectile request a firing player sends, with itself as source. */
  datatype SpawnProjectileEvent = SpawnProjectileEvent(
    projectileType: ProjectileType,
    damage: F32,
    despawnTime: F32,
    source: Entity)

  datatype SoundEffectType = PlayerFireBlast

  datatype PlaySoundEffectEvent = PlaySoundEffectEvent(soundEffectType: SoundEffectType)

  /** One player's component after the frame, and the projectile it fired, if any. */
  datatype GateOutcome = GateOutcome(player: PlayerComponent, projectile: Option<SpawnProjectileEvent>)

  /**
   * One player's frame. `mainAttackIsEnabled` and `minTimeBetweenShots` are
   * the component's own queries, consulted after the tick, as `player_fire_weapon_system` does.
   */
  function FireGate(p: PlayerComponent, row: PlayerRow, delta: nat,
                    mainAttackIsEnabled: PlayerComponent -> bool,
                    minTimeBetweenShots: PlayerComponent -> nat): (r: GateOutcome)
    // Only the fire timer changes.
    ensures r.player.(fireTimer := p.fireTimer) == p
    // A shot needs a finished timer after the tick, the input held and the main attack enabled.
    ensures var ticked := p.(fireTimer := p.fireTimer.Tick(delta));
            r.projectile.Some? <==>
              ticked.fireTimer.finished && row.basicAttackPressed && mainAttackIsEnabled(ticked)
    // After a shot the timer is rewound and sized to the new cooldown.
    ensures var ticked := p.(fireTimer := p.fireTimer.Tick(delta));
            r.projectile.Some? ==>
              r.player.fireTimer.elapsed == 0 && !r.player.fireTimer.finished &&
              r.player.fireTimer.duration == minTimeBetweenShots(ticked)
    // Without a shot the timer is only ticked: not reset, duration kept, even if finished.
    ensures r.projectile.None? ==> r.player.fireTimer == p.fireTimer.Tick(delta)
    ensures r.projectile.None? ==> r.player.fireTimer.duration == p.fireTimer.duration
    // The projectile carries the player's projectile type, damage and despawn time, and its entity.
    ensures r.projectile.Some? ==>
              r.projectile.value == SpawnProjectileEvent(p.projectileType, p.attackDamage,
                                                         p.projectileDespawnTime, row.entity)
  {
    var ticked := p.(fireTimer := p.fireTimer.Tick(delta));
    if ticked.fireTimer.finished && row.basicAttackPressed && mainAttackIsEnabled(ticked) then
      var event := SpawnProjectileEvent(ticked.projectileType, ticked.attackDamage,
                                        ticked.projectileDespawnTime, row.entity);
      var cooldown := minTimeBetweenShots(ticked);
      GateOutcome(ticked.(fireTimer := ticked.fireTimer.Reset().SetDuration(cooldown)), Some(event))
    else
      GateOutcome(ticked, None)
  }

  /** All players' components after the frame, and the two event queues. */
  datatype FrameOutcome = FrameOutcome(
    players: seq<PlayerComponent>,
    projectiles: seq<SpawnProjectileEvent>,
    sounds: seq<PlaySoundEffectEvent>)

  /** The projectile events of one gate outcome: none or one. */
  function ProjectilesOf(g: GateOutcome): seq<SpawnProjectileEvent> {
    if g.projectile.Some? then [g.projectile.value] else []
  }

  /** The sound events of one gate outcome: one exactly when it fired. */
  function SoundsOf(g: GateOutcome): seq<PlaySoundEffectEvent> {
    if g.projectile.Some? then [PlaySoundEffectEvent(PlayerFireBlast)] else []
  }

  /** Every player's gate outcome, in query order. */
  function Gates(ps: seq<PlayerComponent>, rows: seq<PlayerRow>, delta: nat,
                 mainAttackIsEnabled: PlayerComponent -> bool,
                 minTimeBetweenShots: PlayerComponent -> nat): (gs: seq<GateOutcome>)
    requires |rows| == |ps|
    ensures |gs| == |ps|
    ensures forall i :: 0 <= i < |ps| ==>
              gs[i] == FireGate(ps[i], rows[i], delta, mainAttackIsEnabled, minTimeBetweenShots)
    decreases |ps|
  {
    if ps == [] then []
    else
      var n := |ps| - 1;
      Gates(ps[..n], rows[..n], delta, mainAttackIsEnabled, minTimeBetweenShots)
      + [FireGate(ps[n], rows[n], delta, mainAttackIsEnabled, minTimeBetweenShots)]
  }

  /** The outcomes of a prefix of the players are a prefix of the outcomes. */
  lemma GatesPrefix(ps: seq<PlayerComponent>, rows: seq<PlayerRow>, delta: nat,
                    mainAttackIsEnabled: PlayerComponent -> bool,
                    minTimeBetweenShots: PlayerComponent -> nat, i: nat)
    requires |rows| == |ps| && i <= |ps|
    ensures Gates(ps[..i], rows[..i], delta, mainAttackIsEnabled, minTimeBetweenShots)
            == Gates(ps, rows, delta, mainAttackIsEnabled, minTimeBetweenShots)[..i]
  {
  }

  /** The projectiles of the outcomes that fired, one each, in the outcomes' order. */
  function Fired(gs: seq<GateOutcome>): seq<SpawnProjectileEvent>
    decreases |gs|
  {
    if gs == [] then [] else ProjectilesOf(gs[0]) + Fired(gs[1..])
  }

  /** The projectiles of two runs of outcomes, one after the other. */
  lemma {:induction false} FiredConcat(a: seq<GateOutcome>, b: seq<GateOutcome>)
    ensures Fired(a + b) == Fired(a) + Fired(b)
    decreases |a|
  {
    if a == [] {
      assert a + b == b;
    } else {
      assert (a + b)[0] == a[0];
      assert (a + b)[1..] == a[1..] + b;
      FiredConcat(a[1..], b);
    }
  }

  /**
   * Outcome `i` contributes exactly its own projectile (none or one), after
   * those of every earlier outcome and before those of every later one.
   */
  lemma FiredSplit(gs: seq<GateOutcome>, i: nat)
    requires i < |gs|
    ensures Fired(gs) == Fired(gs[..i]) + ProjectilesOf(gs[i]) + Fired(gs[i + 1..])
  {
    var before, rest := gs[..i], gs[i..];
    assert Fired(gs) == Fired(before) + Fired(rest) by {
      assert gs == before + rest;
      FiredConcat(before, rest);
    }
    assert Fired(rest) == ProjectilesOf(gs[i]) + Fired(gs[i + 1..]) by {
      assert rest[0] == gs[i];
      assert rest[1..] == gs[i + 1..];
    }
  }

  /**
   * The gate applied to every player in query order. The projectile queue
   * holds the projectile of each player whose gate fired, in query order,
   * and the sound queue one firing sound per projectile.
   */
  function Frame(ps: seq<PlayerComponent>, rows: seq<PlayerRow>, delta: nat,
                 mainAttackIsEnabled: PlayerComponent -> bool,
                 minTimeBetweenShots: PlayerComponent -> nat): (r: FrameOutcome)
    requires |rows| == |ps|
    ensures |r.players| == |ps|
    ensures forall i :: 0 <= i < |ps| ==>
              r.players[i] == FireGate(ps[i], rows[i], delta, mainAttackIsEnabled, minTimeBetweenShots).player
    ensures |r.projectiles| <= |ps|
    ensures |r.sounds| == |r.projectiles|
    ensures forall k :: 0 <= k < |r.sounds| ==> r.sounds[k] == PlaySoundEffectEvent(PlayerFireBlast)
    decreases |ps|
  {
    if ps == [] then FrameOutcome([], [], [])
    else
      var n := |ps| - 1;
      var prev := Frame(ps[..n], rows[..n], delta, mainAttackIsEnabled, minTimeBetweenShots);
      var g := FireGate(ps[n], rows[n], delta, mainAttackIsEnabled, minTimeBetweenShots);
      FrameOutcome(prev.players + [g.player], prev.projectiles + ProjectilesOf(g),
                   prev.sounds + SoundsOf(g))
  }

  /**
   * The projectile queue of a frame is exactly the projectile of each player
   * whose gate fired, in query order.
   */
  lemma {:induction false} FrameSendsFiredInOrder(ps: seq<PlayerComponent>, rows: seq<PlayerRow>, delta: nat,
                                                  mainAttackIsEnabled: PlayerComponent -> bool,
                                                  minTimeBetweenShots: PlayerComponent -> nat)
    requires |rows| == |ps|
    ensures Frame(ps, rows, delta, mainAttackIsEnabled, minTimeBetweenShots).projectiles
            == Fired(Gates(ps, rows, delta, mainAttackIsEnabled, minTimeBetweenShots))
    decreases |ps|
  {
    if ps != [] {
      var n := |ps| - 1;
      var g := FireGate(ps[n], rows[n], delta, mainAttackIsEnabled, minTimeBetweenShots);
      var prefix := Gates(ps[..n], rows[..n], delta, mainAttackIsEnabled, minTimeBetweenShots);
      FrameSendsFiredInOrder(ps[..n], rows[..n], delta, mainAttackIsEnabled, minTimeBetweenShots);
      FiredConcat(prefix, [g]);
      assert Fired([g]) == ProjectilesOf(g) + Fired([]);
    }
  }

  /**
   * A player whose gate fires has its projectile sent, at the position that
   * follows the projectiles of the players before it, and a firing sound
   * sent with it; a player whose gate does not fire adds nothing there.
   */
  lemma FiringPlayerSends(ps: seq<PlayerComponent>, rows: seq<PlayerRow>, delta: nat,
                          mainAttackIsEnabled: PlayerComponent -> bool,
                          minTimeBetweenShots: PlayerComponent -> nat, i: nat)
    requires |rows| == |ps| && i < |ps|
    ensures var g := FireGate(ps[i], rows[i], delta, mainAttackIsEnabled, minTimeBetweenShots);
            var r := Frame(ps, rows, delta, mainAttackIsEnabled, minTimeBetweenShots);
            var earlier := Frame(ps[..i], rows[..i], delta, mainAttackIsEnabled, minTimeBetweenShots).projectiles;
            var later := Fired(Gates(ps, rows, delta, mainAttackIsEnabled, minTimeBetweenShots)[i + 1..]);
            r.projectiles == earlier + ProjectilesOf(g) + later &&
            (g.projectile.Some? ==> r.sounds[|earlier|] == PlaySoundEffectEvent(PlayerFireBlast))
  {
    var gs := Gates(ps, rows, delta, mainAttackIsEnabled, minTimeBetweenShots);
    var r := Frame(ps, rows, delta, mainAttackIsEnabled, minTimeBetweenShots);
    var prefix := Gates(ps[..i], rows[..i], delta, mainAttackIsEnabled, minTimeBetweenShots);
    FrameSendsFiredInOrder(ps, rows, delta, mainAttackIsEnabled, minTimeBetweenShots);
    FrameSendsFiredInOrder(ps[..i], rows[..i], delta, mainAttackIsEnabled, minTimeBetweenShots);
    FiredSplit(gs, i);
    GatesPrefix(ps, rows, delta, mainAttackIsEnabled, minTimeBetweenShots, i);
    assert r.projectiles == Fired(prefix) + ProjectilesOf(gs[i]) + Fired(gs[i + 1..]);
  }

  /** Frame on one more player appends that player's gate outcome. */
  lemma FrameStep(ps: seq<PlayerComponent>, rows: seq<PlayerRow>, delta: nat,
                  mainAttackIsEnabled: PlayerComponent -> bool,
                  minTimeBetweenShots: PlayerComponent -> nat, i: nat)
    requires |rows| == |ps| && i < |ps|
    ensures var prev := Frame(ps[..i], rows[..i], delta, mainAttackIsEnabled, minTimeBetweenShots);
            var g := FireGate(ps[i], rows[i], delta, mainAttackIsEnabled, minTimeBetweenShots);
            Frame(ps[..i + 1], rows[..i + 1], delta, mainAttackIsEnabled, minTimeBetweenShots)
            == FrameOutcome(prev.players + [g.player], prev.projectiles + ProjectilesOf(g),
                            prev.sounds + SoundsOf(g))
  {
    assert ps[..i + 1][..i] == ps[..i];
    assert rows[..i + 1][..i] == rows[..i];
  }

  /** A frame in which no player holds the attack input sends no projectile and no sound. */
  lemma {:induction false} NoInputNoShots(ps: seq<PlayerComponent>, rows: seq<PlayerRow>, delta: nat,
                                          mainAttackIsEnabled: PlayerComponent -> bool,
                                          minTimeBetweenShots: PlayerComponent -> nat)
    requires |rows| == |ps|
    requires forall i :: 0 <= i < |rows| ==> !rows[i].basicAttackPressed
    ensures Frame(ps, rows, delta, mainAttackIsEnabled, minTimeBetweenShots).projectiles == []
    ensures Frame(ps, rows, delta, mainAttackIsEnabled, minTimeBetweenShots).sounds == []
    decreases |ps|
  {
    if ps != [] {
      var n := |ps| - 1;
      NoInputNoShots(ps[..n], rows[..n], delta, mainAttackIsEnabled, minTimeBetweenShots);
    }
  }

  /**
   * One iteration of the system's loop: tick the player's fire timer, and if
   * the gate opens, build the projectile request and re-arm the timer.
   */
  method FirePlayer(p: PlayerComponent, row: PlayerRow, delta: nat,
                    mainAttackIsEnabled: PlayerComponent -> bool,
                    minTimeBetweenShots: PlayerComponent -> nat)
    returns (q: PlayerComponent, projectile: Option<SpawnProjectileEvent>)
    ensures GateOutcome(q, projectile) == FireGate(p, row, delta, mainAttackIsEnabled, minTimeBetweenShots)
  {
    q := p.(fireTimer := p.fireTimer.Tick(delta));
    projectile := None;
    if q.fireTimer.finished && row.basicAttackPressed && mainAttackIsEnabled(q) {
      projectile := Some(SpawnProjectileEvent(q.projectileType, q.attackDamage,
                                              q.projectileDespawnTime, row.entity));
      var cooldown := minTimeBetweenShots(q);
      q := q.(fireTimer := q.fireTimer.Reset());
      q := q.(fireTimer := q.fireTimer.SetDuration(cooldown));
    }
  }

  /**
   * The system itself: each player's component is updated in place, and the
   * projectile and sound events are appended to their queues.
   */
  method PlayerFireWeaponSystem(players: array<PlayerComponent>, rows: seq<PlayerRow>, delta: nat,
                                mainAttackIsEnabled: PlayerComponent -> bool,
                                minTimeBetweenShots: PlayerComponent -> nat)
    returns (projectiles: seq<SpawnProjectileEvent>, sounds: seq<PlaySoundEffectEvent>)
    requires players.Length == |rows|
    modifies players
    ensures var f := Frame(old(players[..]), rows, delta, mainAttackIsEnabled, minTimeBetweenShots);
            players[..] == f.players && projectiles == f.projectiles && sounds == f.sounds
  {
    ghost var before := players[..];
    projectiles, sounds := [], [];
    var i := 0;
    while i < players.Length
      invariant 0 <= i <= players.Length
      invariant players[i..] == before[i..]
      invariant var f := Frame(before[..i], rows[..i], delta, mainAttackIsEnabled, minTimeBetweenShots);
                players[..i] == f.players && projectiles == f.projectiles && sounds == f.sounds
    {
      ghost var done := players[..i];
      assert players[i] == before[i];
      var p, projectile := FirePlayer(players[i], rows[i], delta, mainAttackIsEnabled, minTimeBetweenShots);
      if projectile.Some? {
        projectiles := projectiles + [projectile.value];
        sounds := sounds + [PlaySoundEffectEvent(PlayerFireBlast)];
      }
      players[i] := p;
      assert players[i + 1..] == before[i + 1..];
      assert players[..i + 1] == done + [p];
      FrameStep(before, rows, delta, mainAttackIsEnabled, minTimeBetweenShots, i);
      i := i + 1;
    }
    assert before[..i] == before;
    assert rows[..i] == rows;
  }
}
