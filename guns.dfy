/** The gun's value-level logic: the configuration records, the default
    bundle, the aim-target fallback, the firing cadence of the stopwatch and
    the volley of bullets one shot emits. */
module Guns {
  import opened Options
  import opened Geometry
  import opened Timers
  import opened Arith

  datatype GunType = Default | Gun1 | Gun2

  /** Lifespan is in seconds, as the source compares it with a wall-clock age. */
  datatype BulletStats = BulletStats(speed: real, damage: real, lifespan: real)

  /** The firing interval is in nanoseconds, as the stopwatch counts them. */
  datatype GunStats = GunStats(bulletsPerShot: nat, firingInterval: nat, bulletSpread: real)

  /** The crate constants the default gun is built from; their values are not
      part of this model, so they are carried as data. */
  datatype GunConstants = GunConstants(
    bulletSpeed: real, bulletDamage: real, bulletTimeSecs: real,
    numBulletsPerShot: nat, bulletSpawnInterval: nat, bulletSpread: real)

  /** The game-logic part of a `GunBundle`: stopwatch, type and the two stat records. */
  datatype GunBundle = GunBundle(stopwatch: nat, gunType: GunType, bulletStats: BulletStats, gunStats: GunStats)

  /** `GunBundle::default`. */
  function DefaultGunBundle(k: GunConstants): (b: GunBundle)
    ensures b.gunType == Default && b.stopwatch == 0
    ensures b.bulletStats == BulletStats(k.bulletSpeed, k.bulletDamage, k.bulletTimeSecs)
    ensures b.gunStats == GunStats(k.numBulletsPerShot, k.bulletSpawnInterval, k.bulletSpread)
  {
    GunBundle(0, Default, BulletStats(k.bulletSpeed, k.bulletDamage, k.bulletTimeSecs),
              GunStats(k.numBulletsPerShot, k.bulletSpawnInterval, k.bulletSpread))
  }

  /** The aim target of `update_gun_transform`: the cursor when there is one,
      otherwise the player's own position. */
  function AimTarget(cursor: Option<Vec2>, player: Vec2): (t: Vec2)
  {
    match cursor
    case Some(pos) => pos
    case None => player
  }

  /** The vector from the aim target to the player, whose angle orients the gun. */
  function AimVector(cursor: Option<Vec2>, player: Vec2): Vec2
  {
    var t := AimTarget(cursor, player);
    Vec2(player.x - t.x, player.y - t.y)
  }

  /** The gun aims at the cursor when there is one; without a cursor the aim
      vector is zero, so the gun takes the angle of a zero vector. */
  lemma AimFallsBackToPlayer(cursor: Option<Vec2>, player: Vec2)
    ensures cursor.Some? ==> AimTarget(cursor, player) == cursor.value
    ensures cursor.None? ==> AimTarget(cursor, player) == player && AimVector(cursor, player) == Vec2(0.0, 0.0)
    ensures AimVector(cursor, player) == Vec2(0.0, 0.0) <==> AimTarget(cursor, player) == player
  {
  }

  // ---------------------------------------------------------------- cadence

  datatype CadenceStep = CadenceStep(stopwatch: nat, fires: bool)

  /** The stopwatch part of `handle_gun_firing`: tick by `delta`; if the
      elapsed time reached the interval, reset to zero and fire. */
  function Cadence(stopwatch: nat, delta: nat, interval: nat): CadenceStep
  {
    var e := stopwatch + delta;
    if e >= interval then CadenceStep(0, true) else CadenceStep(e, false)
  }

  /** One tick fires exactly when the accumulated time reaches the interval;
      a shot discards the excess, and no shot keeps all accumulated time. */
  lemma CadenceStepExact(stopwatch: nat, delta: nat, interval: nat)
    ensures var s := Cadence(stopwatch, delta, interval);
      (s.fires <==> stopwatch + delta >= interval) &&
      (s.fires ==> s.stopwatch == 0) &&
      (!s.fires ==> s.stopwatch == stopwatch + delta && s.stopwatch < interval)
  {
  }

  /** The stopwatch after ticking by each of `deltas`. */
  function StopwatchAfter(stopwatch: nat, deltas: seq<nat>, interval: nat): nat
  {
    if deltas == [] then stopwatch
    else Cadence(StopwatchAfter(stopwatch, deltas[..|deltas| - 1], interval), deltas[|deltas| - 1], interval).stopwatch
  }

  /** How many of those ticks fired. */
  function ShotsFired(stopwatch: nat, deltas: seq<nat>, interval: nat): nat
  {
    if deltas == [] then 0
    else
      var before := StopwatchAfter(stopwatch, deltas[..|deltas| - 1], interval);
      ShotsFired(stopwatch, deltas[..|deltas| - 1], interval) +
        (if Cadence(before, deltas[|deltas| - 1], interval).fires then 1 else 0)
  }

  /** Over any run of ticks the gun never fires more often than once per
      interval of accumulated time: each shot uses up a full interval, and
      the stopwatch holds what is left (less, since excess is discarded). */
  lemma {:induction false} CadenceNeverFiresEarly(stopwatch: nat, deltas: seq<nat>, interval: nat)
    ensures ShotsFired(stopwatch, deltas, interval) * interval + StopwatchAfter(stopwatch, deltas, interval)
      <= stopwatch + Sum(deltas)
  {
    if deltas != [] {
      var init := deltas[..|deltas| - 1];
      var d := deltas[|deltas| - 1];
      CadenceNeverFiresEarly(stopwatch, init, interval);
      var k := ShotsFired(stopwatch, init, interval);
      var before := StopwatchAfter(stopwatch, init, interval);
      var step := Cadence(before, d, interval);
      assert StopwatchAfter(stopwatch, deltas, interval) == step.stopwatch;
      assert Sum(deltas) == Sum(init) + d;
      if step.fires {
        assert ShotsFired(stopwatch, deltas, interval) == k + 1;
        MulSucc(k, interval);
      } else {
        assert ShotsFired(stopwatch, deltas, interval) == k;
      }
    }
  }

  /** The stopwatch stays below a positive interval between ticks. */
  lemma {:induction false} StopwatchBelowInterval(stopwatch: nat, deltas: seq<nat>, interval: nat)
    requires stopwatch < interval
    ensures StopwatchAfter(stopwatch, deltas, interval) < interval
  {
    if deltas != [] {
      StopwatchBelowInterval(stopwatch, deltas[..|deltas| - 1], interval);
    }
  }

  /** The excess over the interval is lost: with an interval of 10, ticks of
      15 and 5 accumulate 20 but fire only once. */
  lemma ExcessIsDiscarded()
    ensures ShotsFired(0, [15, 5], 10) == 1 && StopwatchAfter(0, [15, 5], 10) == 5
  {
    assert [15, 5][..1] == [15];
    assert [15][..0] == [];
  }

  // ---------------------------------------------------------------- volley

  /** The two draws from `-spread..spread` that jitter one bullet's direction. */
  datatype Jitter = Jitter(dx: real, dy: real)

  predicate WithinSpread(j: Jitter, spread: real)
  {
    -spread <= j.dx < spread && -spread <= j.dy < spread
  }

  /** A bullet entity: its id, translation, direction, copied stats, gun type
      and the wall-clock second it was spawned. */
  datatype Bullet = Bullet(id: nat, pos: Vec3, direction: Vec3, stats: BulletStats, gunType: GunType, spawnedAt: real)

  /** One bullet of a `Default` volley: at the gun's position at height 1,
      heading along the gun's forward axis with x and y jittered. */
  function VolleyBullet(id: nat, gunPos: Vec2, forward: Vec3, stats: BulletStats, gunType: GunType, j: Jitter, now: real): Bullet
  {
    Bullet(id, Vec3(gunPos.x, gunPos.y, 1.0), Vec3(forward.x + j.dx, forward.y + j.dy, forward.z), stats, gunType, now)
  }

  /** The bullets one shot spawns, numbered from `firstId`. */
  function Volley(firstId: nat, gunPos: Vec2, forward: Vec3, stats: BulletStats, gunType: GunType,
                  js: seq<Jitter>, now: real): seq<Bullet>
  {
    seq(|js|, i requires 0 <= i < |js| => VolleyBullet(firstId + i, gunPos, forward, stats, gunType, js[i], now))
  }

  /** A volley has one bullet per jitter draw; every bullet starts at the gun,
      carries a copy of the gun's bullet stats and type, stamped with the
      same spawn time, with fresh consecutive ids, and its direction lies in
      the spread box around the forward axis with z unchanged. */
  lemma VolleyShape(firstId: nat, gunPos: Vec2, forward: Vec3, stats: BulletStats, gunType: GunType,
                    js: seq<Jitter>, spread: real, now: real)
    requires forall i :: 0 <= i < |js| ==> WithinSpread(js[i], spread)
    ensures var v := Volley(firstId, gunPos, forward, stats, gunType, js, now);
      |v| == |js| &&
      forall i :: 0 <= i < |v| ==>
        v[i].id == firstId + i && v[i].pos == Vec3(gunPos.x, gunPos.y, 1.0) &&
        v[i].stats == stats && v[i].gunType == gunType && v[i].spawnedAt == now &&
        forward.x - spread <= v[i].direction.x < forward.x + spread &&
        forward.y - spread <= v[i].direction.y < forward.y + spread &&
        v[i].direction.z == forward.z
  {
  }
}
