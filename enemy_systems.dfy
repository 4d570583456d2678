/** The enemy systems that run every frame: spawning a wave's enemies,
    reaping the dead, ticking the trail traits and sweeping expired trails.
    The `Wave` resource and the live enemy and trail sets are objects that
    these methods update in place; each method is proved against the value
    functions beside it, and the lemmas state what those functions promise. */
module EnemySystems {
  import opened Options
  import opened Geometry
  import opened Timers
  import opened EnemyTypes
  import opened Waves

  /** The `Wave` resource. */
  class Wave {
    var number: nat
    var enemiesTotal: nat
    var enemiesLeft: nat
    var enemiesSpawned: nat

    function State(): (c: Counters)
      reads this
      ensures c.number == number && c.total == enemiesTotal
      ensures c.left == enemiesLeft && c.spawned == enemiesSpawned
    {
      Counters(number, enemiesTotal, enemiesLeft, enemiesSpawned)
    }

    /** `Wave::default()`. */
    constructor ()
      ensures State() == Initial
    {
      number, enemiesTotal, enemiesLeft, enemiesSpawned := 0, 0, 0, 0;
    }
  }

  /** The live enemy and trail entities. */
  class Horde {
    var enemies: seq<Enemy>
    var trails: seq<Trail>

    constructor ()
      ensures enemies == [] && trails == []
    {
      enemies, trails := [], [];
    }
  }

  // ---------------------------------------------------------------- spawning

  /** The random draws behind one spawned enemy: the polar offset already
      turned into x and y, and the index that picks its kind. */
  datatype SpawnDraw = SpawnDraw(offset: Vec2, kind: RandIndex)

  /** The clamp step of `get_random_position_around`: the offset point,
      pulled inside the world's half extents. */
  function SpawnPosition(center: Vec2, offset: Vec2, worldW: real, worldH: real): (p: Vec2)
    requires 0.0 <= worldW && 0.0 <= worldH
    ensures Abs(p.x) <= worldW && Abs(p.y) <= worldH
    ensures Abs(center.x + offset.x) <= worldW && Abs(center.y + offset.y) <= worldH ==>
      p == Vec2(center.x + offset.x, center.y + offset.y)
  {
    Vec2(Clamp(center.x + offset.x, -worldW, worldW), Clamp(center.y + offset.y, -worldH, worldH))
  }

  /** An enemy carries exactly the configuration of its kind. */
  predicate CarriesConfig(e: Enemy)
  {
    var c := Config(e.kind);
    e.health == c.health && e.speed == c.speed && e.damage == c.damage && e.traits == c.traits
  }

  /** One iteration of the spawn loop: kind from the draw, stats and traits
      from the kind's configuration, position from the clamped offset at
      height 1. */
  function SpawnedEnemy(center: Vec2, d: SpawnDraw, worldW: real, worldH: real): (e: Enemy)
    requires 0.0 <= worldW && 0.0 <= worldH
    ensures e.kind == RandEnemy(d.kind) && CarriesConfig(e) && e.health > 0.0
    ensures Abs(e.pos.x) <= worldW && Abs(e.pos.y) <= worldH && e.pos.z == 1.0
  {
    var t := RandEnemy(d.kind);
    var c := Config(t);
    var p := SpawnPosition(center, d.offset, worldW, worldH);
    Enemy(t, c.health, c.speed, c.damage, c.traits, Vec3(p.x, p.y, 1.0))
  }

  function SpawnedBatch(center: Vec2, ds: seq<SpawnDraw>, worldW: real, worldH: real): (es: seq<Enemy>)
    requires 0.0 <= worldW && 0.0 <= worldH
  {
    seq(|ds|, i requires 0 <= i < |ds| => SpawnedEnemy(center, ds[i], worldW, worldH))
  }

  /** Every enemy of a batch is alive, inside the world, of the kind its draw
      selects and carrying that kind's configuration, one per draw. */
  lemma SpawnedBatchWellFormed(center: Vec2, ds: seq<SpawnDraw>, worldW: real, worldH: real)
    requires 0.0 <= worldW && 0.0 <= worldH
    ensures var es := SpawnedBatch(center, ds, worldW, worldH);
      |es| == |ds| &&
      forall i :: 0 <= i < |es| ==>
        es[i].kind == RandEnemy(ds[i].kind) && CarriesConfig(es[i]) && es[i].health > 0.0 &&
        Abs(es[i].pos.x) <= worldW && Abs(es[i].pos.y) <= worldH
  {
  }

  /** `spawn_enemies`: refill an empty wave, then, if the wave is not fully
      spawned and a player exists, admit `min(enemies_left, rate)` enemies
      around the player, one draw each. */
  method SpawnEnemies(wave: Wave, horde: Horde, player: Option<Vec2>, rate: nat,
                      draws: seq<SpawnDraw>, worldW: real, worldH: real)
    requires CanRefill(wave.State())
    requires |draws| >= rate
    requires 0.0 <= worldW && 0.0 <= worldH
    modifies wave, horde`enemies
    ensures wave.State() == AfterSpawn(old(wave.State()), player.Some?, rate)
    ensures player.None? ==> horde.enemies == old(horde.enemies)
    ensures player.Some? ==>
      var n := Admitted(Refill(old(wave.State())), true, rate);
      horde.enemies == old(horde.enemies) + SpawnedBatch(player.value, draws[..n], worldW, worldH)
  {
    if wave.enemiesLeft == 0 {
      var waveCount := EnemiesPerWave(wave.number);
      wave.number := wave.number + 1;
      wave.enemiesLeft := waveCount;
      wave.enemiesTotal := waveCount;
      wave.enemiesSpawned := 0;
    }
    assert wave.State() == Refill(old(wave.State()));

    if wave.enemiesSpawned >= wave.enemiesTotal || player.None? {
      return;
    }

    var center := player.value;
    var n := Min(wave.enemiesLeft, rate);
    ghost var spawned0 := wave.enemiesSpawned;
    ghost var enemies0 := horde.enemies;
    for i := 0 to n
      invariant wave.enemiesSpawned == spawned0 + i
      invariant wave.State() == Refill(old(wave.State())).(spawned := spawned0 + i)
      invariant horde.enemies == enemies0 + SpawnedBatch(center, draws[..i], worldW, worldH)
    {
      var e := SpawnedEnemy(center, draws[i], worldW, worldH);
      assert SpawnedBatch(center, draws[..i + 1], worldW, worldH)
          == SpawnedBatch(center, draws[..i], worldW, worldH) + [e];
      horde.enemies := horde.enemies + [e];
      wave.enemiesSpawned := wave.enemiesSpawned + 1;
    }
  }

  // ---------------------------------------------------------------- reaping

  /** The enemies `despawn_dead_enemies` keeps, in order. */
  function Survivors(es: seq<Enemy>): seq<Enemy>
  {
    if es == [] then []
    else
      var last := es[|es| - 1];
      Survivors(es[..|es| - 1]) + (if last.health > 0.0 then [last] else [])
  }

  /** How many enemies have `health <= 0`. */
  function DeadCount(es: seq<Enemy>): nat
  {
    if es == [] then 0
    else DeadCount(es[..|es| - 1]) + (if es[|es| - 1].health > 0.0 then 0 else 1)
  }

  /** Reaping keeps exactly the enemies with positive health, unchanged and
      in their order, and removes exactly `DeadCount` of them. */
  lemma {:induction false} SurvivorsExact(es: seq<Enemy>)
    ensures |Survivors(es)| + DeadCount(es) == |es|
    ensures forall e :: e in Survivors(es) <==> e in es && e.health > 0.0
  {
    if es != [] {
      var init := es[..|es| - 1];
      SurvivorsExact(init);
      assert es == init + [es[|es| - 1]];
    }
  }

  lemma {:induction false} DeadCountPrefix(es: seq<Enemy>, i: nat)
    requires i <= |es|
    ensures DeadCount(es[..i]) <= DeadCount(es)
  {
    if i < |es| {
      DeadCountPrefix(es[..|es| - 1], i);
      assert es[..|es| - 1][..i] == es[..i];
    } else {
      assert es[..i] == es;
    }
  }

  /** A set of living enemies loses nobody to the reap. */
  lemma {:induction false} AllAliveSurvive(es: seq<Enemy>)
    requires forall i :: 0 <= i < |es| ==> es[i].health > 0.0
    ensures Survivors(es) == es && DeadCount(es) == 0
  {
    if es != [] {
      var init := es[..|es| - 1];
      forall i | 0 <= i < |init| ensures init[i].health > 0.0 {
        assert init[i] == es[i];
      }
      AllAliveSurvive(init);
      assert es == init + [es[|es| - 1]];
    }
  }

  /** Freshly spawned enemies are never reaped in the tick they appear. */
  lemma FreshBatchSurvives(center: Vec2, ds: seq<SpawnDraw>, worldW: real, worldH: real)
    requires 0.0 <= worldW && 0.0 <= worldH
    ensures var es := SpawnedBatch(center, ds, worldW, worldH);
      Survivors(es) == es && DeadCount(es) == 0
  {
    SpawnedBatchWellFormed(center, ds, worldW, worldH);
    AllAliveSurvive(SpawnedBatch(center, ds, worldW, worldH));
  }

  /** `despawn_dead_enemies`: remove every enemy whose health is not positive
      and count each removal off `enemies_left`. The source's `u32`
      decrement has no floor, so the wave must have at least that many left. */
  method DespawnDeadEnemies(wave: Wave, horde: Horde)
    requires DeadCount(horde.enemies) <= wave.enemiesLeft
    modifies wave`enemiesLeft, horde`enemies
    ensures horde.enemies == Survivors(old(horde.enemies))
    ensures wave.State() == AfterReap(old(wave.State()), DeadCount(old(horde.enemies)))
  {
    if |horde.enemies| == 0 {
      return;
    }
    var es := horde.enemies;
    var kept: seq<Enemy> := [];
    for i := 0 to |es|
      invariant kept == Survivors(es[..i])
      invariant DeadCount(es[..i]) <= DeadCount(es)
      invariant wave.enemiesLeft == old(wave.enemiesLeft) - DeadCount(es[..i])
    {
      assert es[..i + 1][..i] == es[..i];
      DeadCountPrefix(es, i + 1);
      if es[i].health <= 0.0 {
        wave.enemiesLeft := wave.enemiesLeft - 1;
      } else {
        kept := kept + [es[i]];
      }
    }
    assert es[..|es|] == es;
    horde.enemies := kept;
  }

  // ---------------------------------------------------------------- traits

  function TickTrait(tr: EnemyTrait, delta: nat): EnemyTrait
  {
    LeaveTrail(Tick(tr.timer, delta), tr.trailDamage)
  }

  /** `spawn_trail` for one trait that has just ticked: a trail at the
      enemy's position when, and only when, its timer just finished. */
  function TrailOf(ticked: EnemyTrait, pos: Vec3): seq<Trail>
  {
    if JustFinished(ticked.timer) then [NewTrail(pos, ticked.trailDamage)] else []
  }

  function TickTraits(ts: seq<EnemyTrait>, delta: nat): (r: seq<EnemyTrait>)
    ensures |r| == |ts|
  {
    seq(|ts|, k requires 0 <= k < |ts| => TickTrait(ts[k], delta))
  }

  /** The trails one enemy's traits emit in one tick, in trait order. */
  function TraitTrails(ts: seq<EnemyTrait>, delta: nat, pos: Vec3): seq<Trail>
  {
    if ts == [] then []
    else TraitTrails(ts[..|ts| - 1], delta, pos) + TrailOf(TickTrait(ts[|ts| - 1], delta), pos)
  }

  /** At most one trail per trait per tick, each at the enemy's position with
      its trait's damage, a fresh 5 s one-shot lifetime and radius 10. */
  lemma {:induction false} TraitTrailsShape(ts: seq<EnemyTrait>, delta: nat, pos: Vec3)
    ensures |TraitTrails(ts, delta, pos)| <= |ts|
    ensures forall tr :: tr in TraitTrails(ts, delta, pos) ==>
      tr.pos == pos && tr.radius == TrailRadius && tr.lifetime == NewTimer(TrailLifetime, Once) &&
      exists k :: 0 <= k < |ts| && tr.damage == ts[k].trailDamage
  {
    if ts != [] {
      var init := ts[..|ts| - 1];
      TraitTrailsShape(init, delta, pos);
      forall tr | tr in TraitTrails(ts, delta, pos)
        ensures exists k :: 0 <= k < |ts| && tr.damage == ts[k].trailDamage
      {
        if tr in TraitTrails(init, delta, pos) {
          var k :| 0 <= k < |init| && tr.damage == init[k].trailDamage;
          assert ts[k] == init[k];
        } else {
          assert tr.damage == ts[|ts| - 1].trailDamage;
        }
      }
    }
  }

  function TickEnemy(e: Enemy, delta: nat): Enemy
  {
    e.(traits := TickTraits(e.traits, delta))
  }

  /** Ticks the traits of one enemy, returning the enemy with its timers
      advanced and the trails it emitted; the inner loop of
      `apply_enemy_traits`. */
  method TickEnemyTraits(e: Enemy, delta: nat) returns (ticked: Enemy, emitted: seq<Trail>)
    ensures ticked == TickEnemy(e, delta)
    ensures ticked.kind == e.kind && ticked.health == e.health && ticked.pos == e.pos
    ensures ticked.speed == e.speed && ticked.damage == e.damage
    ensures |ticked.traits| == |e.traits|
    ensures forall k :: 0 <= k < |e.traits| ==>
      ticked.traits[k] == LeaveTrail(Tick(e.traits[k].timer, delta), e.traits[k].trailDamage)
    ensures emitted == TraitTrails(e.traits, delta, e.pos)
  {
    var ts := e.traits;
    var done: seq<EnemyTrait> := [];
    emitted := [];
    for k := 0 to |ts|
      invariant |done| == k
      invariant forall j :: 0 <= j < k ==> done[j] == TickTrait(ts[j], delta)
      invariant emitted == TraitTrails(ts[..k], delta, e.pos)
    {
      assert ts[..k + 1][..k] == ts[..k];
      var t := ts[k];
      match t
      case LeaveTrail(timer, trailDamage) =>
        var timer' := Tick(timer, delta);
        if JustFinished(timer') {
          emitted := emitted + [NewTrail(e.pos, trailDamage)];
        }
        done := done + [LeaveTrail(timer', trailDamage)];
    }
    assert ts[..|ts|] == ts;
    assert done == TickTraits(ts, delta);
    ticked := e.(traits := done);
  }

  function TickHorde(es: seq<Enemy>, delta: nat): (r: seq<Enemy>)
    ensures |r| == |es|
  {
    if es == [] then [] else TickHorde(es[..|es| - 1], delta) + [TickEnemy(es[|es| - 1], delta)]
  }

  /** Replacing the element just past a prefix. */
  lemma ReplaceAfterPrefix(done: seq<Enemy>, rest: seq<Enemy>, x: Enemy)
    requires rest != []
    ensures (done + rest)[|done| := x] == done + [x] + rest[1..]
  {
  }

  /** The trails all enemies emit in one tick, in enemy order. */
  function HordeTrails(es: seq<Enemy>, delta: nat): seq<Trail>
  {
    if es == [] then []
    else
      var last := es[|es| - 1];
      HordeTrails(es[..|es| - 1], delta) + TraitTrails(last.traits, delta, last.pos)
  }

  /** One enemy more of the trait pass. */
  lemma HordeStep(es: seq<Enemy>, i: nat, delta: nat, ticked: Enemy, emitted: seq<Trail>)
    requires i < |es|
    requires ticked == TickEnemy(es[i], delta)
    requires emitted == TraitTrails(es[i].traits, delta, es[i].pos)
    ensures (TickHorde(es[..i], delta) + es[i..])[i := ticked] == TickHorde(es[..i + 1], delta) + es[i + 1..]
    ensures HordeTrails(es[..i], delta) + emitted == HordeTrails(es[..i + 1], delta)
  {
    assert es[..i + 1][..i] == es[..i];
    ReplaceAfterPrefix(TickHorde(es[..i], delta), es[i..], ticked);
    assert es[i..][1..] == es[i + 1..];
  }

  /** `apply_enemy_traits`: every trait timer of every enemy advances by
      `delta`, and each that just finished leaves one trail. */
  method ApplyEnemyTraits(horde: Horde, delta: nat)
    modifies horde`enemies, horde`trails
    ensures horde.enemies == TickHorde(old(horde.enemies), delta)
    ensures horde.trails == old(horde.trails) + HordeTrails(old(horde.enemies), delta)
  {
    var es := horde.enemies;
    for i := 0 to |es|
      invariant horde.enemies == TickHorde(es[..i], delta) + es[i..]
      invariant horde.trails == old(horde.trails) + HordeTrails(es[..i], delta)
    {
      var ticked, emitted := TickEnemyTraits(es[i], delta);
      HordeStep(es, i, delta, ticked, emitted);
      horde.trails := horde.trails + emitted;
      horde.enemies := horde.enemies[i := ticked];
    }
    assert es[..|es|] == es;
  }

  /** An enemy ticked by each of `deltas` in turn (it does not move here). */
  function RunEnemy(e: Enemy, deltas: seq<nat>): Enemy
  {
    if deltas == [] then e else TickEnemy(RunEnemy(e, deltas[..|deltas| - 1]), deltas[|deltas| - 1])
  }

  /** All the trails that enemy emits over those ticks. */
  function TrailsOver(e: Enemy, deltas: seq<nat>): seq<Trail>
  {
    if deltas == [] then []
    else
      var before := RunEnemy(e, deltas[..|deltas| - 1]);
      TrailsOver(e, deltas[..|deltas| - 1]) + TraitTrails(before.traits, deltas[|deltas| - 1], before.pos)
  }

  /** An enemy with one trait emits one trail for every tick in which that
      trait's timer just finished. */
  lemma {:induction false} SingleTraitTrailCount(e: Enemy, deltas: seq<nat>)
    requires |e.traits| == 1
    ensures RunEnemy(e, deltas).pos == e.pos
    ensures RunEnemy(e, deltas).traits == [LeaveTrail(RunTicks(e.traits[0].timer, deltas), e.traits[0].trailDamage)]
    ensures |TrailsOver(e, deltas)| == FinishedTicks(e.traits[0].timer, deltas)
  {
    if deltas != [] {
      var init := deltas[..|deltas| - 1];
      SingleTraitTrailCount(e, init);
      var before := RunEnemy(e, init);
      var d := deltas[|deltas| - 1];
      assert TraitTrails(before.traits, d, before.pos)
          == TrailOf(TickTrait(before.traits[0], d), before.pos);
    }
  }

  /** A Toxic enemy leaves one trail per 0.1 s of accumulated time, whatever
      the tick lengths, as long as no tick is longer than 0.1 s. */
  lemma ToxicTrailCadence(e: Enemy, deltas: seq<nat>)
    requires e.kind == Toxic && CarriesConfig(e)
    requires forall i :: 0 <= i < |deltas| ==> deltas[i] <= TrailInterval
    ensures |TrailsOver(e, deltas)| * TrailInterval + RunTicks(e.traits[0].timer, deltas).elapsed == Sum(deltas)
    ensures RunTicks(e.traits[0].timer, deltas).elapsed < TrailInterval
  {
    SingleTraitTrailCount(e, deltas);
    FinishedTicksCountPeriods(e.traits[0].timer, deltas);
  }

  /** A tick of 0.2 s completes a fresh Toxic trait timer twice but leaves
      one trail: the pass looks only at `just_finished`. */
  lemma LongTickLeavesOneTrail(pos: Vec3)
    ensures var ts := Config(Toxic).traits;
      Tick(ts[0].timer, 2 * TrailInterval).timesFinishedThisTick == 2 &&
      |TraitTrails(ts, 2 * TrailInterval, pos)| == 1
  {
    var ts := Config(Toxic).traits;
    assert TraitTrails(ts, 2 * TrailInterval, pos) == TraitTrails([], 2 * TrailInterval, pos) + TrailOf(TickTrait(ts[0], 2 * TrailInterval), pos);
  }

  /** A tick of 0.15 s completes a fresh Toxic trait timer once, leaves one
      trail and carries the remaining 0.05 s into the next period. */
  lemma OverrunCarriesOver(pos: Vec3)
    ensures var ts := Config(Toxic).traits;
      var t := Tick(ts[0].timer, 150_000_000);
      t.timesFinishedThisTick == 1 && t.elapsed == 50_000_000 &&
      |TraitTrails(ts, 150_000_000, pos)| == 1
  {
    var ts := Config(Toxic).traits;
    assert TraitTrails(ts, 150_000_000, pos) == TraitTrails([], 150_000_000, pos) + TrailOf(TickTrait(ts[0], 150_000_000), pos);
  }

  // ---------------------------------------------------------------- trails

  function TickTrail(tr: Trail, delta: nat): Trail
  {
    tr.(lifetime := Tick(tr.lifetime, delta))
  }

  /** The trails `update_trails` keeps: each one ticked, and kept only if its
      lifetime has not finished. */
  function SweepTrails(ts: seq<Trail>, delta: nat): seq<Trail>
  {
    if ts == [] then []
    else
      var t := TickTrail(ts[|ts| - 1], delta);
      SweepTrails(ts[..|ts| - 1], delta) + (if t.lifetime.finished then [] else [t])
  }

  /** Every trail whose ticked lifetime is unfinished survives the sweep. */
  lemma {:induction false} SweepKeepsUnfinished(ts: seq<Trail>, delta: nat)
    ensures forall k :: 0 <= k < |ts| && !TickTrail(ts[k], delta).lifetime.finished ==>
      TickTrail(ts[k], delta) in SweepTrails(ts, delta)
  {
    if ts != [] {
      var init := ts[..|ts| - 1];
      SweepKeepsUnfinished(init, delta);
      forall k | 0 <= k < |init| ensures ts[k] == init[k] { }
    }
  }

  /** Whatever survives the sweep is a ticked trail whose lifetime is
      unfinished, with damage, radius and position unchanged; the sweep
      never adds trails. */
  lemma {:induction false} SweepDropsFinished(ts: seq<Trail>, delta: nat)
    ensures |SweepTrails(ts, delta)| <= |ts|
    ensures forall t :: t in SweepTrails(ts, delta) ==>
      !t.lifetime.finished && exists k :: 0 <= k < |ts| && t == TickTrail(ts[k], delta)
  {
    if ts != [] {
      var init := ts[..|ts| - 1];
      SweepDropsFinished(init, delta);
      forall t | t in SweepTrails(init, delta)
        ensures exists k :: 0 <= k < |ts| && t == TickTrail(ts[k], delta)
      {
        var k :| 0 <= k < |init| && t == TickTrail(init[k], delta);
        assert ts[k] == init[k];
      }
    }
  }

  /** A live trail is removed in the tick its lifetime reaches 5 s, and kept
      before that. */
  lemma TrailExpiresWithLifetime(tr: Trail, delta: nat)
    requires tr.lifetime.mode == Once && Valid(tr.lifetime) && !tr.lifetime.finished
    ensures SweepTrails([tr], delta) == [] <==> tr.lifetime.elapsed + delta >= tr.lifetime.duration
  {
    assert SweepTrails([tr], delta) == SweepTrails([], delta) + (if TickTrail(tr, delta).lifetime.finished then [] else [TickTrail(tr, delta)]);
  }

  /** `update_trails`: tick every trail's lifetime and despawn those that
      have finished. */
  method UpdateTrails(horde: Horde, delta: nat)
    modifies horde`trails
    ensures horde.trails == SweepTrails(old(horde.trails), delta)
  {
    var ts := horde.trails;
    var kept: seq<Trail> := [];
    for i := 0 to |ts|
      invariant kept == SweepTrails(ts[..i], delta)
    {
      assert ts[..i + 1][..i] == ts[..i];
      var t := ts[i].(lifetime := Tick(ts[i].lifetime, delta));
      if !t.lifetime.finished {
        kept := kept + [t];
      }
    }
    assert ts[..|ts|] == ts;
    horde.trails := kept;
  }
}
