# bevy-2d-shooter combat core, modelled in Dafny

This project models the combat logic of a top-down Bevy shooter. Two source
files are covered. `src/enemy.rs` holds the wave director, the enemy
archetype table, enemy reaping and the trail trait. `src/gun.rs` holds the
firing cadence, bullet volleys, bullet travel dispatch and bullet expiry.

Each Bevy system that changes state becomes a Dafny `method` over a small class:

- `EnemySystems.Wave` is the `Wave` resource with its four counters.
- `EnemySystems.Horde` holds the live enemy and trail entities.
- `GunSystems.Gun` is one gun entity.
- `GunSystems.BulletSet` holds the live bullets and the next entity id.

Each method is proved against a value-level function:

- `Waves.AfterSpawn` and `Waves.AfterReap` give the counters after a tick.
- `EnemySystems.SpawnedBatch`, `Survivors`, `TickHorde`/`HordeTrails` and `SweepTrails` give the entity sets.
- `Guns.Cadence` and `Guns.Volley` give the gun's stopwatch and its shot.
- `GunSystems.Unexpired` gives the bullets that survive expiry.

The lemmas state what those functions promise.

Modelling choices:

- Durations are whole nanoseconds (`nat`). Health, speed, damage, spread and lifespan are `real`.
- Every random draw is a parameter: spawn offsets, the `0..5` kind index and the spread jitters.
- The frame's `delta` and the wall-clock `now` are parameters too.
- The crate constants are also parameters, because their values are outside this model: the spawn rate, the world half extents and the `BULLET_*` constants.
- The engine's `Timer` is modelled in `Timers` as a nanosecond accumulator. A repeating timer wraps its elapsed time and counts how many times it completed in the tick. A one-shot timer latches at its duration.

Behaviours of the code that the model keeps as written:

- `despawn_old_bullets` removes a bullet only when its age is strictly greater than its lifespan, so a bullet whose age equals its lifespan is kept (`GunSystems.ExpiryBoundary`).
- `apply_enemy_traits` looks only at `just_finished`, so it emits at most one trail per trait per tick, however many times the repeating timer completed in that tick. Time left over after a completion carries over, so a trail is lost only when the timer's elapsed time plus the tick reaches two periods (0.2 s). A 0.2 s tick on a fresh timer completes it twice and leaves one trail (`EnemySystems.LongTickLeavesOneTrail`); a 0.15 s tick completes it once, keeps 0.05 s and loses nothing (`EnemySystems.OverrunCarriesOver`). When no tick is longer than 0.1 s, the trails number exactly the whole 0.1 s periods of accumulated time (`EnemySystems.ToxicTrailCadence`); that bound on the ticks is sufficient for this, not necessary.
- `enemies_spawned <= enemies_total` is not maintained by the code. The admission loop runs `min(enemies_left, rate)` times and ignores `total - spawned`. With a rate of 3, wave 0 reaches 12 spawned of 10, and reaping them all would drive `enemies_left` below zero (`Waves.AdmissionCanOvershoot`). The inequality does hold when the rate divides 10 (`Waves.PacedAdmissionStaysWithinTotal`).
- `enemies_left` has no floor: the `u32` decrement requires as many enemies left as there are dead (`EnemySystems.DespawnDeadEnemies`).

## Model

| member | source | states |
|---|---|---|
| `Geometry.Clamp` | src/enemy.rs:154-157 | the result lies in `[lo, hi]`; a value already inside is returned unchanged; any change moves it to the nearer bound |
| `Timers.NewTimer` | src/enemy.rs:246 | a new timer has the given duration and mode, nothing elapsed, and is not finished |
| `Timers.TickValid` | src/enemy.rs:186 | ticking keeps a timer valid and never changes its duration or mode |
| `Timers.RepeatingTickConserves` | src/enemy.rs:186-187 | a repeating tick loses no time (completions × period + remainder = accumulated); it just finished exactly when accumulated time reached the period |
| `Timers.ShortTickFinishesAtMostOnce` | src/enemy.rs:186-187 | a tick no longer than the period completes a repeating timer at most once |
| `Timers.OnceTickLatches` | src/enemy.rs:170-171 | a one-shot timer finishes when accumulated time reaches its duration, then stays finished and never reports a completion again |
| `Timers.FinishedTicksCountPeriods` | src/enemy.rs:183-189 | over any run of ticks no longer than the period, the number of `just_finished` ticks × period + remainder equals the initial time plus the sum of the ticks |
| `Timers.LongTickCompletesTwice` | src/enemy.rs:186-187 | a tick of two periods completes a repeating timer twice but `just_finished` is a single flag |
| `EnemyTypes.RandEnemy` | src/enemy.rs:217-224 | draw 0 gives `Green`, draws 1 to 4 give `Toxic` |
| `EnemyTypes.RandEnemyWeights` | src/enemy.rs:219-223 | exactly one draw in five yields `Green` and the other four yield `Toxic` |
| `EnemyTypes.BaseSpriteIndex` | src/enemy.rs:226-231 | `Green` uses atlas cell 8 and `Toxic` cell 12, so the two kinds never share a cell |
| `EnemyTypes.NewLeaveTrail` | src/enemy.rs:245-248 | the trait keeps its damage and starts on a fresh, valid, repeating 0.1 s timer |
| `EnemyTypes.Config` | src/enemy.rs:233-251 | every kind starts with positive health and speed and non-negative damage; `Toxic` has exactly one trait and `Green` none; every trait timer is fresh |
| `EnemyTypes.ConfigTable` | src/enemy.rs:233-251 | `Green` is (100, 1, 1) with no trait; `Toxic` is (50, 2, 0) with one repeating 0.1 s trail trait of damage 2 |
| `EnemyTypes.NewTrail` | src/enemy.rs:196-214 | a trail sits at the given position with the given damage, radius 10 and a fresh 5 s one-shot lifetime |
| `Waves.EnemiesPerWave` | src/enemy.rs:160-162 | the wave size is a multiple of 10, at least 10 and below `2^32` for every wave up to 28 |
| `Waves.Wave29Overflows` | src/enemy.rs:160-162 | wave 29 would need `10 * 2^29`, past `u32::MAX`, so the bound of 28 cannot be raised |
| `Waves.EnemiesPerWaveDoubles` | src/enemy.rs:160-162 | each wave is twice the previous one |
| `Waves.EnemiesPerWaveIncreasing` | src/enemy.rs:160-162 | wave sizes strictly increase with the wave number |
| `Waves.FirstWaveSizes` | src/enemy.rs:160-162 | waves 0, 1 and 2 hold 10, 20 and 40 enemies |
| `Waves.RefillStartsNextWave` | src/enemy.rs:100-106 | an empty wave is refilled even without a player: the size comes from the old number, the number rises by one, `total` and `left` both equal that size, and `spawned` restarts at 0 |
| `Waves.NoRefillWhileEnemiesLeft` | src/enemy.rs:100 | a wave with enemies left is not refilled |
| `Waves.AdmissionCount` | src/enemy.rs:108-140 | after the refill, a fully spawned wave or a missing player admits nothing; otherwise exactly `min(left, rate)` are admitted and only `spawned` changes |
| `Waves.SpawnKeepsBalance` | src/enemy.rs:100-140 | spawning preserves "alive + total = spawned + left" when a refill only happens with nobody alive |
| `Waves.ReapKeepsBalance` | src/enemy.rs:71-76 | reaping preserves "alive + total = spawned + left" |
| `Waves.BalancedReapFits` | src/enemy.rs:74 | while `spawned <= total`, the balance guarantees the `enemies_left` decrement cannot underflow, and an empty wave has no enemy alive |
| `Waves.PacedAdmissionStaysWithinTotal` | src/enemy.rs:113 | when the spawn rate divides 10, admissions keep `spawned` a multiple of the rate and never above `total` |
| `Waves.AdmissionCanOvershoot` | src/enemy.rs:113-140 | with rate 3 and no kills, the fourth tick of wave 0 takes `spawned` from 9 to 12 of 10, leaving 12 alive against 10 left |
| `Waves.FirstWaveAtRateFive` | src/enemy.rs:100-140 | at rate 5, wave 0 admits 5 enemies in the first tick, 5 in the second, and none afterwards |
| `EnemySystems.Wave.constructor` | src/world.rs:34 | a fresh `Wave` has all four counters at zero |
| `EnemySystems.SpawnPosition` | src/enemy.rs:151-157 | a spawn point always satisfies `\|x\| <= W` and `\|y\| <= H`; an offset point already inside the world is kept as is |
| `EnemySystems.SpawnedEnemy` | src/enemy.rs:114-134 | a spawned enemy has the drawn kind and exactly that kind's configuration, is alive, lies inside the world, and sits at height 1 |
| `EnemySystems.SpawnedBatchWellFormed` | src/enemy.rs:113-140 | a batch has one enemy per draw, each alive, inside the world and carrying its drawn kind's configuration |
| `EnemySystems.SpawnEnemies` | src/enemy.rs:94-141 | the counters become `AfterSpawn` of the old ones; with no player no enemy is added; otherwise exactly the admitted number of enemies is appended, built from the first draws around the player |
| `EnemySystems.SurvivorsExact` | src/enemy.rs:71-76 | reaping keeps exactly the enemies with positive health, unchanged; survivors plus dead equal the whole set |
| `EnemySystems.FreshBatchSurvives` | src/enemy.rs:72 | freshly spawned enemies are never reaped in the tick they appear |
| `EnemySystems.DespawnDeadEnemies` | src/enemy.rs:62-77 | the enemies become the survivors, `enemies_left` drops by exactly the number removed, and the other counters stay as they were |
| `EnemySystems.TraitTrailsShape` | src/enemy.rs:182-193 | a tick emits at most one trail per trait; each trail sits at the enemy's position with radius 10, a fresh 5 s one-shot lifetime and the damage of one of the enemy's traits |
| `EnemySystems.TickEnemyTraits` | src/enemy.rs:183-192 | every trait timer advances by `delta` and the enemy is otherwise unchanged; the emitted trails are one per trait whose timer just finished, in trait order |
| `EnemySystems.ApplyEnemyTraits` | src/enemy.rs:177-194 | every enemy's traits are ticked, and the trails of all enemies are appended in enemy order |
| `EnemySystems.SingleTraitTrailCount` | src/enemy.rs:182-193 | over a run of ticks, an enemy with one trait emits one trail per tick in which that trait's timer just finished |
| `EnemySystems.ToxicTrailCadence` | src/enemy.rs:182-193 | a Toxic enemy emits one trail per 0.1 s of accumulated time, whatever the tick lengths, provided no tick exceeds 0.1 s |
| `EnemySystems.LongTickLeavesOneTrail` | src/enemy.rs:186-189 | a 0.2 s tick completes the Toxic timer twice but leaves only one trail |
| `EnemySystems.OverrunCarriesOver` | src/enemy.rs:186-189 | a 0.15 s tick completes a fresh Toxic timer once, leaves one trail and keeps the 0.05 s left over |
| `EnemySystems.SweepKeepsUnfinished` | src/enemy.rs:169-174 | every trail whose ticked lifetime is unfinished survives the sweep |
| `EnemySystems.SweepDropsFinished` | src/enemy.rs:169-174 | every surviving trail is a ticked trail with an unfinished lifetime, otherwise unchanged, and the sweep never adds trails |
| `EnemySystems.TrailExpiresWithLifetime` | src/enemy.rs:169-174 | a live trail is removed in the tick its lifetime reaches its duration, and kept before that |
| `EnemySystems.UpdateTrails` | src/enemy.rs:164-175 | the trails become the sweep of the old trails |
| `Guns.DefaultGunBundle` | src/gun.rs:63-83 | the default gun has type `Default`, a zeroed stopwatch, and stats built from the `BULLET_*` and `NUM_BULLETS_PER_SHOT` constants |
| `Guns.AimFallsBackToPlayer` | src/gun.rs:110-113 | the aim target is the cursor when present and the player otherwise; the aim vector is zero exactly when the target is the player |
| `Guns.CadenceStepExact` | src/gun.rs:156-159 | a tick fires exactly when accumulated time reaches the interval; a shot resets the stopwatch to 0 and discards the excess, and no shot keeps the time |
| `Guns.CadenceNeverFiresEarly` | src/gun.rs:156-159 | over any run of ticks, shots × interval + final stopwatch never exceeds the initial stopwatch plus the ticked time |
| `Guns.StopwatchBelowInterval` | src/gun.rs:156-159 | between ticks the stopwatch stays below a positive firing interval |
| `Guns.ExcessIsDiscarded` | src/gun.rs:158-159 | with interval 10, ticks of 15 and 5 fire only once and leave 5 on the stopwatch |
| `Guns.VolleyShape` | src/gun.rs:165-194 | one bullet per draw; each starts at the gun's position, copies its stats and type, takes fresh consecutive ids and one spawn time, and points along the forward axis with x and y within the spread and z unchanged |
| `GunSystems.Gun.constructor` | src/gun.rs:52-61 | a gun spawned from a bundle takes its stopwatch, type and stats |
| `GunSystems.HandleGunFiring` | src/gun.rs:144-200 | with no gun nothing happens; otherwise the stopwatch follows `Cadence`; a `Default` gun that fires appends exactly `bullets_per_shot` bullets; `Gun1` and `Gun2` reach `todo!()`, while a `Default` gun never does; bullet ids stay distinct |
| `GunSystems.UpdateBullets` | src/gun.rs:202-222 | with only `Default` bullets, each moves by speed × unit direction and is put at height 10; a `Gun1` or `Gun2` bullet reaches `todo!()` after the bullets before it have moved; bullet ids stay distinct |
| `GunSystems.Age` | src/gun.rs:134 | a bullet's age is never negative |
| `GunSystems.UnexpiredExact` | src/gun.rs:133-141 | a bullet is kept exactly when its age does not exceed its lifespan |
| `GunSystems.ExpiryBoundary` | src/gun.rs:134 | a 0.2 s bullet is kept at ages 0.19 and 0.2 and removed at any later age |
| `GunSystems.DespawnRemovesId` | src/gun.rs:135-139 | a guarded despawn removes the entity's id whether or not it is still present |
| `GunSystems.DespawnIdempotent` | src/gun.rs:135-139 | despawning twice has the effect of despawning once, and the entity is gone afterwards |
| `GunSystems.RemoveExpiredIds` | src/gun.rs:133-141 | with distinct ids, removing the expired bullets' ids leaves exactly the unexpired bullets |
| `GunSystems.QueueExpired` | src/gun.rs:133-134 | the queued ids are exactly those of the bullets older than their lifespan |
| `GunSystems.DespawnOldBullets` | src/gun.rs:129-142 | the live bullets become exactly the unexpired ones, in order, and ids stay distinct |

## Left out

- `update_enemy_transform` is not modelled. It is `normalize`-based pursuit in floating point. Line 89 also does not guard against an enemy standing exactly on the player, where the direction has zero length.
- The `atan2`/`cos`/`sin` placement in `update_gun_transform` is not modelled; only the cursor fallback and the aim vector are. The trig of `get_random_position_around` is not modelled either: the offset arrives as a parameter, so the 1000–3000 distance range is not enforced.
- The `rand::thread_rng` draws are parameters; their distribution is not modelled.
- `Instant::now()` and `elapsed()` become the parameter `now` and a saturating age.
- Rendering data is not modelled: `SpriteBundle`, `TextureAtlas`, `AnimationTimer`, scale and colour.
- Engine scheduling is not modelled: plugins, `run_if(on_timer(ENEMY_SPAWN_INTERVAL))`, `in_state`, and the order between systems.
- `Commands` deferral is not modelled. Spawns and despawns take effect when the method runs, which gives the same end state for each system.
- Iteration order: `Query` iteration order is taken to be the order of the sequence.
- `single()`/`single_mut()` panic when more than one player or gun matches. The model allows at most one of each. `src/world.rs` spawns two `GunBundle`s, and how the inactive gun is kept out of the query belongs to player code that is not part of this model.
- `src/world.rs` is session setup and teardown and is not modelled, apart from the zeroed `Wave` it inserts.
- The `Wave` struct and the crate constants are defined in files that are not part of this model. The fields are inferred from their use, and the constants are parameters.
- Floating point: `f32` rounding is not modelled. The stopwatch's `elapsed_secs() >= firing_interval` comparison is modelled exactly in nanoseconds.
- Timer internals: paused timers and the `as u32` truncation of a very large completion count are not modelled. A zero-length repeating timer reports `u32::MAX` completions, as the engine does.
- `EnemySystems.DespawnDeadEnemies`: requires `enemies_left` to be at least the number of dead enemies. In the source, the `u32` decrement would panic in a debug build or wrap in a release build.
- `Waves.EnemiesPerWave`: requires the wave number to be at most 28. For wave 29 and beyond the `u32` multiplication in the source overflows (`Waves.Wave29Overflows`).
- `EnemySystems.SpawnEnemies`: the counters are unbounded `nat`. Overflow of `enemies_spawned` past `u32::MAX` is not modelled. The method requires non-negative world half extents, because `f32::clamp` panics otherwise.
- `GunSystems.HandleGunFiring`: requires each jitter draw to lie in `[-spread, spread)`. So a non-positive spread with a positive `bullets_per_shot`, for which `gen_range` panics on an empty range, is excluded rather than modelled as a panic.
- `GunSystems.UpdateBullets`: normalisation is a function parameter, so the zero-length direction case is not analysed.
- `EnemySystems.SingleTraitTrailCount`: the enemy does not move between the ticks it considers, because movement is not modelled.
