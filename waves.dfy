/** The wave director's arithmetic: how many enemies a wave holds, and what
    one spawning tick and one reaping tick do to the four `Wave` counters.
    The imperative systems in EnemySystems are proved against these. */
module Waves {
  import opened Arith

  /** `u32::MAX + 1`: the counters are `u32` in the source. */
  const U32Limit: nat := 0x1_0000_0000

  /** The last wave number whose size still fits in a `u32`. */
  const MaxWave: nat := 28

  function Pow2(n: nat): (r: nat)
    ensures r >= 1
  {
    if n == 0 then 1 else 2 * Pow2(n - 1)
  }

  lemma {:induction false} Pow2Add(a: nat, b: nat)
    ensures Pow2(a + b) == Pow2(a) * Pow2(b)
  {
    if a > 0 {
      Pow2Add(a - 1, b);
      assert Pow2(a + b) == 2 * Pow2(a - 1 + b);
    }
  }

  lemma {:induction false} Pow2Monotone(a: nat, b: nat)
    requires a <= b
    ensures Pow2(a) <= Pow2(b)
  {
    if a < b {
      Pow2Monotone(a, b - 1);
    }
  }

  lemma Pow2Of28()
    ensures Pow2(28) == 268_435_456
  {
    assert Pow2(4) == 16;
    Pow2Add(4, 4);
    Pow2Add(8, 8);
    Pow2Add(16, 8);
    Pow2Add(24, 4);
  }

  /** `calculate_enemies_per_wave`: `10 * 2^wave`, which fits in a `u32`
      exactly up to wave 28. */
  function EnemiesPerWave(wave: nat): (r: nat)
    requires wave <= MaxWave
    ensures 10 <= r < U32Limit
    ensures r % 10 == 0
  {
    Pow2Monotone(wave, MaxWave);
    Pow2Of28();
    10 * Pow2(wave)
  }

  /** Wave 29 would need `10 * 2^29`, which is past `u32::MAX`: the bound on
      the wave number cannot be raised. */
  lemma Wave29Overflows()
    ensures 10 * Pow2(MaxWave + 1) >= U32Limit
  {
    Pow2Of28();
  }

  /** Each wave is twice the size of the one before. */
  lemma EnemiesPerWaveDoubles(wave: nat)
    requires wave < MaxWave
    ensures EnemiesPerWave(wave + 1) == 2 * EnemiesPerWave(wave)
  {
  }

  /** Wave sizes grow strictly. */
  lemma {:induction false} EnemiesPerWaveIncreasing(a: nat, b: nat)
    requires a < b <= MaxWave
    ensures EnemiesPerWave(a) < EnemiesPerWave(b)
  {
    if a < b - 1 {
      EnemiesPerWaveIncreasing(a, b - 1);
    }
    EnemiesPerWaveDoubles(b - 1);
  }

  /** The first three waves hold 10, 20 and 40 enemies. */
  lemma FirstWaveSizes()
    ensures EnemiesPerWave(0) == 10 && EnemiesPerWave(1) == 20 && EnemiesPerWave(2) == 40
  {
  }

  /** The `Wave` resource as a value. */
  datatype Counters = Counters(number: nat, total: nat, left: nat, spawned: nat)

  /** `Wave::default()`: every counter zero. */
  const Initial: Counters := Counters(0, 0, 0, 0)

  /** A refill is only possible while the next wave's size fits a `u32`. */
  predicate CanRefill(c: Counters)
  {
    c.left == 0 ==> c.number <= MaxWave
  }

  /** The refill at the head of `spawn_enemies`. */
  function Refill(c: Counters): Counters
    requires CanRefill(c)
  {
    if c.left == 0 then
      var count := EnemiesPerWave(c.number);
      Counters(c.number + 1, count, count, 0)
    else c
  }

  function Min(a: nat, b: nat): nat
  {
    if a <= b then a else b
  }

  /** How many enemies the loop of `spawn_enemies` admits on counters that
      have already been refilled. */
  function Admitted(c: Counters, playerPresent: bool, rate: nat): nat
  {
    if c.spawned >= c.total || !playerPresent then 0 else Min(c.left, rate)
  }

  /** The counters after one run of `spawn_enemies`. */
  function AfterSpawn(c: Counters, playerPresent: bool, rate: nat): Counters
    requires CanRefill(c)
  {
    var r := Refill(c);
    r.(spawned := r.spawned + Admitted(r, playerPresent, rate))
  }

  /** The counters after `despawn_dead_enemies` removed `dead` enemies. */
  function AfterReap(c: Counters, dead: nat): Counters
    requires dead <= c.left
  {
    c.(left := c.left - dead)
  }

  /** An empty wave is refilled, whether or not a player exists: the size is
      taken from the old wave number, the number then goes up by one, both
      `total` and `left` become that size and `spawned` restarts from zero
      before this tick's admissions. */
  lemma RefillStartsNextWave(c: Counters, playerPresent: bool, rate: nat)
    requires c.left == 0 && c.number <= MaxWave
    ensures var r := Refill(c);
      r.number == c.number + 1 &&
      r.total == r.left == EnemiesPerWave(c.number) && r.left > 0 && r.spawned == 0
    ensures AfterSpawn(c, playerPresent, rate).spawned == Admitted(Refill(c), playerPresent, rate)
    ensures !playerPresent ==> AfterSpawn(c, playerPresent, rate) == Refill(c)
  {
  }

  /** A wave that still has enemies left is not refilled. */
  lemma NoRefillWhileEnemiesLeft(c: Counters)
    requires c.left > 0
    ensures Refill(c) == c
  {
  }

  /** After the refill, nothing is admitted when the wave is fully spawned or
      there is no player; otherwise exactly `min(left, rate)` enemies are
      admitted and only `spawned` moves. */
  lemma AdmissionCount(c: Counters, playerPresent: bool, rate: nat)
    requires CanRefill(c)
    ensures var r := Refill(c);
      var a := AfterSpawn(c, playerPresent, rate);
      a.number == r.number && a.total == r.total && a.left == r.left &&
      (r.spawned >= r.total || !playerPresent ==> a == r) &&
      (r.spawned < r.total && playerPresent ==>
         a.spawned == r.spawned + (if r.left <= rate then r.left else rate))
  {
  }

  /** The counters agree with the live enemies: those alive now plus the
      wave size equal those spawned plus those still left to kill. */
  predicate Balanced(c: Counters, alive: nat)
  {
    alive + c.total == c.spawned + c.left
  }

  /** Spawning keeps the counters balanced with the live enemies, provided a
      refill only happens with no enemy alive. */
  lemma SpawnKeepsBalance(c: Counters, alive: nat, playerPresent: bool, rate: nat)
    requires CanRefill(c) && Balanced(c, alive)
    requires c.left == 0 ==> alive == 0
    ensures Balanced(AfterSpawn(c, playerPresent, rate), alive + Admitted(Refill(c), playerPresent, rate))
  {
  }

  /** Reaping keeps the counters balanced with the live enemies. */
  lemma ReapKeepsBalance(c: Counters, alive: nat, dead: nat)
    requires Balanced(c, alive) && dead <= alive && dead <= c.left
    ensures Balanced(AfterReap(c, dead), alive - dead)
  {
  }

  /** While no more have been spawned than the wave holds, the balance
      bounds the dead by the enemies left: the decrement cannot underflow,
      and an empty wave has no enemy alive. */
  lemma BalancedReapFits(c: Counters, alive: nat, dead: nat)
    requires Balanced(c, alive) && c.spawned <= c.total && dead <= alive
    ensures dead <= c.left
    ensures c.left == 0 ==> alive == 0
  {
  }

  /** Counters paced by `rate`: the wave size and the spawned count are
      multiples of the rate, and no more have been spawned than the wave holds. */
  predicate Paced(c: Counters, rate: nat)
  {
    rate > 0 && c.total % rate == 0 && c.spawned % rate == 0 && c.spawned <= c.total
  }

  /** A divisor of 10 divides every wave size. */
  lemma DivisorOfTenDividesWave(wave: nat, rate: nat)
    requires wave <= MaxWave && rate > 0 && 10 % rate == 0
    ensures EnemiesPerWave(wave) % rate == 0
  {
    DivisorDividesMultiple(10, Pow2(wave), rate);
  }

  /** One admission on paced, balanced counters stays paced: the gap to the
      wave size is a whole number of rates, so a full batch always fits. */
  lemma AdmissionPaced(r: Counters, playerPresent: bool, rate: nat)
    requires rate > 0 && r.total % rate == 0 && r.spawned % rate == 0 && r.spawned <= r.total
    requires r.left >= r.total - r.spawned
    ensures var a := r.spawned + Admitted(r, playerPresent, rate);
      a % rate == 0 && a <= r.total
  {
    if Admitted(r, playerPresent, rate) > 0 {
      MultiplesApart(r.total, r.spawned, rate);
      MultiplePlusDivisor(r.spawned, rate);
    }
  }

  /** When the spawn rate divides 10, and so every wave size, admissions stop
      exactly at the wave size and never overshoot it. */
  lemma {:induction false} PacedAdmissionStaysWithinTotal(c: Counters, alive: nat, playerPresent: bool, rate: nat)
    requires CanRefill(c) && Balanced(c, alive) && Paced(c, rate) && 10 % rate == 0
    ensures Paced(AfterSpawn(c, playerPresent, rate), rate)
  {
    if c.left == 0 {
      DivisorOfTenDividesWave(c.number, rate);
    }
    AdmissionPaced(Refill(c), playerPresent, rate);
  }

  /** Without that pacing the loop bound `min(left, rate)`, which ignores
      `total - spawned`, overshoots: with rate 3 and nothing killed, the
      fourth tick of wave 0 brings `spawned` to 12 of 10, leaving 12 enemies
      alive against 10 left, so reaping them all would drive `left` below zero. */
  lemma AdmissionCanOvershoot()
    ensures var c1 := AfterSpawn(Initial, true, 3);
      var c2 := AfterSpawn(c1, true, 3);
      var c3 := AfterSpawn(c2, true, 3);
      var c4 := AfterSpawn(c3, true, 3);
      c3 == Counters(1, 10, 10, 9) && c4 == Counters(1, 10, 10, 12) &&
      c4.spawned > c4.total && Balanced(c4, 12) && c4.left < 12
  {
  }

  /** With a rate of 5 and nothing killed, wave 0 admits 5 enemies in the
      first tick and 5 in the second, and none after that. */
  lemma FirstWaveAtRateFive()
    ensures var c1 := AfterSpawn(Initial, true, 5);
      var c2 := AfterSpawn(c1, true, 5);
      var c3 := AfterSpawn(c2, true, 5);
      c1 == Counters(1, 10, 10, 5) && c2 == Counters(1, 10, 10, 10) && c3 == c2
  {
  }
}
