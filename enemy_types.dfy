/** The enemy archetypes: the closed set of enemy kinds, the per-kind
    configuration table, the trait that Toxic enemies carry, and the records
    of a live enemy and of the trail hazard it leaves behind. */
module EnemyTypes {
  import opened Geometry
  import opened Timers

  /** Nanoseconds per second; durations are whole nanoseconds. */
  const NanosPerSecond: nat := 1_000_000_000

  /** Period of the Toxic enemy's trail timer: 0.1 s. */
  const TrailInterval: nat := 100_000_000

  /** Lifetime of one trail hazard: 5.0 s. */
  const TrailLifetime: nat := 5 * NanosPerSecond

  /** Radius of one trail hazard. */
  const TrailRadius: real := 10.0

  datatype EnemyType = Green | Toxic

  /** A per-instance trait; its timer advances every tick. */
  datatype EnemyTrait = LeaveTrail(timer: Timer, trailDamage: real)

  datatype EnemyConfig = EnemyConfig(health: real, speed: real, damage: real, traits: seq<EnemyTrait>)

  /** A live enemy entity: its `Enemy` component, its `EnemyType` component
      and its translation. */
  datatype Enemy = Enemy(kind: EnemyType, health: real, speed: real, damage: real, traits: seq<EnemyTrait>, pos: Vec3)

  /** A trail hazard entity: its `Trail` component and its translation. */
  datatype Trail = Trail(damage: real, lifetime: Timer, radius: real, pos: Vec3)

  /** The value drawn from `0..5` when an enemy kind is chosen. */
  type RandIndex = i: nat | i < 5

  /** `EnemyType::get_rand_enemy` with its draw made a parameter. */
  function RandEnemy(i: RandIndex): (t: EnemyType)
    ensures t == Green <==> i == 0
  {
    match i
    case 0 => Green
    case _ => Toxic
  }

  /** One draw in five yields Green, the other four Toxic. */
  lemma RandEnemyWeights()
    ensures (set i: RandIndex | RandEnemy(i) == Green) == {0}
    ensures (set i: RandIndex | RandEnemy(i) == Toxic) == {1, 2, 3, 4}
  {
    var toxic := set i: RandIndex | RandEnemy(i) == Toxic;
    forall j: RandIndex ensures j in toxic <==> j in {1, 2, 3, 4} {
      if 1 <= j { assert RandEnemy(j) == Toxic; }
    }
  }

  /** `EnemyType::get_base_sprite_index`. */
  function BaseSpriteIndex(t: EnemyType): (r: nat)
    ensures t == Green ==> r == 8
    ensures t == Toxic ==> r == 12
  {
    match t
    case Green => 8
    case Toxic => 12
  }

  /** A fresh trail trait: a repeating 0.1 s timer and its damage. */
  function NewLeaveTrail(trailDamage: real): (tr: EnemyTrait)
    ensures tr.trailDamage == trailDamage
    ensures tr.timer == NewTimer(TrailInterval, Repeating) && Valid(tr.timer)
  {
    LeaveTrail(NewTimer(TrailInterval, Repeating), trailDamage)
  }

  /** Every trait a configuration hands out starts on a fresh positive-length
      repeating timer. */
  predicate FreshTraits(ts: seq<EnemyTrait>)
  {
    forall k :: 0 <= k < |ts| ==> ts[k].timer == NewTimer(TrailInterval, Repeating)
  }

  /** `EnemyType::get_config`: every kind starts alive, with at most one trait,
      and Toxic is exactly the kind that leaves trails. */
  function Config(t: EnemyType): (c: EnemyConfig)
    ensures c.health > 0.0 && c.speed > 0.0 && c.damage >= 0.0
    ensures |c.traits| == (if t == Toxic then 1 else 0)
    ensures FreshTraits(c.traits)
  {
    match t
    case Green => EnemyConfig(100.0, 1.0, 1.0, [])
    case Toxic => EnemyConfig(50.0, 2.0, 0.0, [NewLeaveTrail(2.0)])
  }

  /** The table values: Green is (100, 1, 1) with no trait; Toxic is
      (50, 2, 0) with one trail trait of damage 2. */
  lemma ConfigTable()
    ensures Config(Green) == EnemyConfig(100.0, 1.0, 1.0, [])
    ensures Config(Toxic) == EnemyConfig(50.0, 2.0, 0.0, [LeaveTrail(NewTimer(TrailInterval, Repeating), 2.0)])
  {
  }

  /** A trail hazard emitted at `pos`: a fresh 5 s one-shot lifetime and radius 10. */
  function NewTrail(pos: Vec3, damage: real): (tr: Trail)
    ensures tr.pos == pos && tr.damage == damage && tr.radius == TrailRadius
    ensures tr.lifetime.mode == Once && tr.lifetime.duration == TrailLifetime
    ensures Valid(tr.lifetime) && !tr.lifetime.finished
  {
    Trail(damage, NewTimer(TrailLifetime, Once), TrailRadius, pos)
  }
}
