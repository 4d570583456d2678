/** The gun systems that run every frame: firing on the stopwatch's cadence,
    moving bullets, and despawning bullets that outlived their lifespan. The
    gun and the live bullet set are objects these methods update in place. */
module GunSystems {
  import opened Geometry
  import opened Guns

  /** A gun entity: its transform (written by the aim system), its stopwatch
      and its stats. */
  class Gun {
    var translation: Vec3
    /** The forward axis of the gun's rotation (`local_x`). */
    var localX: Vec3
    var stopwatch: nat
    var gunType: GunType
    var bulletStats: BulletStats
    var gunStats: GunStats

    /** Spawns a gun from a bundle at a given transform. */
    constructor (bundle: GunBundle, translation: Vec3, localX: Vec3)
      ensures this.translation == translation && this.localX == localX
      ensures stopwatch == bundle.stopwatch && gunType == bundle.gunType
      ensures bulletStats == bundle.bulletStats && gunStats == bundle.gunStats
    {
      this.translation := translation;
      this.localX := localX;
      stopwatch := bundle.stopwatch;
      gunType := bundle.gunType;
      bulletStats := bundle.bulletStats;
      gunStats := bundle.gunStats;
    }
  }

  /** No two bullets share an entity id. */
  predicate DistinctIds(bs: seq<Bullet>)
  {
    forall i, j :: 0 <= i < j < |bs| ==> bs[i].id != bs[j].id
  }

  predicate IdsBelow(bs: seq<Bullet>, bound: nat)
  {
    forall i :: 0 <= i < |bs| ==> bs[i].id < bound
  }

  /** The live bullet entities, and the next entity id to hand out. */
  class BulletSet {
    var live: seq<Bullet>
    var nextId: nat

    predicate Valid()
      reads this
    {
      DistinctIds(live) && IdsBelow(live, nextId)
    }

    constructor ()
      ensures Valid() && live == []
    {
      live, nextId := [], 0;
    }
  }

  // ---------------------------------------------------------------- firing

  datatype FireOutcome = Idle | Fired(count: nat) | Unimplemented

  lemma VolleyKeepsIdsValid(bs: seq<Bullet>, nextId: nat, v: seq<Bullet>)
    requires DistinctIds(bs) && IdsBelow(bs, nextId)
    requires forall i :: 0 <= i < |v| ==> v[i].id == nextId + i
    ensures DistinctIds(bs + v) && IdsBelow(bs + v, nextId + |v|)
  {
  }

  /** `handle_gun_firing`: with no gun nothing happens. Otherwise the
      stopwatch advances; if the interval is reached it is reset and a
      `Default` gun spawns `bullets_per_shot` bullets, one jitter draw each,
      while `Gun1` and `Gun2` stop at their `todo!()`. */
  method HandleGunFiring(gun: Gun?, bullets: BulletSet, delta: nat, now: real, jitters: seq<Jitter>)
    returns (outcome: FireOutcome)
    requires bullets.Valid()
    requires gun != null ==> |jitters| >= gun.gunStats.bulletsPerShot
    requires gun != null ==> forall i :: 0 <= i < |jitters| ==> WithinSpread(jitters[i], gun.gunStats.bulletSpread)
    modifies gun, bullets
    ensures bullets.Valid()
    ensures gun != null && gun.gunType == Default ==> outcome != Unimplemented
    ensures gun == null ==> outcome == Idle && bullets.live == old(bullets.live) && bullets.nextId == old(bullets.nextId)
    ensures gun != null ==>
      var step := Cadence(old(gun.stopwatch), delta, gun.gunStats.firingInterval);
      var n := gun.gunStats.bulletsPerShot;
      gun.stopwatch == step.stopwatch &&
      gun.translation == old(gun.translation) && gun.localX == old(gun.localX) &&
      gun.gunType == old(gun.gunType) && gun.bulletStats == old(gun.bulletStats) &&
      gun.gunStats == old(gun.gunStats) &&
      (!step.fires || gun.gunType != Default ==> bullets.live == old(bullets.live) && bullets.nextId == old(bullets.nextId)) &&
      (!step.fires ==> outcome == Idle) &&
      (step.fires && gun.gunType != Default ==> outcome == Unimplemented) &&
      (step.fires && gun.gunType == Default ==>
         outcome == Fired(n) &&
         bullets.nextId == old(bullets.nextId) + n &&
         bullets.live == old(bullets.live) +
           Volley(old(bullets.nextId), gun.translation.Truncate(), gun.localX, gun.bulletStats, gun.gunType, jitters[..n], now))
  {
    if gun == null {
      return Idle;
    }
    var step := Cadence(gun.stopwatch, delta, gun.gunStats.firingInterval);
    gun.stopwatch := step.stopwatch;
    if !step.fires {
      return Idle;
    }
    var gunPos := gun.translation.Truncate();
    var forward := gun.localX;
    match gun.gunType {
      case Default =>
        var n := gun.gunStats.bulletsPerShot;
        ghost var live0 := bullets.live;
        ghost var first := bullets.nextId;
        for i := 0 to n
          modifies bullets
          invariant bullets.nextId == first + i
          invariant bullets.live == live0 + Volley(first, gunPos, forward, gun.bulletStats, gun.gunType, jitters[..i], now)
          invariant bullets.Valid()
        {
          var b := VolleyBullet(bullets.nextId, gunPos, forward, gun.bulletStats, gun.gunType, jitters[i], now);
          assert Volley(first, gunPos, forward, gun.bulletStats, gun.gunType, jitters[..i + 1], now)
              == Volley(first, gunPos, forward, gun.bulletStats, gun.gunType, jitters[..i], now) + [b];
          VolleyKeepsIdsValid(live0, first,
            Volley(first, gunPos, forward, gun.bulletStats, gun.gunType, jitters[..i + 1], now));
          bullets.live := bullets.live + [b];
          bullets.nextId := bullets.nextId + 1;
        }
        outcome := Fired(n);
      case Gun1 =>
        outcome := Unimplemented;
      case Gun2 =>
        outcome := Unimplemented;
    }
  }

  // ---------------------------------------------------------------- travel

  /** One bullet after one `update_bullets` step: moved by `speed` along its
      unit direction, at height 10. The normalisation is a parameter. */
  function Travel(b: Bullet, unit: Vec3 -> Vec3): Bullet
  {
    var u := unit(b.direction);
    b.(pos := Vec3(b.pos.x + u.x * b.stats.speed, b.pos.y + u.y * b.stats.speed, 10.0))
  }

  datatype TravelOutcome = Moved | TravelUnimplemented

  /** `update_bullets`: moves every `Default` bullet in place; reaching a
      `Gun1` or `Gun2` bullet stops at its `todo!()`, after the bullets
      before it have moved. */
  method UpdateBullets(bullets: BulletSet, unit: Vec3 -> Vec3) returns (outcome: TravelOutcome)
    requires bullets.Valid()
    modifies bullets`live
    ensures bullets.Valid()
    ensures outcome == Moved <==> forall i :: 0 <= i < |old(bullets.live)| ==> old(bullets.live)[i].gunType == Default
    ensures |bullets.live| == |old(bullets.live)|
    ensures outcome == Moved ==>
      forall i :: 0 <= i < |bullets.live| ==> bullets.live[i] == Travel(old(bullets.live)[i], unit)
    ensures outcome == TravelUnimplemented ==>
      exists k :: 0 <= k < |bullets.live| && old(bullets.live)[k].gunType != Default &&
        (forall i :: 0 <= i < k ==> bullets.live[i] == Travel(old(bullets.live)[i], unit)) &&
        (forall i :: k <= i < |bullets.live| ==> bullets.live[i] == old(bullets.live)[i])
  {
    if |bullets.live| == 0 {
      return Moved;
    }
    var bs := bullets.live;
    for i := 0 to |bs|
      invariant |bullets.live| == |bs|
      invariant forall j :: 0 <= j < i ==> bs[j].gunType == Default
      invariant forall j :: 0 <= j < i ==> bullets.live[j] == Travel(bs[j], unit)
      invariant forall j :: i <= j < |bs| ==> bullets.live[j] == bs[j]
    {
      match bs[i].gunType {
        case Default =>
          bullets.live := bullets.live[i := Travel(bs[i], unit)];
        case Gun1 =>
          return TravelUnimplemented;
        case Gun2 =>
          return TravelUnimplemented;
      }
    }
    outcome := Moved;
  }

  // ---------------------------------------------------------------- expiry

  /** `Instant::elapsed` in seconds: never negative. */
  function Age(b: Bullet, now: real): (a: real)
    ensures a >= 0.0
  {
    if now >= b.spawnedAt then now - b.spawnedAt else 0.0
  }

  /** The test of `despawn_old_bullets`: strictly older than the lifespan. */
  predicate Expired(b: Bullet, now: real)
  {
    Age(b, now) > b.stats.lifespan
  }

  /** The bullets that survive expiry, in order. */
  function Unexpired(bs: seq<Bullet>, now: real): seq<Bullet>
  {
    if bs == [] then []
    else
      var last := bs[|bs| - 1];
      Unexpired(bs[..|bs| - 1], now) + (if Expired(last, now) then [] else [last])
  }

  /** A bullet is kept exactly when its age has not passed its lifespan; in
      particular one whose age equals its lifespan is kept. */
  lemma {:induction false} UnexpiredExact(bs: seq<Bullet>, now: real)
    ensures |Unexpired(bs, now)| <= |bs|
    ensures forall b :: b in Unexpired(bs, now) <==> b in bs && Age(b, now) <= b.stats.lifespan
  {
    if bs != [] {
      var init := bs[..|bs| - 1];
      UnexpiredExact(init, now);
      assert bs == init + [bs[|bs| - 1]];
    }
  }

  /** The boundary is strict: a bullet with a 0.2 s lifespan is kept at an
      age of 0.19 s and of exactly 0.2 s, and removed after that. */
  lemma ExpiryBoundary(b: Bullet)
    requires b.stats.lifespan == 0.2 && b.spawnedAt == 0.0
    ensures !Expired(b, 0.19) && !Expired(b, 0.2)
    ensures forall now: real :: now > 0.2 ==> Expired(b, now)
    ensures Unexpired([b], 0.2) == [b] && Unexpired([b], 0.21) == []
  {
    assert Unexpired([b], 0.2) == Unexpired([], 0.2) + [b];
    assert Unexpired([b], 0.21) == Unexpired([], 0.21) + [];
  }

  /** The ids of the bullets the query loop finds expired. */
  function ExpiredIds(bs: seq<Bullet>, now: real): set<nat>
  {
    if bs == [] then {}
    else
      var last := bs[|bs| - 1];
      ExpiredIds(bs[..|bs| - 1], now) + (if Expired(last, now) then {last.id} else {})
  }

  predicate HasId(bs: seq<Bullet>, id: nat)
  {
    exists i :: 0 <= i < |bs| && bs[i].id == id
  }

  /** The bullets whose id is not in `ids`, in order. */
  function RemoveIds(bs: seq<Bullet>, ids: set<nat>): seq<Bullet>
  {
    if bs == [] then []
    else
      var last := bs[|bs| - 1];
      RemoveIds(bs[..|bs| - 1], ids) + (if last.id in ids then [] else [last])
  }

  /** One queued despawn command: the entity goes if it is still there, and
      nothing happens if it is already gone. */
  function Despawn(bs: seq<Bullet>, id: nat): seq<Bullet>
  {
    if HasId(bs, id) then RemoveIds(bs, {id}) else bs
  }

  lemma {:induction false} RemoveIdsAbsent(bs: seq<Bullet>, ids: set<nat>)
    requires forall i :: 0 <= i < |bs| ==> bs[i].id !in ids
    ensures RemoveIds(bs, ids) == bs
  {
    if bs != [] {
      RemoveIdsAbsent(bs[..|bs| - 1], ids);
    }
  }

  lemma {:induction false} RemoveIdsMembers(bs: seq<Bullet>, ids: set<nat>)
    ensures forall i :: 0 <= i < |RemoveIds(bs, ids)| ==>
      RemoveIds(bs, ids)[i].id !in ids && RemoveIds(bs, ids)[i] in bs
  {
    if bs != [] {
      RemoveIdsMembers(bs[..|bs| - 1], ids);
    }
  }

  lemma {:induction false} RemoveIdsTwice(bs: seq<Bullet>, a: set<nat>, b: set<nat>)
    ensures RemoveIds(RemoveIds(bs, a), b) == RemoveIds(bs, a + b)
  {
    if bs != [] {
      var init := bs[..|bs| - 1];
      var last := bs[|bs| - 1];
      RemoveIdsTwice(init, a, b);
      var r := RemoveIds(init, a);
      if last.id in a {
        assert RemoveIds(bs, a) == r;
        assert RemoveIds(bs, a + b) == RemoveIds(init, a + b);
      } else {
        assert RemoveIds(bs, a) == r + [last];
        assert (r + [last])[..|r + [last]| - 1] == r;
        assert RemoveIds(r + [last], b) == RemoveIds(r, b) + (if last.id in b then [] else [last]);
        assert RemoveIds(bs, a + b) == RemoveIds(init, a + b) + (if last.id in a + b then [] else [last]);
      }
    }
  }

  /** Despawning an entity is removing its id, whether or not it is present. */
  lemma DespawnRemovesId(bs: seq<Bullet>, id: nat)
    ensures Despawn(bs, id) == RemoveIds(bs, {id})
  {
    if !HasId(bs, id) {
      RemoveIdsAbsent(bs, {id});
    }
  }

  /** The guard makes despawning idempotent: a second despawn of the same
      entity removes nothing more. */
  lemma DespawnIdempotent(bs: seq<Bullet>, id: nat)
    ensures Despawn(Despawn(bs, id), id) == Despawn(bs, id)
    ensures !HasId(Despawn(bs, id), id)
  {
    DespawnRemovesId(bs, id);
    RemoveIdsMembers(bs, {id});
    var r := RemoveIds(bs, {id});
    assert !HasId(r, id);
  }

  lemma {:induction false} ExpiredIdsAreIds(bs: seq<Bullet>, now: real, x: nat)
    requires x in ExpiredIds(bs, now)
    ensures HasId(bs, x)
  {
    var init := bs[..|bs| - 1];
    if x in ExpiredIds(init, now) {
      ExpiredIdsAreIds(init, now, x);
      var i :| 0 <= i < |init| && init[i].id == x;
      assert bs[i].id == x;
    } else {
      assert bs[|bs| - 1].id == x;
    }
  }

  lemma {:induction false} RemoveIdsIgnoresForeign(bs: seq<Bullet>, ids: set<nat>, x: nat)
    requires !HasId(bs, x)
    ensures RemoveIds(bs, ids + {x}) == RemoveIds(bs, ids)
  {
    if bs != [] {
      RemoveIdsIgnoresForeign(bs[..|bs| - 1], ids, x);
    }
  }

  /** With distinct ids, removing the ids of the expired bullets leaves
      exactly the unexpired ones. */
  lemma {:induction false} RemoveExpiredIds(bs: seq<Bullet>, now: real)
    requires DistinctIds(bs)
    ensures RemoveIds(bs, ExpiredIds(bs, now)) == Unexpired(bs, now)
  {
    if bs != [] {
      var init := bs[..|bs| - 1];
      var last := bs[|bs| - 1];
      RemoveExpiredIds(init, now);
      forall i | 0 <= i < |init| ensures init[i].id != last.id {
        assert init[i] == bs[i];
      }
      var e := ExpiredIds(init, now);
      assert last.id !in e by {
        if last.id in e {
          ExpiredIdsAreIds(init, now, last.id);
        }
      }
      if Expired(last, now) {
        assert ExpiredIds(bs, now) == e + {last.id};
        assert RemoveIds(bs, e + {last.id}) == RemoveIds(init, e + {last.id});
        RemoveIdsIgnoresForeign(init, e, last.id);
      } else {
        assert ExpiredIds(bs, now) == e;
        assert RemoveIds(bs, e) == RemoveIds(init, e) + [last];
      }
    }
  }

  lemma DistinctSnoc(u: seq<Bullet>, b: Bullet)
    requires DistinctIds(u)
    requires forall i :: 0 <= i < |u| ==> u[i].id != b.id
    ensures DistinctIds(u + [b])
  {
  }

  lemma {:induction false} UnexpiredWithin(bs: seq<Bullet>, now: real)
    ensures forall i :: 0 <= i < |Unexpired(bs, now)| ==> Unexpired(bs, now)[i] in bs
  {
    if bs != [] {
      UnexpiredWithin(bs[..|bs| - 1], now);
      assert forall x :: x in bs[..|bs| - 1] ==> x in bs;
    }
  }

  lemma {:induction false} UnexpiredKeepsIdsValid(bs: seq<Bullet>, now: real, bound: nat)
    requires DistinctIds(bs) && IdsBelow(bs, bound)
    ensures DistinctIds(Unexpired(bs, now)) && IdsBelow(Unexpired(bs, now), bound)
  {
    if bs != [] {
      var init := bs[..|bs| - 1];
      var last := bs[|bs| - 1];
      assert DistinctIds(init) && IdsBelow(init, bound);
      UnexpiredKeepsIdsValid(init, now, bound);
      UnexpiredWithin(init, now);
      var u := Unexpired(init, now);
      forall i | 0 <= i < |u| ensures u[i].id != last.id {
        var j :| 0 <= j < |init| && init[j] == u[i];
        assert bs[j] == init[j];
      }
      if !Expired(last, now) {
        DistinctSnoc(u, last);
      }
    }
  }

  function ToSet(q: seq<nat>): set<nat>
  {
    set x | x in q
  }

  lemma ToSetAppend(q: seq<nat>, y: nat)
    ensures ToSet(q + [y]) == ToSet(q) + {y}
  {
  }

  /** The query loop of `despawn_old_bullets`: the ids of the bullets
      strictly older than their lifespan, in iteration order. */
  method QueueExpired(bs: seq<Bullet>, now: real) returns (queued: seq<nat>)
    ensures ToSet(queued) == ExpiredIds(bs, now)
  {
    queued := [];
    for i := 0 to |bs|
      invariant ToSet(queued) == ExpiredIds(bs[..i], now)
    {
      assert bs[..i + 1][..i] == bs[..i];
      if Age(bs[i], now) > bs[i].stats.lifespan {
        ToSetAppend(queued, bs[i].id);
        queued := queued + [bs[i].id];
      }
    }
    assert bs[..|bs|] == bs;
  }

  /** `despawn_old_bullets`: the query loop queues a despawn for every bullet
      strictly older than its lifespan; the queued commands then remove each
      entity that is still present. */
  method DespawnOldBullets(bullets: BulletSet, now: real)
    requires bullets.Valid()
    modifies bullets`live
    ensures bullets.Valid()
    ensures bullets.live == Unexpired(old(bullets.live), now)
  {
    var bs := bullets.live;
    var queued := QueueExpired(bs, now);
    RemoveIdsAbsent(bs, {});
    assert ToSet(queued[..0]) == {};
    for k := 0 to |queued|
      invariant bullets.live == RemoveIds(bs, ToSet(queued[..k]))
    {
      DespawnRemovesId(bullets.live, queued[k]);
      RemoveIdsTwice(bs, ToSet(queued[..k]), {queued[k]});
      assert queued[..k + 1] == queued[..k] + [queued[k]];
      ToSetAppend(queued[..k], queued[k]);
      bullets.live := Despawn(bullets.live, queued[k]);
    }
    assert queued[..|queued|] == queued;
    RemoveExpiredIds(bs, now);
    UnexpiredKeepsIdsValid(bs, now, bullets.nextId);
  }
}
