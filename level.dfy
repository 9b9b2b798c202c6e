/** The level's per-frame rules: every enemy drifts, bounces at the patrol
    edge, jumps or shoots when its cooldown has run out, falls under gravity
    and is held on its platform; then every player projectile is tested
    against every enemy, and each hit spawns an explosion and hits the enemy. */
module Level {
  import opened Geometry
  import opened Wrappers
  import opened EnemySprite

  /** A shot. `createdAt` and `id` are millisecond clock readings. */
  datatype Projectile = Projectile(id: int, position: Vec3, direction: real, isEnemy: bool, createdAt: int)

  /** An enemy; `kind` is the source's `type` field. Times are in seconds. */
  datatype Enemy = Enemy(
    id: int,
    position: Vec3,
    direction: real,
    kind: EnemyType,
    jumpCooldown: real,
    shootCooldown: real,
    lastJumpTime: real,
    lastShootTime: real,
    health: int)

  /** An explosion waiting for its effect to complete. */
  datatype Explosion = Explosion(id: int, position: Vec3)

  const Gravity: real := 9.8
  const MoveSpeed: real := 2.0
  const JumpForce: real := 5.0
  /** Enemies turn round once they are more than this far from the centre. */
  const PatrolEdge: real := 7.0
  /** Gravity acts only above this height. */
  const AirborneAbove: real := 0.5
  /** A projectile hits an enemy closer than 0.8, i.e. at squared distance
      below 0.64. */
  const HitRadius: real := 0.8
  const HitRadiusSquared: real := 0.64

  /** The frame's clock in seconds, from the millisecond reading. */
  function Seconds(now: int): real {
    now as real / 1000.0
  }

  /** The height each archetype's platform holds it at. */
  function Floor(kind: EnemyType): real {
    match kind
    case Walker => 1.0
    case Jumper => 4.5
    case Shooter => 6.5
  }

  predicate BeyondPatrolEdge(x: real) {
    x > PatrolEdge || x < -PatrolEdge
  }

  /** A jumper whose positive cooldown has run out. */
  predicate JumpDue(e: Enemy, currentTime: real) {
    e.kind == Jumper && e.jumpCooldown > 0.0 && currentTime - e.lastJumpTime > e.jumpCooldown
  }

  /** A shooter whose positive cooldown has run out. */
  predicate ShotDue(e: Enemy, currentTime: real) {
    e.kind == Shooter && e.shootCooldown > 0.0 && currentTime - e.lastShootTime > e.shootCooldown
  }

  /** The fields the enemy step never touches. */
  predicate SameIdentity(a: Enemy, b: Enemy) {
    a.id == b.id && a.kind == b.kind && a.jumpCooldown == b.jumpCooldown
    && a.shootCooldown == b.shootCooldown && a.health == b.health
  }

  /** The enemy projectile fired by `e`; `now` is the millisecond clock. */
  function CreateProjectile(e: Enemy, now: int): Projectile {
    Projectile(now, Vec3(e.position.x, e.position.y, e.position.z), e.direction, true, now)
  }

  datatype EnemyStep = EnemyStep(enemy: Enemy, shot: Option<Projectile>)

  /** One enemy's frame: `currentTime` in seconds, `delta` the frame time,
      `now` the millisecond clock used for a fired projectile. */
  function StepEnemy(e: Enemy, currentTime: real, delta: real, now: int): (r: EnemyStep)
    ensures SameIdentity(r.enemy, e)
    ensures r.enemy.position.x == e.position.x + e.direction * MoveSpeed * delta
    ensures r.enemy.position.z == e.position.z
    ensures r.enemy.direction == if BeyondPatrolEdge(r.enemy.position.x) then -e.direction else e.direction
    ensures r.enemy.lastJumpTime == if JumpDue(e, currentTime) then currentTime else e.lastJumpTime
    ensures r.enemy.lastShootTime == if ShotDue(e, currentTime) then currentTime else e.lastShootTime
    // the platform holds every enemy at or above its floor
    ensures r.enemy.position.y >= Floor(e.kind)
    // an enemy resting on its floor stays there: the jump impulse is weaker than gravity
    ensures delta >= 0.0 && e.position.y == Floor(e.kind) ==> r.enemy.position.y == Floor(e.kind)
    // the jump impulse, then gravity above 0.5, then the clamp to the floor
    ensures var y1 := if JumpDue(e, currentTime) then e.position.y + JumpForce * delta else e.position.y;
            var y2 := if y1 > AirborneAbove then y1 - Gravity * delta else y1;
            r.enemy.position.y == if y2 < Floor(e.kind) then Floor(e.kind) else y2
    // at most one shot, fired from the position and direction before the step
    ensures r.shot.Some? <==> ShotDue(e, currentTime)
    ensures r.shot.Some? ==> r.shot.value == CreateProjectile(e, now)
  {
    var x := e.position.x + e.direction * MoveSpeed * delta;
    var direction := if x > PatrolEdge || x < -PatrolEdge then -e.direction else e.direction;
    var jump := JumpDue(e, currentTime);
    var y1 := if jump then e.position.y + JumpForce * delta else e.position.y;
    var lastJumpTime := if jump then currentTime else e.lastJumpTime;
    var y2 := if y1 > AirborneAbove then y1 - Gravity * delta else y1;
    var y3 :=
      if e.kind == Walker && y2 < 1.0 then 1.0
      else if e.kind == Jumper && y2 < 4.5 then 4.5
      else if e.kind == Shooter && y2 < 6.5 then 6.5
      else y2;
    var shoot := ShotDue(e, currentTime);
    var shot := if shoot then Some(CreateProjectile(e, now)) else None;
    var lastShootTime := if shoot then currentTime else e.lastShootTime;
    EnemyStep(
      e.(position := Vec3(x, y3, e.position.z), direction := direction,
         lastJumpTime := lastJumpTime, lastShootTime := lastShootTime),
      shot)
  }

  datatype LevelStep = LevelStep(enemies: seq<Enemy>, shots: seq<Projectile>)

  /** The `enemies.map(...)` pass: every enemy stepped against the same
      clock, with the projectiles handed out in enemy order. */
  function StepAll(es: seq<Enemy>, currentTime: real, delta: real, now: int): (r: LevelStep)
    ensures |r.enemies| == |es|
    ensures |r.shots| <= |es|
  {
    if es == [] then LevelStep([], [])
    else
      var head := StepEnemy(es[0], currentTime, delta, now);
      var tail := StepAll(es[1..], currentTime, delta, now);
      LevelStep([head.enemy] + tail.enemies, OptionToSeq(head.shot) + tail.shots)
  }

  /** Enemy i of the result is enemy i stepped; a projectile is in the
      result exactly when it is the one fired by a shooter whose cooldown
      ran out. */
  lemma {:induction false} StepAllPointwise(es: seq<Enemy>, currentTime: real, delta: real, now: int)
    ensures var r := StepAll(es, currentTime, delta, now);
      && (forall i :: 0 <= i < |es| ==> r.enemies[i] == StepEnemy(es[i], currentTime, delta, now).enemy)
      && (forall p :: p in r.shots ==>
            exists i :: 0 <= i < |es| && ShotDue(es[i], currentTime) && p == CreateProjectile(es[i], now))
      && (forall i :: 0 <= i < |es| && ShotDue(es[i], currentTime) ==> CreateProjectile(es[i], now) in r.shots)
  {
    if es != [] {
      StepAllPointwise(es[1..], currentTime, delta, now);
      assert forall i :: 1 <= i < |es| ==> es[i] == es[1..][i - 1];
    }
  }

  /** A single enemy: its stepped self, and its projectile exactly when
      its shot is due. */
  lemma StepAllSingleton(e: Enemy, currentTime: real, delta: real, now: int)
    ensures var r := StepAll([e], currentTime, delta, now);
      && r.enemies == [StepEnemy(e, currentTime, delta, now).enemy]
      && r.shots == if ShotDue(e, currentTime) then [CreateProjectile(e, now)] else []
  {
    assert [e][1..] == [];
  }

  /** The step distributes over concatenation: the enemies of `a + b` are
      those of `a` then those of `b`, and so are the shots. One shot per due
      shooter, in enemy order, however equal two shots are. */
  lemma {:induction false} StepAllSplits(a: seq<Enemy>, b: seq<Enemy>, currentTime: real, delta: real, now: int)
    ensures var ra, rb, r := StepAll(a, currentTime, delta, now), StepAll(b, currentTime, delta, now),
                             StepAll(a + b, currentTime, delta, now);
      && r.enemies == ra.enemies + rb.enemies
      && r.shots == ra.shots + rb.shots
  {
    if a == [] {
      assert a + b == b;
    } else {
      assert (a + b)[0] == a[0];
      assert (a + b)[1..] == a[1..] + b;
      StepAllSplits(a[1..], b, currentTime, delta, now);
      var head := StepEnemy(a[0], currentTime, delta, now);
      var ta, tb := StepAll(a[1..], currentTime, delta, now), StepAll(b, currentTime, delta, now);
      assert [head.enemy] + (ta.enemies + tb.enemies) == ([head.enemy] + ta.enemies) + tb.enemies;
      assert OptionToSeq(head.shot) + (ta.shots + tb.shots) == (OptionToSeq(head.shot) + ta.shots) + tb.shots;
    }
  }

  /** The number of enemies whose shot is due this frame. */
  function DueCount(es: seq<Enemy>, currentTime: real): nat {
    if es == [] then 0
    else (if ShotDue(es[0], currentTime) then 1 else 0) + DueCount(es[1..], currentTime)
  }

  /** Exactly one shot per due shooter. */
  lemma {:induction false} ShotCountIsDueCount(es: seq<Enemy>, currentTime: real, delta: real, now: int)
    ensures |StepAll(es, currentTime, delta, now).shots| == DueCount(es, currentTime)
  {
    if es != [] {
      ShotCountIsDueCount(es[1..], currentTime, delta, now);
    }
  }

  /** The step keeps the roster: same length, same order, and each enemy
      keeps its id, type, cooldowns and health; every enemy ends on or
      above its floor. */
  lemma StepAllKeepsRoster(es: seq<Enemy>, currentTime: real, delta: real, now: int)
    ensures var r := StepAll(es, currentTime, delta, now).enemies;
            && |r| == |es|
            && forall i :: 0 <= i < |es| ==> SameIdentity(r[i], es[i]) && r[i].position.y >= Floor(es[i].kind)
  {
    StepAllPointwise(es, currentTime, delta, now);
  }

  /** A shot copies the enemy as it was before this frame's step and is
      marked as an enemy shot. */
  lemma ShotsCopyPreStepEnemy(es: seq<Enemy>, currentTime: real, delta: real, now: int, p: Projectile)
    requires p in StepAll(es, currentTime, delta, now).shots
    ensures p.isEnemy && p.createdAt == now
    ensures exists i :: 0 <= i < |es| && es[i].kind == Shooter
                        && p.position == es[i].position && p.direction == es[i].direction
  {
    StepAllPointwise(es, currentTime, delta, now);
  }

  /** A registered collision: the id passed to `handleEnemyHit` and the
      position the explosion is shown at. */
  datatype Hit = Hit(enemyId: int, position: Vec3)

  predicate Collides(p: Projectile, e: Enemy) {
    DistanceSquared(p.position, e.position) < HitRadiusSquared
  }

  /** The hit on `e`, identified by id and located at its position. */
  function HitOn(e: Enemy): Hit {
    Hit(e.id, e.position)
  }

  /** The hits of one projectile, in enemy order. */
  function HitsOf(p: Projectile, es: seq<Enemy>): seq<Hit> {
    if es == [] then []
    else
      var e := es[|es| - 1];
      HitsOf(p, es[..|es| - 1]) + if Collides(p, e) then [HitOn(e)] else []
  }

  /** The hits of all projectiles, projectile by projectile: the order in
      which the nested loops register them. */
  function Hits(ps: seq<Projectile>, es: seq<Enemy>): seq<Hit> {
    if ps == [] then [] else Hits(ps[..|ps| - 1], es) + HitsOf(ps[|ps| - 1], es)
  }

  lemma {:induction false} HitsOfMembership(p: Projectile, es: seq<Enemy>, h: Hit)
    ensures h in HitsOf(p, es) <==> exists j :: 0 <= j < |es| && Collides(p, es[j]) && h == HitOn(es[j])
  {
    if es != [] {
      var init := es[..|es| - 1];
      HitsOfMembership(p, init, h);
      assert forall j :: 0 <= j < |init| ==> init[j] == es[j];
    }
  }

  /** Every colliding (projectile, enemy) pair gives a hit, and every hit
      comes from such a pair. */
  lemma {:induction false} HitsMembership(ps: seq<Projectile>, es: seq<Enemy>, h: Hit)
    ensures h in Hits(ps, es) <==>
      exists i, j :: 0 <= i < |ps| && 0 <= j < |es| && Collides(ps[i], es[j]) && h == HitOn(es[j])
  {
    if ps != [] {
      var init := ps[..|ps| - 1];
      HitsMembership(init, es, h);
      HitsOfMembership(ps[|ps| - 1], es, h);
      assert forall i :: 0 <= i < |init| ==> init[i] == ps[i];
      if h in Hits(ps, es) && h !in Hits(init, es) {
        var j :| 0 <= j < |es| && Collides(ps[|ps| - 1], es[j]) && h == HitOn(es[j]);
        assert Collides(ps[|ps| - 1], es[j]);
      }
    }
  }

  /** The projectiles that collide with `e`. */
  function CollidingWith(ps: seq<Projectile>, e: Enemy): seq<Projectile> {
    if ps == [] then []
    else CollidingWith(ps[..|ps| - 1], e) + if Collides(ps[|ps| - 1], e) then [ps[|ps| - 1]] else []
  }

  /** The hits that name enemy `id`, in order. */
  function HitsNaming(hs: seq<Hit>, id: int): seq<Hit> {
    if hs == [] then []
    else HitsNaming(hs[..|hs| - 1], id) + if hs[|hs| - 1].enemyId == id then [hs[|hs| - 1]] else []
  }

  lemma {:induction false} HitsNamingDistributes(a: seq<Hit>, b: seq<Hit>, id: int)
    ensures HitsNaming(a + b, id) == HitsNaming(a, id) + HitsNaming(b, id)
  {
    if b != [] {
      var b' := b[..|b| - 1];
      HitsNamingDistributes(a, b', id);
      assert (a + b)[..|a + b| - 1] == a + b';
      assert (a + b)[|a + b| - 1] == b[|b| - 1];
    } else {
      assert a + b == a;
    }
  }

  /** A projectile's hits name no enemy that is absent from the roster. */
  lemma {:induction false} HitsOfNamingAbsent(p: Projectile, es: seq<Enemy>, id: int)
    requires forall k :: 0 <= k < |es| ==> es[k].id != id
    ensures HitsNaming(HitsOf(p, es), id) == []
  {
    if es != [] {
      var init := es[..|es| - 1];
      assert forall k :: 0 <= k < |init| ==> init[k] == es[k];
      HitsOfNamingAbsent(p, init, id);
      HitsNamingDistributes(HitsOf(p, init), if Collides(p, es[|es| - 1]) then [HitOn(es[|es| - 1])] else [], id);
    }
  }

  /** With distinct ids, one projectile hits enemy j once if it collides
      with it and not at all otherwise. */
  lemma {:induction false} HitsOfNamingOne(p: Projectile, es: seq<Enemy>, j: int)
    requires UniqueIds(es) && 0 <= j < |es|
    ensures HitsNaming(HitsOf(p, es), es[j].id) == if Collides(p, es[j]) then [HitOn(es[j])] else []
  {
    var init, last := es[..|es| - 1], es[|es| - 1];
    var tail := if Collides(p, last) then [HitOn(last)] else [];
    assert HitsOf(p, es) == HitsOf(p, init) + tail;
    HitsNamingDistributes(HitsOf(p, init), tail, es[j].id);
    assert forall k :: 0 <= k < |init| ==> init[k] == es[k];
    if j == |es| - 1 {
      HitsOfNamingAbsent(p, init, es[j].id);
    } else {
      assert UniqueIds(init);
      HitsOfNamingOne(p, init, j);
      assert last.id != es[j].id;
      assert HitsNaming(tail, es[j].id) == [];
    }
  }

  /** No deduplication: with distinct ids, enemy j of any roster gets one
      hit per projectile that collides with it, each at its position. */
  lemma {:induction false} OneHitPerCollidingProjectile(ps: seq<Projectile>, es: seq<Enemy>, j: int)
    requires UniqueIds(es) && 0 <= j < |es|
    ensures |HitsNaming(Hits(ps, es), es[j].id)| == |CollidingWith(ps, es[j])|
    ensures forall h :: h in HitsNaming(Hits(ps, es), es[j].id) ==> h == HitOn(es[j])
  {
    if ps != [] {
      var init, p := ps[..|ps| - 1], ps[|ps| - 1];
      OneHitPerCollidingProjectile(init, es, j);
      HitsNamingDistributes(Hits(init, es), HitsOf(p, es), es[j].id);
      HitsOfNamingOne(p, es, j);
    }
  }

  datatype HitOutcome = HitOutcome(enemies: seq<Enemy>, defeated: seq<int>)

  /** `handleEnemyHit`: every enemy with the id loses one health point if it
      has more than one; otherwise it is left as it is and its defeat is
      signalled. Every other enemy is untouched. */
  function HandleEnemyHit(es: seq<Enemy>, id: int): (r: HitOutcome)
    ensures |r.enemies| == |es|
  {
    if es == [] then HitOutcome([], [])
    else
      var e := es[0];
      var rest := HandleEnemyHit(es[1..], id);
      if e.id == id then
        var newHealth := e.health - 1;
        if newHealth <= 0 then HitOutcome([e] + rest.enemies, [id] + rest.defeated)
        else HitOutcome([e.(health := newHealth)] + rest.enemies, rest.defeated)
      else HitOutcome([e] + rest.enemies, rest.defeated)
  }

  /** Enemy by enemy: the id decides whether it is touched, its health
      whether it loses a point or is reported defeated; the defeat list holds
      only that id, and it is non-empty exactly when an enemy with the id was
      on its last point. */
  lemma {:induction false} HandleEnemyHitEffect(es: seq<Enemy>, id: int)
    ensures var r := HandleEnemyHit(es, id);
      && (forall i :: 0 <= i < |es| && es[i].id != id ==> r.enemies[i] == es[i])
      && (forall i :: 0 <= i < |es| && es[i].id == id && es[i].health - 1 > 0 ==>
            r.enemies[i] == es[i].(health := es[i].health - 1))
      && (forall i :: 0 <= i < |es| && es[i].id == id && es[i].health - 1 <= 0 ==> r.enemies[i] == es[i])
      && (forall d :: d in r.defeated ==> d == id)
      && |r.defeated| <= |es|
      && (r.defeated != [] <==> exists i :: 0 <= i < |es| && es[i].id == id && es[i].health - 1 <= 0)
  {
    if es != [] {
      HandleEnemyHitEffect(es[1..], id);
      assert forall i :: 1 <= i < |es| ==> es[i] == es[1..][i - 1];
    }
  }

  predicate UniqueIds(es: seq<Enemy>) {
    forall i, j :: 0 <= i < j < |es| ==> es[i].id != es[j].id
  }

  /** With distinct ids a hit signals defeat at most once, and exactly when
      the enemy with that id is on its last health point (or below). */
  lemma {:induction false} DefeatSignalledOnce(es: seq<Enemy>, id: int)
    requires UniqueIds(es)
    ensures |HandleEnemyHit(es, id).defeated| <= 1
    ensures |HandleEnemyHit(es, id).defeated| == 1 <==>
      exists i :: 0 <= i < |es| && es[i].id == id && es[i].health - 1 <= 0
  {
    HandleEnemyHitEffect(es, id);
    if es != [] {
      var tail := es[1..];
      assert UniqueIds(tail) by {
        forall i, j | 0 <= i < j < |tail| ensures tail[i].id != tail[j].id {
          assert tail[i] == es[i + 1] && tail[j] == es[j + 1];
        }
      }
      DefeatSignalledOnce(tail, id);
      HandleEnemyHitEffect(tail, id);
      if es[0].id == id {
        assert forall i :: 0 <= i < |tail| ==> tail[i] == es[i + 1];
        assert HandleEnemyHit(tail, id).defeated == [];
      }
    }
  }

  /** The hits applied one after another, in order, to the stepped enemies
      (each `handleEnemyHit` updates the latest list). */
  function ApplyHits(es: seq<Enemy>, hits: seq<Hit>): HitOutcome {
    if hits == [] then HitOutcome(es, [])
    else
      var before := ApplyHits(es, hits[..|hits| - 1]);
      var o := HandleEnemyHit(before.enemies, hits[|hits| - 1].enemyId);
      HitOutcome(o.enemies, before.defeated + o.defeated)
  }

  /** Hits change nothing but health; health never rises, never falls below
      one when it started at one or more, and an enemy whose id no hit names
      is untouched. So a hit enemy is never removed or brought to zero here. */
  lemma {:induction false} ApplyHitsOnlyLowersHealth(es: seq<Enemy>, hits: seq<Hit>)
    ensures var r := ApplyHits(es, hits).enemies;
      && |r| == |es|
      && (forall i :: 0 <= i < |es| ==> r[i] == es[i].(health := r[i].health) && r[i].health <= es[i].health)
      && (forall i :: 0 <= i < |es| && es[i].health >= 1 ==> r[i].health >= 1)
      && (forall i :: 0 <= i < |es| && (forall h :: h in hits ==> h.enemyId != es[i].id) ==> r[i] == es[i])
  {
    if hits != [] {
      var init := hits[..|hits| - 1];
      ApplyHitsOnlyLowersHealth(es, init);
      HandleEnemyHitEffect(ApplyHits(es, init).enemies, hits[|hits| - 1].enemyId);
      assert forall h :: h in init ==> h in hits;
    }
  }

  /** The health of an enemy that started at `h` after `k` hits: one point
      per hit while more than one is left, and never below the last point
      (an enemy at one point or less keeps its health). */
  function HealthAfter(h: int, k: nat): int {
    if h - k >= 1 then h - k else if h >= 1 then 1 else h
  }

  /** The defeats signalled for an enemy that started at `h` over `k` hits:
      one for every hit that finds it on its last point. */
  function DefeatsAfter(h: int, k: nat): nat {
    if h <= 1 then k else if k >= h then k - (h - 1) else 0
  }

  /** How often `id` occurs among the defeats. */
  function DefeatCount(ds: seq<int>, id: int): nat {
    multiset(ds)[id]
  }

  /** Every enemy's health after any hits is `HealthAfter` of its health and
      the number of hits naming its id: every hit counts, none is deduplicated. */
  lemma {:induction false} ApplyHitsHealth(es: seq<Enemy>, hits: seq<Hit>, i: int)
    requires 0 <= i < |es|
    ensures var r := ApplyHits(es, hits).enemies;
      |r| == |es| && r[i].health == HealthAfter(es[i].health, |HitsNaming(hits, es[i].id)|)
  {
    ApplyHitsOnlyLowersHealth(es, hits);
    if hits != [] {
      var init, last := hits[..|hits| - 1], hits[|hits| - 1];
      ApplyHitsHealth(es, init, i);
      ApplyHitsOnlyLowersHealth(es, init);
      var before := ApplyHits(es, init).enemies;
      HandleEnemyHitEffect(before, last.enemyId);
      assert before[i].id == es[i].id;
    }
  }

  /** With distinct ids, one hit signals enemy i's defeat once if it names
      it while it is on its last point, and not otherwise. */
  lemma HandleEnemyHitDefeats(es: seq<Enemy>, id: int, i: int)
    requires UniqueIds(es) && 0 <= i < |es|
    ensures DefeatCount(HandleEnemyHit(es, id).defeated, es[i].id)
            == if id == es[i].id && es[i].health - 1 <= 0 then 1 else 0
  {
    var o := HandleEnemyHit(es, id);
    HandleEnemyHitEffect(es, id);
    DefeatSignalledOnce(es, id);
    if id == es[i].id {
      if es[i].health - 1 <= 0 {
        assert |o.defeated| == 1 && o.defeated[0] in o.defeated;
        assert o.defeated[0] == id;
        assert o.defeated == [o.defeated[0]];
      } else {
        assert forall j :: 0 <= j < |es| && es[j].id == id ==> j == i;
        assert o.defeated == [];
      }
    } else {
      assert es[i].id !in o.defeated;
    }
  }

  /** Ids survive any hits. */
  lemma ApplyHitsKeepsIds(es: seq<Enemy>, hits: seq<Hit>)
    requires UniqueIds(es)
    ensures var r := ApplyHits(es, hits).enemies;
      |r| == |es| && UniqueIds(r) && forall i :: 0 <= i < |es| ==> r[i].id == es[i].id
  {
    ApplyHitsOnlyLowersHealth(es, hits);
  }

  /** With distinct ids, the defeats signalled for an enemy over any hits are
      `DefeatsAfter` of its health and the number of hits naming it: once it
      is on its last point, every further hit signals it again. */
  lemma {:induction false} ApplyHitsDefeats(es: seq<Enemy>, hits: seq<Hit>, i: int)
    requires UniqueIds(es) && 0 <= i < |es|
    ensures DefeatCount(ApplyHits(es, hits).defeated, es[i].id) == DefeatsAfter(es[i].health, |HitsNaming(hits, es[i].id)|)
  {
    if hits != [] {
      var init, last := hits[..|hits| - 1], hits[|hits| - 1];
      var id := es[i].id;
      ApplyHitsDefeats(es, init, i);
      ApplyHitsHealth(es, init, i);
      ApplyHitsKeepsIds(es, init);
      var prior := ApplyHits(es, init);
      var o := HandleEnemyHit(prior.enemies, last.enemyId);
      HandleEnemyHitDefeats(prior.enemies, last.enemyId, i);
      assert ApplyHits(es, hits).defeated == prior.defeated + o.defeated;
      assert multiset(prior.defeated + o.defeated) == multiset(prior.defeated) + multiset(o.defeated);
      assert DefeatCount(prior.defeated + o.defeated, id) == DefeatCount(prior.defeated, id) + DefeatCount(o.defeated, id);
    }
  }

  /** The explosions spawned by the hits, in order; all carry the frame's
      millisecond clock as id. */
  function ExplosionsFor(hits: seq<Hit>, now: int): (r: seq<Explosion>)
    ensures |r| == |hits|
    ensures forall k :: 0 <= k < |hits| ==> r[k] == Explosion(now, hits[k].position)
  {
    if hits == [] then []
    else ExplosionsFor(hits[..|hits| - 1], now) + [Explosion(now, hits[|hits| - 1].position)]
  }

  /** `handleExplosionComplete`: drop every explosion with the id, keep the
      others in order. */
  function RemoveExplosions(xs: seq<Explosion>, id: int): (r: seq<Explosion>)
    ensures |r| <= |xs|
    ensures forall x :: x in r <==> x in xs && x.id != id
  {
    if xs == [] then []
    else if xs[0].id == id then RemoveExplosions(xs[1..], id)
    else [xs[0]] + RemoveExplosions(xs[1..], id)
  }

  /** Removal keeps order: removing from a concatenation removes from each
      part. */
  lemma {:induction false} RemoveExplosionsDistributes(a: seq<Explosion>, b: seq<Explosion>, id: int)
    ensures RemoveExplosions(a + b, id) == RemoveExplosions(a, id) + RemoveExplosions(b, id)
  {
    if a != [] {
      assert (a + b)[1..] == a[1..] + b;
      RemoveExplosionsDistributes(a[1..], b, id);
    } else {
      assert a + b == b;
    }
  }

  /** Removing an id that is not there changes nothing, so removing twice
      is removing once. */
  lemma {:induction false} RemoveExplosionsIdempotent(xs: seq<Explosion>, id: int)
    ensures RemoveExplosions(xs, id) == xs <==> forall x :: x in xs ==> x.id != id
    ensures RemoveExplosions(RemoveExplosions(xs, id), id) == RemoveExplosions(xs, id)
  {
    if xs != [] {
      RemoveExplosionsIdempotent(xs[1..], id);
      if xs[0].id == id {
        assert xs[0] in xs;
        assert |RemoveExplosions(xs, id)| <= |xs[1..]| < |xs|;
      } else {
        assert forall x :: x in xs <==> x == xs[0] || x in xs[1..];
      }
    }
  }

  /** `distanceTo(...) < 0.8`: for the true (non-negative) distance `d`
      between the projectile and the enemy, the squared test is the same
      comparison. */
  lemma CollidesIffWithinRadius(p: Projectile, e: Enemy, d: real)
    requires d >= 0.0 && d * d == DistanceSquared(p.position, e.position)
    ensures Collides(p, e) <==> d < HitRadius
  {
    SquaredComparison(d, HitRadius);
  }

  /** A whole frame keeps the roster: no enemy is added, removed or
      reordered, ids, types and cooldowns are kept, every enemy is on or
      above its floor, health never rises and never drops below one from
      one or more, and an enemy no hit names keeps its health. */
  lemma FrameKeepsRoster(enemies: seq<Enemy>, playerProjectiles: seq<Projectile>,
                         currentTime: real, delta: real, now: int)
    ensures var step := StepAll(enemies, currentTime, delta, now);
            var hits := Hits(playerProjectiles, enemies);
            var r := ApplyHits(step.enemies, hits).enemies;
      && |r| == |enemies|
      && (forall i :: 0 <= i < |enemies| ==>
            && r[i].id == enemies[i].id && r[i].kind == enemies[i].kind
            && r[i].jumpCooldown == enemies[i].jumpCooldown && r[i].shootCooldown == enemies[i].shootCooldown
            && r[i].position.y >= Floor(enemies[i].kind)
            && r[i].health <= enemies[i].health
            && (enemies[i].health >= 1 ==> r[i].health >= 1))
      && (forall i :: 0 <= i < |enemies| && (forall h :: h in hits ==> h.enemyId != enemies[i].id) ==>
            r[i].health == enemies[i].health)
      && (forall i :: 0 <= i < |enemies| ==>
            r[i].health == HealthAfter(enemies[i].health, |HitsNaming(hits, enemies[i].id)|))
  {
    var step := StepAll(enemies, currentTime, delta, now);
    var hits := Hits(playerProjectiles, enemies);
    StepAllKeepsRoster(enemies, currentTime, delta, now);
    ApplyHitsOnlyLowersHealth(step.enemies, hits);
    forall i | 0 <= i < |enemies|
      ensures ApplyHits(step.enemies, hits).enemies[i].health
              == HealthAfter(enemies[i].health, |HitsNaming(hits, enemies[i].id)|)
    {
      ApplyHitsHealth(step.enemies, hits, i);
    }
  }

  /** With distinct ids, each enemy ends the frame at `HealthAfter` of its
      health and the number of player projectiles within range of it before
      the step, and its defeat is signalled `DefeatsAfter` as many times. */
  lemma FrameHitOutcome(enemies: seq<Enemy>, playerProjectiles: seq<Projectile>,
                        currentTime: real, delta: real, now: int, j: int)
    requires UniqueIds(enemies) && 0 <= j < |enemies|
    ensures var step := StepAll(enemies, currentTime, delta, now);
            var o := ApplyHits(step.enemies, Hits(playerProjectiles, enemies));
            var k := |CollidingWith(playerProjectiles, enemies[j])|;
      && |o.enemies| == |enemies|
      && o.enemies[j].health == HealthAfter(enemies[j].health, k)
      && DefeatCount(o.defeated, enemies[j].id) == DefeatsAfter(enemies[j].health, k)
  {
    var step := StepAll(enemies, currentTime, delta, now);
    var hits := Hits(playerProjectiles, enemies);
    StepAllKeepsRoster(enemies, currentTime, delta, now);
    assert UniqueIds(step.enemies);
    OneHitPerCollidingProjectile(playerProjectiles, enemies, j);
    ApplyHitsHealth(step.enemies, hits, j);
    ApplyHitsDefeats(step.enemies, hits, j);
  }

  /** Ids survive the frame, so with distinct ids every later hit signals
      defeat at most once. */
  lemma FrameKeepsIdsUnique(enemies: seq<Enemy>, playerProjectiles: seq<Projectile>,
                            currentTime: real, delta: real, now: int)
    requires UniqueIds(enemies)
    ensures UniqueIds(ApplyHits(StepAll(enemies, currentTime, delta, now).enemies,
                                Hits(playerProjectiles, enemies)).enemies)
  {
    FrameKeepsRoster(enemies, playerProjectiles, currentTime, delta, now);
  }

  /** One more enemy examined by the inner loop. */
  lemma HitsOfExtend(p: Projectile, es: seq<Enemy>, j: int)
    requires 0 <= j < |es|
    ensures HitsOf(p, es[..j + 1]) == HitsOf(p, es[..j]) + if Collides(p, es[j]) then [HitOn(es[j])] else []
  {
    assert es[..j + 1][..j] == es[..j];
  }

  /** One more projectile examined by the outer loop. */
  lemma HitsExtend(ps: seq<Projectile>, es: seq<Enemy>, i: int)
    requires 0 <= i < |ps|
    ensures Hits(ps[..i + 1], es) == Hits(ps[..i], es) + HitsOf(ps[i], es)
  {
    assert ps[..i + 1][..i] == ps[..i];
  }

  /** One more hit registered. */
  lemma ApplyHitsExtend(es: seq<Enemy>, done: seq<Hit>, h: Hit, now: int)
    ensures ApplyHits(es, done + [h]).enemies == HandleEnemyHit(ApplyHits(es, done).enemies, h.enemyId).enemies
    ensures ApplyHits(es, done + [h]).defeated
            == ApplyHits(es, done).defeated + HandleEnemyHit(ApplyHits(es, done).enemies, h.enemyId).defeated
    ensures ExplosionsFor(done + [h], now) == ExplosionsFor(done, now) + [Explosion(now, h.position)]
  {
    assert (done + [h])[..|done|] == done;
  }

  /** Applying two batches of hits is applying their concatenation. */
  lemma {:induction false} ApplyHitsCompose(es: seq<Enemy>, a: seq<Hit>, b: seq<Hit>)
    ensures ApplyHits(es, a + b).enemies == ApplyHits(ApplyHits(es, a).enemies, b).enemies
    ensures ApplyHits(es, a + b).defeated == ApplyHits(es, a).defeated + ApplyHits(ApplyHits(es, a).enemies, b).defeated
  {
    if b == [] {
      assert a + b == a;
    } else {
      var b', h := b[..|b| - 1], b[|b| - 1];
      ApplyHitsCompose(es, a, b');
      var mid := ApplyHits(es, a);
      var rest := ApplyHits(mid.enemies, b');
      var prev := ApplyHits(es, a + b');
      assert prev.enemies == rest.enemies && prev.defeated == mid.defeated + rest.defeated;
      var last := HandleEnemyHit(rest.enemies, h.enemyId);
      var ab := a + b;
      assert ab[..|ab| - 1] == a + b' && ab[|ab| - 1] == h;
      assert ApplyHits(es, ab) == HitOutcome(last.enemies, prev.defeated + last.defeated);
      assert ApplyHits(mid.enemies, b) == HitOutcome(last.enemies, rest.defeated + last.defeated);
      assert (mid.defeated + rest.defeated) + last.defeated == mid.defeated + (rest.defeated + last.defeated);
    }
  }

  lemma ExplosionsForCompose(a: seq<Hit>, b: seq<Hit>, now: int)
    ensures ExplosionsFor(a + b, now) == ExplosionsFor(a, now) + ExplosionsFor(b, now)
  {
  }

  /** The inner loop of the frame callback: one player projectile tested
      against every enemy of the pre-step list `enemies`, each hit
      appending an explosion and hitting the enemy in `current`. */
  method RegisterHits(projectile: Projectile, enemies: seq<Enemy>, current: seq<Enemy>,
                      explosions: seq<Explosion>, defeated: seq<int>, now: int)
    returns (newCurrent: seq<Enemy>, newExplosions: seq<Explosion>, newDefeated: seq<int>)
    ensures var hits := HitsOf(projectile, enemies);
            && newCurrent == ApplyHits(current, hits).enemies
            && newDefeated == defeated + ApplyHits(current, hits).defeated
            && newExplosions == explosions + ExplosionsFor(hits, now)
  {
    newCurrent, newExplosions, newDefeated := current, explosions, defeated;
    ghost var done: seq<Hit> := [];
    var j := 0;
    while j < |enemies|
      invariant 0 <= j <= |enemies|
      invariant done == HitsOf(projectile, enemies[..j])
      invariant newCurrent == ApplyHits(current, done).enemies
      invariant newDefeated == defeated + ApplyHits(current, done).defeated
      invariant newExplosions == explosions + ExplosionsFor(done, now)
    {
      var enemy := enemies[j];
      HitsOfExtend(projectile, enemies, j);
      if DistanceSquared(projectile.position, enemy.position) < HitRadiusSquared {
        ApplyHitsExtend(current, done, HitOn(enemy), now);
        var outcome := HandleEnemyHit(newCurrent, enemy.id);
        newExplosions := newExplosions + [Explosion(now, enemy.position)];
        newCurrent := outcome.enemies;
        newDefeated := newDefeated + outcome.defeated;
        assert newDefeated == defeated + (ApplyHits(current, done).defeated + outcome.defeated);
        assert newExplosions == explosions + (ExplosionsFor(done, now) + [Explosion(now, enemy.position)]);
        done := done + [HitOn(enemy)];
      }
      j := j + 1;
    }
    assert enemies[..j] == enemies;
  }

  /** One more projectile handled by the outer loop: its hits follow the
      earlier ones in every respect. */
  lemma FrameLoopStep(ps: seq<Projectile>, enemies: seq<Enemy>, stepped: seq<Enemy>,
                      explosions: seq<Explosion>, i: int, now: int)
    requires 0 <= i < |ps|
    ensures var done := Hits(ps[..i], enemies);
            var more := HitsOf(ps[i], enemies);
            var mid := ApplyHits(stepped, done);
            && Hits(ps[..i + 1], enemies) == done + more
            && ApplyHits(stepped, done + more).enemies == ApplyHits(mid.enemies, more).enemies
            && ApplyHits(stepped, done + more).defeated == mid.defeated + ApplyHits(mid.enemies, more).defeated
            && explosions + ExplosionsFor(done + more, now)
               == (explosions + ExplosionsFor(done, now)) + ExplosionsFor(more, now)
  {
    var done := Hits(ps[..i], enemies);
    var more := HitsOf(ps[i], enemies);
    HitsExtend(ps, enemies, i);
    ApplyHitsCompose(stepped, done, more);
    ExplosionsForCompose(done, more, now);
  }

  /** The frame callback. The enemies are stepped; then every player
      projectile is tested against every enemy AS IT WAS before the step,
      each hit spawning an explosion at that enemy's pre-step position and
      hitting the enemy with that id in the stepped list. `now` is the
      millisecond clock: it gives the frame's time in seconds and stamps new
      projectiles and explosions. */
  method Frame(enemies: seq<Enemy>, explosions: seq<Explosion>, playerProjectiles: seq<Projectile>,
               delta: real, now: int)
    returns (newEnemies: seq<Enemy>, newExplosions: seq<Explosion>, enemyShots: seq<Projectile>, defeated: seq<int>)
    ensures var step := StepAll(enemies, Seconds(now), delta, now);
            var hits := Hits(playerProjectiles, enemies);
            && enemyShots == step.shots
            && newEnemies == ApplyHits(step.enemies, hits).enemies
            && defeated == ApplyHits(step.enemies, hits).defeated
            && newExplosions == explosions + ExplosionsFor(hits, now)
  {
    var currentTime := Seconds(now);
    var step := StepAll(enemies, currentTime, delta, now);
    newEnemies := step.enemies;
    enemyShots := step.shots;
    newExplosions := explosions;
    defeated := [];
    ghost var done: seq<Hit> := [];
    var i := 0;
    while i < |playerProjectiles|
      invariant 0 <= i <= |playerProjectiles|
      invariant done == Hits(playerProjectiles[..i], enemies)
      invariant newEnemies == ApplyHits(step.enemies, done).enemies
      invariant defeated == ApplyHits(step.enemies, done).defeated
      invariant newExplosions == explosions + ExplosionsFor(done, now)
    {
      ghost var more := HitsOf(playerProjectiles[i], enemies);
      newEnemies, newExplosions, defeated :=
        RegisterHits(playerProjectiles[i], enemies, newEnemies, newExplosions, defeated, now);
      FrameLoopStep(playerProjectiles, enemies, step.enemies, explosions, i, now);
      done := done + more;
      i := i + 1;
    }
    assert playerProjectiles[..i] == playerProjectiles;
  }
}
