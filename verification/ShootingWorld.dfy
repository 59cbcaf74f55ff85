/** The world as the program keeps it: component maps that the systems update in place. */
module ShootingWorld {
  import opened Ids
  import opened GameWorld
  import opened GameInvariants
  import opened Components
  import opened GameLoops
  import opened GameVisits
  import opened Folding
  import opened Scheduler
  import opened TopologicalSort
  import opened GameSchedule

  /** A random fraction: at least 0 and below 1. */
  method Fraction() returns (f: real)
    ensures 0.0 <= f < 1.0
  {
    f := *;
    if f < 0.0 || f >= 1.0 {
      f := 0.0;
    }
  }

  /** Iterations over a Go map visit its keys in an arbitrary order: each round takes any key still to come. */
  class ShootingWorld {
    var entities: set<EntityId>
    var position: map<EntityId, Vec>
    var health: map<EntityId, Byte>
    var lifeState: map<EntityId, bv8>
    var velocity: map<EntityId, Vec>
    var ttl: map<EntityId, EntityId>
    var owner: map<EntityId, EntityId>
    var tag: map<EntityId, Byte>
    var shootCooldown: map<EntityId, int>
    var respawnTimer: map<EntityId, int>
    var sessionToEntity: map<nat, EntityId>
    var entityToSession: map<EntityId, nat>
    var pendingInputs: seq<Input>
    var nextEntityId: EntityId

    ghost var count: nat
    ghost var born: map<EntityId, nat>
    /** An id was issued while it was still in use. */
    ghost var reissued: bool

    ghost function Comps(): Components
      reads this
    {
      Components(entities, position, health, lifeState, velocity, ttl, owner, tag, shootCooldown, respawnTimer,
        sessionToEntity, entityToSession, pendingInputs, nextEntityId, count, born)
    }

    /** The entities of the world. */
    ghost function W(): World
      reads this
    {
      Records(Comps())
    }

    /** The component maps have their shape, unless an id in use was issued again. */
    ghost predicate Valid()
      reads this
    {
      !reissued ==> Shape(Comps())
    }

    constructor ()
      ensures Valid() && !reissued && W() == EMPTY
    {
      entities, position, health, lifeState, velocity := {}, map[], map[], map[], map[];
      ttl, owner, tag, shootCooldown, respawnTimer := map[], map[], map[], map[], map[];
      sessionToEntity, entityToSession, pendingInputs, nextEntityId := map[], map[], [], 0;
      count, born, reissued := 0, map[], false;
    }

    // ---------- Entities ----------

    method AllocEntity() returns (id: EntityId)
      modifies this`entities, this`nextEntityId, this`count, this`born, this`reissued
      ensures id == nextEntityId == (old(nextEntityId) + 1) % 65536 && entities == old(entities) + {id}
      ensures count == old(count) + 1 && born == old(born)[id := count]
      ensures reissued == (old(reissued) || old(Taken(Comps(), Coming(Comps()))))
    {
      reissued := reissued || Taken(Comps(), Coming(Comps()));
      nextEntityId := (nextEntityId + 1) % 65536;
      id := nextEntityId;
      entities := entities + {id};
      count := count + 1;
      born := born[id := count];
    }

    method RandomPosition() returns (p: Vec)
      ensures InSpawnArea(p) && 5.0 <= p.x <= 95.0 && 5.0 <= p.y <= 95.0
    {
      var fx := Fraction();
      var fy := Fraction();
      p := Vec(SPAWN_MARGIN + fx * (MAP_SIZE - SPAWN_MARGIN * 2.0), SPAWN_MARGIN + fy * (MAP_SIZE - SPAWN_MARGIN * 2.0));
    }

    method GiveActor(id: EntityId, session: nat, kind: Byte, p: Vec)
      modifies this`position, this`health, this`lifeState, this`tag, this`shootCooldown, this`sessionToEntity, this`entityToSession
      ensures position == old(position)[id := p] && health == old(health)[id := FULL_HEALTH] && lifeState == old(lifeState)[id := 0x01]
      ensures tag == old(tag)[id := kind] && shootCooldown == old(shootCooldown)[id := 0]
      ensures sessionToEntity == old(sessionToEntity)[session := id] && entityToSession == old(entityToSession)[id := session]
    {
      position := position[id := p];
      health := health[id := FULL_HEALTH];
      lifeState := lifeState[id := 0x01];
      tag := tag[id := kind];
      shootCooldown := shootCooldown[id := 0];
      sessionToEntity := sessionToEntity[session := id];
      entityToSession := entityToSession[id := session];
    }

    method SpawnActor(session: nat, kind: Byte) returns (id: EntityId, ghost pos: Vec)
      modifies this
      ensures InSpawnArea(pos) && id == nextEntityId && Comps() == WithActor(old(Comps()), session, kind, pos)
      ensures reissued == (old(reissued) || old(Taken(Comps(), Coming(Comps()))))
    {
      ghost var c := Comps();
      id := AllocEntity();
      var p := RandomPosition();
      pos := p;
      GiveActor(id, session, kind, p);
      SameMaps(Comps(), WithActor(c, session, kind, p));
    }

    method GiveBullet(id: EntityId, shooter: EntityId, pos: Vec, vel: Vec)
      modifies this`position, this`velocity, this`ttl, this`owner, this`tag
      ensures position == old(position)[id := pos] && velocity == old(velocity)[id := vel] && ttl == old(ttl)[id := BULLET_TTL]
      ensures owner == old(owner)[id := shooter] && tag == old(tag)[id := BULLET]
    {
      position := position[id := pos];
      velocity := velocity[id := vel];
      ttl := ttl[id := BULLET_TTL];
      owner := owner[id := shooter];
      tag := tag[id := BULLET];
    }

    method SpawnBullet(shooter: EntityId, pos: Vec, vel: Vec) returns (id: EntityId)
      modifies this
      ensures id == nextEntityId && Comps() == WithBullet(old(Comps()), shooter, pos, vel)
      ensures reissued == (old(reissued) || old(Taken(Comps(), Coming(Comps()))))
    {
      ghost var c := Comps();
      id := AllocEntity();
      GiveBullet(id, shooter, pos, vel);
      SameMaps(Comps(), WithBullet(c, shooter, pos, vel));
    }

    method RemoveEntity(id: EntityId)
      modifies this
      ensures Comps() == Without(old(Comps()), id) && reissued == old(reissued)
    {
      RemoveComponents(id);
      if id in entityToSession {
        sessionToEntity := sessionToEntity - {entityToSession[id]};
        entityToSession := entityToSession - {id};
      }
    }

    method RemoveBody(id: EntityId)
      modifies this`entities, this`position, this`health, this`lifeState, this`velocity
      ensures entities == old(entities) - {id} && position == old(position) - {id} && health == old(health) - {id}
      ensures lifeState == old(lifeState) - {id} && velocity == old(velocity) - {id}
    {
      entities, position, health, lifeState, velocity := entities - {id}, position - {id}, health - {id}, lifeState - {id}, velocity - {id};
    }

    method RemoveRest(id: EntityId)
      modifies this`ttl, this`owner, this`tag, this`shootCooldown, this`respawnTimer
      ensures ttl == old(ttl) - {id} && owner == old(owner) - {id} && tag == old(tag) - {id}
      ensures shootCooldown == old(shootCooldown) - {id} && respawnTimer == old(respawnTimer) - {id}
    {
      ttl, owner, tag, shootCooldown, respawnTimer := ttl - {id}, owner - {id}, tag - {id}, shootCooldown - {id}, respawnTimer - {id};
    }

    method RemoveComponents(id: EntityId)
      modifies this`entities, this`position, this`health, this`lifeState, this`velocity, this`ttl, this`owner, this`tag, this`shootCooldown, this`respawnTimer
      ensures Comps() == Stripped(old(Comps()), id)
    {
      ghost var c := Comps();
      RemoveBody(id);
      RemoveRest(id);
      SameMaps(Comps(), Stripped(c, id));
    }

    /** Removes a list of bullets. */
    method RemoveBullets(ids: seq<EntityId>)
      requires Valid() && (!reissued ==> AllBullets(Comps(), ids))
      requires forall i, j :: 0 <= i < j < |ids| ==> ids[i] != ids[j]
      modifies this
      ensures Valid() && reissued == old(reissued) && count == old(count)
      ensures !reissued ==> RemoveLoop(old(Comps()), Comps(), set b | b in ids)
    {
      ghost var s := Comps();
      var k := 0;
      ghost var gone: set<EntityId> := {};
      while k < |ids|
        invariant k <= |ids| && gone == (set b | b in ids[..k]) && reissued == old(reissued) && count == old(count)
        invariant !reissued ==> RemoveLoop(s, Comps(), gone)
      {
        ghost var c := Comps();
        assert ids[k] in ids && ids[k] !in ids[..k] && ids[..k + 1] == ids[..k] + [ids[k]];
        RemoveEntity(ids[k]);
        if !reissued {
          RemoveGoesOn(s, c, gone, ids[k]);
        }
        gone := gone + {ids[k]};
        k := k + 1;
      }
      assert ids[..k] == ids;
    }

    // ---------- Respawn ----------

    method Revive(id: EntityId, state: bv8) returns (ghost pos: Vec)
      modifies this`health, this`lifeState, this`position, this`respawnTimer
      ensures InSpawnArea(pos) && health == old(health)[id := FULL_HEALTH] && lifeState == old(lifeState)[id := Woken(state)]
      ensures position == old(position)[id := pos] && respawnTimer == old(respawnTimer) - {id}
    {
      health := health[id := FULL_HEALTH];
      lifeState := lifeState[id := Woken(state)];
      var p := RandomPosition();
      pos := p;
      position := position[id := p];
      respawnTimer := respawnTimer - {id};
    }

    method RespawnOne(id: EntityId) returns (ghost pos: Vec)
      modifies this`health, this`lifeState, this`position, this`respawnTimer
      ensures InSpawnArea(pos) && RespawnVisit(old(Comps()), Comps(), id, pos)
    {
      pos := Vec(SPAWN_MARGIN, SPAWN_MARGIN);
      if id !in lifeState || !Respawning(lifeState[id]) {
        return;
      }
      var state := lifeState[id];
      ghost var timers := respawnTimer;
      respawnTimer := respawnTimer[id := Get(respawnTimer, id, 0) - 1];
      if respawnTimer[id] <= 0 {
        pos := Revive(id, state);
        assert respawnTimer == timers - {id};
      }
    }

    method Respawn()
      requires Valid()
      modifies this
      ensures Valid() && reissued == old(reissued) && count == old(count) && (!reissued ==> RespawnRuns(old(W()), W()))
    {
      ghost var s := Comps();
      var todo := entities;
      if !reissued {
        RespawnBegins(s);
      }
      while todo != {}
        invariant reissued == old(reissued) && count == old(count) && (!reissued ==> RespawnLoop(s, Comps(), todo))
        decreases |todo|
      {
        var id :| id in todo;
        ghost var c := Comps();
        ghost var pos := RespawnOne(id);
        if !reissued {
          RespawnGoesOn(s, c, Comps(), todo, id, pos);
        }
        todo := todo - {id};
      }
    }

    // ---------- Input ----------

    method MoveOne(i: Input)
      modifies this
      ensures MoveVisit(old(Comps()), Comps(), i) && reissued == old(reissued)
    {
      if i.entity !in entities || i.entity !in lifeState || !Alive(lifeState[i.entity]) {
        return;
      }
      var d := Direction(i.keys);
      if d.x == 0.0 && d.y == 0.0 {
        return;
      }
      position := position[i.entity := Stepped(Get(position, i.entity, ORIGIN), d)];
    }

    method InputMove()
      requires Valid()
      modifies this
      ensures Valid() && reissued == old(reissued) && count == old(count) && (!reissued ==> InputMoveRuns(old(W()), W()))
    {
      ghost var s := Comps();
      var queue := pendingInputs;
      pendingInputs := [];
      if !reissued {
        MoveBegins(s, Comps());
      }
      var k := 0;
      while k < |queue|
        invariant k <= |queue| && reissued == old(reissued) && count == old(count) && (!reissued ==> MoveLoop(s, Comps(), queue[..k]))
      {
        ghost var c := Comps();
        MoveOne(queue[k]);
        if !reissued {
          MoveGoesOn(s, c, Comps(), queue[..k], queue[k]);
        }
        assert queue[..k + 1] == queue[..k] + [queue[k]];
        k := k + 1;
      }
      assert queue[..k] == queue;
    }

    // ---------- Shooting ----------

    /** The nearest living rival of an actor, for any order of the search. */
    method Nearest(id: EntityId, pos: Vec) returns (found: bool, nearest: EntityId)
      ensures IsNearest(Comps(), id, pos, found, nearest)
    {
      found, nearest := false, 0;
      var best := MAX_FLOAT;
      var todo := entities;
      while todo != {}
        invariant todo <= entities
        invariant found ==> Target(Comps(), id, pos, nearest) && best == DistSq(pos, Get(position, nearest, ORIGIN))
        invariant !found ==> best == MAX_FLOAT
        invariant forall x :: Target(Comps(), id, pos, x) && x !in todo ==> found && best <= DistSq(pos, Get(position, x, ORIGIN))
        decreases |todo|
      {
        var other :| other in todo;
        if other != id && IsActorTag(Get(tag, other, 0)) && other in lifeState && Alive(lifeState[other]) {
          var distSq := DistSq(pos, Get(position, other, ORIGIN));
          if distSq < best {
            best, nearest, found := distSq, other, true;
          }
        }
        todo := todo - {other};
      }
    }

    method CoolDown(id: EntityId)
      modifies this
      ensures Comps() == CooledBy(old(Comps()), id) && reissued == old(reissued)
    {
      shootCooldown := shootCooldown[id := Get(shootCooldown, id, 0) - 1];
    }

    method Fire(id: EntityId, pos: Vec, vel: Vec)
      modifies this
      ensures var e := WithBullet(old(Comps()), id, pos, vel); Comps() == e.(cooldown := e.cooldown[id := SHOOT_COOLDOWN])
      ensures reissued == (old(reissued) || old(Taken(Comps(), Coming(Comps()))))
    {
      var _ := SpawnBullet(id, pos, vel);
      shootCooldown := shootCooldown[id := SHOOT_COOLDOWN];
    }

    /** The velocity towards a target, or that it is too close to aim at. */
    method Aim(root: real -> real, p: Vec, q: Vec) returns (touching: bool, vel: Vec)
      requires IsRoot(root)
      ensures touching <==> DistSq(p, q) < TOUCHING
      ensures !touching ==> Towards(p, q, vel)
    {
      var dx, dy := q.x - p.x, q.y - p.y;
      SquaresAddUp(dx, dy);
      var dist := root(dx * dx + dy * dy);
      RootOfTouching(dist, dx * dx + dy * dy);
      if dist < 0.001 {
        return true, ORIGIN;
      }
      touching, vel := false, Vec(dx / dist * BULLET_SPEED, dy / dist * BULLET_SPEED);
      StepOfSpeed(dx, dist);
      StepOfSpeed(dy, dist);
      assert Heading(p, q, vel, dist);
    }

    method AimAndFire(root: real -> real, id: EntityId) returns (ghost fired: bool, ghost vel: Vec, ghost found: bool, ghost nearest: EntityId)
      requires IsRoot(root)
      modifies this
      ensures FireVisit(old(Comps()), Comps(), id, fired, vel, found, nearest)
      ensures reissued == (old(reissued) || (fired && old(Taken(Comps(), Coming(Comps())))))
    {
      fired, vel := false, ORIGIN;
      var pos := Get(position, id, ORIGIN);
      var f, n := Nearest(id, pos);
      found, nearest := f, n;
      if !f {
        return;
      }
      var touching, v := Aim(root, pos, Get(position, n, ORIGIN));
      if touching {
        return;
      }
      fired, vel := true, v;
      Fire(id, pos, v);
    }

    /** Visiting a bullet does nothing, so it does not matter whether the iteration meets those fired meanwhile. */
    method ShootOne(root: real -> real, id: EntityId) returns (ghost fired: bool, ghost vel: Vec, ghost found: bool, ghost nearest: EntityId)
      requires IsRoot(root)
      modifies this
      ensures ShootVisit(old(Comps()), Comps(), id, fired, vel, found, nearest)
      ensures reissued == (old(reissued) || (fired && old(Taken(Comps(), Coming(Comps())))))
    {
      ghost var c := Comps();
      fired, vel, found, nearest := false, ORIGIN, false, 0;
      if !IsActorTag(Get(tag, id, 0)) || id !in lifeState || !Alive(lifeState[id]) {
        return;
      }
      CoolDown(id);
      if shootCooldown[id] > 0 {
        return;
      }
      fired, vel, found, nearest := AimAndFire(root, id);
      CooledFires(c, Comps(), id, fired, vel, found, nearest);
    }

    method AutoShoot(root: real -> real)
      requires Valid() && IsRoot(root)
      modifies this
      ensures Valid() && (!reissued ==> !old(reissued) && AutoShootRuns(old(W()), W()))
      ensures !old(reissued) && Births(old(W())) && Paced(old(W()), count) ==> !reissued
    {
      ghost var s := Comps();
      ghost var was := reissued;
      ghost var shot: seq<EntityId>, vels: seq<Vec> := [], [];
      var todo := entities;
      if !reissued {
        ShootBegins(s);
      }
      while todo != {}
        invariant was ==> reissued
        invariant !reissued ==> ShootLoop(s, Comps(), todo, shot, vels)
        invariant !was && Births(Records(s)) && Paced(Records(s), count) ==> !reissued
        decreases |todo|
      {
        var id :| id in todo;
        ghost var c := Comps();
        ghost var before := reissued;
        ghost var fired, vel, found, nearest := ShootOne(root, id);
        ghost var d := Comps();
        if !before && fired && Births(Records(s)) && Paced(Records(s), count) {
          ShootPaced(s, c, d, todo, shot, vels, id, vel, found, nearest);
        }
        ShootCounts(c, d, id, fired, vel, found, nearest);
        if !reissued {
          ShootGoesOn(s, c, d, todo, shot, vels, id, fired, vel, found, nearest);
        }
        if fired {
          shot, vels := shot + [id], vels + [vel];
        }
        todo := todo - {id};
      }
      if !reissued {
        ShootEnds(s, Comps(), shot, vels);
      }
    }

    // ---------- Bullets ----------

    method FlyOne(id: EntityId)
      modifies this
      ensures FlyVisit(old(Comps()), Comps(), id) && reissued == old(reissued)
    {
      if Get(tag, id, 0) != BULLET {
        return;
      }
      position := position[id := Plus(Get(position, id, ORIGIN), Get(velocity, id, ORIGIN))];
      ttl := ttl[id := OneLess(Get(ttl, id, 0))];
    }

    method BulletMove()
      requires Valid()
      modifies this
      ensures Valid() && reissued == old(reissued) && count == old(count) && (!reissued ==> BulletMoveRuns(old(W()), W()))
    {
      ghost var s := Comps();
      var todo := entities;
      if !reissued {
        FlyBegins(s);
      }
      while todo != {}
        invariant reissued == old(reissued) && count == old(count) && (!reissued ==> FlyLoop(s, Comps(), todo))
        decreases |todo|
      {
        var id :| id in todo;
        ghost var c := Comps();
        FlyOne(id);
        if !reissued {
          FlyGoesOn(s, c, Comps(), todo, id);
        }
        todo := todo - {id};
      }
      if !reissued {
        FlyEnds(Records(s), W());
      }
    }

    // ---------- Collisions ----------

    method Damage(a: EntityId)
      modifies this
      ensures Comps() == Damaged(old(Comps()), a) && reissued == old(reissued)
    {
      var hp := Get(health, a, 0);
      if BULLET_DAMAGE >= hp {
        health := health[a := 0];
        lifeState := lifeState[a := Fallen(Get(lifeState, a, 0))];
        respawnTimer := respawnTimer[a := RESPAWN_TICKS];
      } else {
        health := health[a := hp - BULLET_DAMAGE];
      }
    }

    /** Strikes the first actor in reach that the iteration meets. */
    method StrikeOne(b: EntityId) returns (hit: bool, ghost actor: EntityId)
      modifies this
      ensures StrikeVisit(old(Comps()), Comps(), b, hit, actor) && reissued == old(reissued)
    {
      hit, actor := false, 0;
      if Get(tag, b, 0) != BULLET {
        return;
      }
      var bulletPos := Get(position, b, ORIGIN);
      var ownerId := Get(owner, b, 0);
      ghost var c := Comps();
      var todo := entities;
      while todo != {}
        invariant todo <= entities && Comps() == c && reissued == old(reissued)
        invariant forall x :: x !in todo ==> !CanStrike(c, b, x)
        decreases |todo|
      {
        var a :| a in todo;
        if IsActorTag(Get(tag, a, 0)) && a != ownerId && a in lifeState && Alive(lifeState[a]) {
          if DistSq(Get(position, a, ORIGIN), bulletPos) <= (BULLET_RADIUS + ACTOR_RADIUS) * (BULLET_RADIUS + ACTOR_RADIUS) {
            Damage(a);
            hit, actor := true, a;
            return;
          }
        }
        todo := todo - {a};
      }
    }

    /** Lets every bullet strike, and lists the spent ones; they are removed only behind the iteration. */
    method StrikeAll() returns (spent: seq<EntityId>, ghost hits: map<EntityId, EntityId>)
      requires Valid()
      modifies this
      ensures reissued == old(reissued) && count == old(count) && Listed(spent, hits.Keys)
      ensures !reissued ==> StrikesDone(old(Comps()), Comps(), hits)
    {
      ghost var s := Comps();
      hits := map[];
      spent := [];
      var todo := entities;
      if !reissued {
        StrikeBegins(s);
      }
      while todo != {}
        invariant reissued == old(reissued) && count == old(count) && (!reissued ==> StrikeLoop(s, Comps(), todo, hits))
        invariant Listed(spent, hits.Keys) && hits.Keys !! todo
        decreases |todo|
      {
        var b :| b in todo;
        ghost var c := Comps();
        ghost var actor: EntityId;
        var hit: bool;
        hit, actor := StrikeOne(b);
        if !reissued {
          StrikeGoesOn(s, c, Comps(), todo, hits, b, hit, actor);
        }
        if hit {
          ListedMore(spent, hits.Keys, b);
          spent := spent + [b];
          hits := hits[b := actor];
        }
        todo := todo - {b};
      }
    }

    method CollisionDamage()
      requires Valid()
      modifies this
      ensures Valid() && reissued == old(reissued) && count == old(count) && (!reissued ==> CollisionRuns(old(W()), W()))
    {
      ghost var s := Comps();
      var spent: seq<EntityId>;
      ghost var hits: map<EntityId, EntityId>;
      spent, hits := StrikeAll();
      ghost var c := Comps();
      if !reissued {
        SpentAreBullets(s, c, hits, spent);
      }
      RemoveBullets(spent);
      if !reissued {
        StrikesEnd(s, c, Comps(), hits, spent);
      }
    }

    method BulletCleanup()
      requires Valid()
      modifies this
      ensures Valid() && reissued == old(reissued) && count == old(count) && (!reissued ==> CleanupRuns(old(W()), W()))
    {
      ghost var s := Comps();
      var expired: seq<EntityId> := [];
      ghost var gone: set<EntityId> := {};
      var todo := entities;
      while todo != {}
        invariant Comps() == s && reissued == old(reissued) && Listed(expired, gone) && gone !! todo && todo <= entities
        invariant forall x :: x in gone <==> x in entities && x !in todo && Expired(s, x)
        decreases |todo|
      {
        var id :| id in todo;
        if Get(tag, id, 0) == BULLET && Get(ttl, id, 0) == 0 {
          ListedMore(expired, gone, id);
          expired := expired + [id];
          gone := gone + {id};
        }
        todo := todo - {id};
      }
      if !reissued {
        ExpiredAre(s, gone);
      }
      RemoveBullets(expired);
      if !reissued {
        assert (set b | b in expired) == gone;
        CleanupEnds(s, Comps(), gone);
      }
    }

    // ---------- The application ----------

    /** Runs the system with the given id; the network phase has one that does nothing. */
    method RunSystem(root: real -> real, id: string)
      requires Valid() && IsRoot(root)
      modifies this
      ensures Valid() && (!reissued ==> !old(reissued) && Ran(id, old(W()), W()))
      ensures id != "auto_shoot" ==> reissued == old(reissued) && count == old(count)
      ensures !old(reissued) && Births(old(W())) && Paced(old(W()), count) ==> !reissued
    {
      if id == "respawn" {
        Respawn();
      } else if id == "input_move" {
        InputMove();
      } else if id == "auto_shoot" {
        AutoShoot(root);
      } else if id == "bullet_move" {
        BulletMove();
      } else if id == "collision_damage" {
        CollisionDamage();
      } else if id == "bullet_cleanup" {
        BulletCleanup();
      }
    }

    /** Runs the simulation phase in the order the scheduler found for it. */
    method RunTick(root: real -> real, order: seq<System>) returns (ghost stages: Stages)
      requires Valid() && IsRoot(root) && multiset(order) == multiset(SIMULATION) && Respects(order)
      modifies this
      ensures Valid() && (!reissued ==> !old(reissued) && Happens(Tick(stages), old(W()), W()))
      ensures !old(reissued) && Births(old(W())) && Paced(old(W()), count) ==> !reissued
    {
      GameOrderIsForced(order);
      ghost var w := W();
      ghost var was := reissued;
      ghost var states := [w];
      var k := 0;
      while k < |order|
        invariant k <= |order| && |states| == k + 1 && states[0] == w && Valid() && (was ==> reissued)
        invariant !reissued ==> states[k] == W() && Traced(states)
        invariant k <= 2 ==> reissued == was
        invariant k > 2 && !was && Births(w) && Paced(w, count) ==> !reissued
      {
        RunSystem(root, order[k].id);
        if !reissued {
          TraceGrows(states, W());
        }
        if k == 2 && !was {
          TracePace(states, count);
        }
        states := states + [W()];
        k := k + 1;
      }
      stages := Stages(states[0], states[1], states[2], states[3], states[4], states[5], states[6]);
      if !reissued {
        TraceIsTick(states);
      }
    }

    method OnJoin(session: nat) returns (ghost at: Vec)
      requires Valid()
      modifies this
      ensures Valid() && (!reissued ==> !old(reissued) && Happens(Join(session, at), old(W()), W()))
      ensures !old(reissued) && Births(old(W())) && Paced(old(W()), old(count) + 1) ==> !reissued
    {
      ghost var c := Comps();
      var id: EntityId;
      id, at := SpawnActor(session, PLAYER);
      if !old(reissued) {
        Joining(c, session, at);
      }
    }

    method OnLeave(session: nat)
      requires Valid()
      modifies this
      ensures Valid() && reissued == old(reissued)
      ensures Comps() == if session in old(sessionToEntity) then Without(old(Comps()), old(sessionToEntity[session])) else old(Comps())
      ensures !reissued && SessionsSound(old(W())) ==> Happens(Leave(session), old(W()), W())
    {
      ghost var c := Comps();
      if session !in sessionToEntity {
        return;
      }
      var id := sessionToEntity[session];
      RemoveEntity(id);
      if !reissued {
        WithoutKeepsShape(c, id);
        if id in c.health {
          ActorLeaves(c, id);
        }
      }
    }

    method HandleInput(session: nat, keys: bv32)
      requires Valid()
      modifies this
      ensures Valid() && reissued == old(reissued) && count == old(count) && (!reissued ==> Happens(Press(session, keys), old(W()), W()))
    {
      ghost var c := Comps();
      if session !in sessionToEntity {
        return;
      }
      pendingInputs := pendingInputs + [Input(sessionToEntity[session], keys)];
      if !reissued {
        InputsOnly(c, Comps());
      }
    }
  }

  /** The worlds of a tick so far, each behind the system that made it. */
  ghost predicate Traced(states: seq<World>)
  {
    |states| <= 7 && forall i {:trigger Stage(states, i)} :: 0 < i < |states| ==> Stage(states, i)
  }

  ghost predicate Stage(states: seq<World>, i: int)
    requires 0 < i < |states| <= 7
  {
    Ran(SIMULATION[i - 1].id, states[i - 1], states[i])
  }

  /** The system has run, folded. */
  ghost predicate Ran(id: string, w: World, v: World)
  {
    forall key :: Unfold(key) ==> SystemRuns(id, w, v)
  }

  lemma TraceGrows(states: seq<World>, v: World)
    requires 1 <= |states| <= 6 && Traced(states) && Ran(SIMULATION[|states| - 1].id, states[|states| - 1], v)
    ensures Traced(states + [v])
  {
    var more := states + [v];
    forall i | 0 < i < |more|
      ensures Stage(more, i)
    {
      if i < |states| {
        assert Stage(states, i);
        assert more[i - 1] == states[i - 1] && more[i] == states[i];
      }
    }
  }

  lemma TraceIsTick(states: seq<World>)
    requires Traced(states) && |states| == 7
    ensures Ticks(Stages(states[0], states[1], states[2], states[3], states[4], states[5], states[6]))
  {
    assert Stage(states, 1) && Stage(states, 2) && Stage(states, 3) && Stage(states, 4) && Stage(states, 5) && Stage(states, 6);
    assert Unfold(0);
  }

  /** Respawning and moving leave the ids in use as they are. */
  lemma TracePace(states: seq<World>, count: nat)
    requires Traced(states) && |states| == 3
    ensures Births(states[0]) ==> Births(states[2])
    ensures Paced(states[0], count) ==> Paced(states[2], count)
  {
    assert Stage(states, 1) && Stage(states, 2);
    assert Unfold(0);
    MovedIs(states[1].actors, states[1].inputs);
    forall id | InUse(states[2], id)
      ensures InUse(states[0], id)
    {
    }
  }

  lemma Joining(c: Components, session: nat, at: Vec)
    requires Shape(c)
    ensures !Taken(c, Coming(c)) ==>
      Shape(WithActor(c, session, PLAYER, at)) && Records(WithActor(c, session, PLAYER, at)) == SpawnActor(Records(c), session, PLAYER, at)
    ensures Births(Records(c)) && Paced(Records(c), c.count + 1) ==> !Taken(c, Coming(c))
  {
    if !Taken(c, Coming(c)) {
      ActorSpawns(c, session, PLAYER, at);
    } else {
      TakenIsInUse(c, Coming(c));
      NextIsNext(c);
      if Births(Records(c)) && Paced(Records(c), c.count + 1) {
        IssuedIsFresh(Records(c), c.count + 1, c.count + 1, Coming(c));
      }
    }
  }

  lemma InputsOnly(c: Components, d: Components)
    requires Shape(c) && d == c.(inputs := d.inputs)
    ensures Shape(d) && Records(d) == Records(c).(inputs := d.inputs)
  {
    forall x: EntityId
      ensures ShapeAt(d, x) && SameActorAt(c, d, x) && SameBulletAt(c, d, x)
    {
      assert ShapeAt(c, x);
    }
    ActorsSame(c, d);
    BulletsSame(c, d);
  }

  /** A list without repetition of the elements of a set. */
  ghost predicate Listed(ids: seq<EntityId>, s: set<EntityId>)
  {
    (forall i, j :: 0 <= i < j < |ids| ==> ids[i] != ids[j]) && forall x :: x in ids <==> x in s
  }

  lemma ListedMore(ids: seq<EntityId>, s: set<EntityId>, x: EntityId)
    requires Listed(ids, s) && x !in s
    ensures Listed(ids + [x], s + {x})
  {
    assert forall i :: 0 <= i < |ids| ==> ids[i] in ids;
  }

  lemma ListedSet(ids: seq<EntityId>, s: set<EntityId>)
    requires Listed(ids, s)
    ensures (set b | b in ids) == s
  {
  }

  predicate Expired(c: Components, x: EntityId)
  {
    Get(c.tag, x, 0) == BULLET && Get(c.ttl, x, 0) == 0
  }

  lemma ExpiredAre(c: Components, gone: set<EntityId>)
    requires Shape(c) && forall x :: x in gone <==> x in c.entities && Expired(c, x)
    ensures forall b :: b in gone <==> b in Records(c).bullets && Records(c).bullets[b].ttl == 0
    ensures RemoveLoop(c, c, {})
  {
    forall b: EntityId
      ensures b in gone <==> b in Records(c).bullets && Records(c).bullets[b].ttl == 0
    {
      assert ShapeAt(c, b);
    }
  }

  ghost predicate AllBullets(c: Components, ids: seq<EntityId>)
  {
    forall b :: b in ids ==> b in Records(c).bullets
  }

  /** The strikes of all bullets, folded. */
  ghost predicate StrikesDone(s: Components, c: Components, hits: map<EntityId, EntityId>)
  {
    Shape(c) && forall key :: Unfold(key) ==> StrikeLoop(s, c, {}, hits)
  }

  lemma SpentAreBullets(s: Components, c: Components, hits: map<EntityId, EntityId>, spent: seq<EntityId>)
    requires StrikesDone(s, c, hits) && Listed(spent, hits.Keys)
    ensures AllBullets(c, spent)
  {
    assert Unfold(0);
    forall b | b in hits
      ensures b in Records(c).bullets
    {
      assert MayHit(Records(s), b, hits[b]);
    }
  }

  lemma StrikesAreOver(s: Components, c: Components, d: Components, hits: map<EntityId, EntityId>)
    requires StrikesDone(s, c, hits) && RemoveLoop(c, d, hits.Keys)
    ensures CollisionRuns(Records(s), Records(d))
  {
    assert Unfold(0);
    StrikeEnds(s, c, d, hits);
  }

  lemma StrikesEnd(s: Components, c: Components, d: Components, hits: map<EntityId, EntityId>, spent: seq<EntityId>)
    requires StrikesDone(s, c, hits) && Listed(spent, hits.Keys) && RemoveLoop(c, d, set b | b in spent)
    ensures CollisionRuns(Records(s), Records(d))
  {
    ListedSet(spent, hits.Keys);
    StrikesAreOver(s, c, d, hits);
  }

  /** What the code needs of the square root. */
  ghost predicate IsRoot(root: real -> real)
  {
    forall x :: x >= 0.0 ==> root(x) >= 0.0 && root(x) * root(x) == x
  }

  lemma SquaresAddUp(dx: real, dy: real)
    ensures dx * dx + dy * dy >= 0.0
  {
  }

  lemma RootOfTouching(dist: real, square: real)
    requires dist >= 0.0 && dist * dist == square
    ensures dist < 0.001 <==> square < TOUCHING
  {
    if dist < 0.001 {
      assert dist * dist <= 0.001 * dist;
    } else {
      assert dist * dist >= 0.001 * dist;
    }
  }

  lemma StepOfSpeed(d: real, dist: real)
    requires dist > 0.0
    ensures d / dist * BULLET_SPEED * dist == BULLET_SPEED * d
  {
    assert d / dist * dist == d;
  }

  lemma CooledFires(c: Components, d: Components, id: EntityId, fired: bool, vel: Vec, found: bool, nearest: EntityId)
    requires Takes(c, id) && Get(c.cooldown, id, 0) <= 1 && FireVisit(CooledBy(c, id), d, id, fired, vel, found, nearest)
    ensures ShootVisit(c, d, id, fired, vel, found, nearest)
    ensures Taken(CooledBy(c, id), Coming(CooledBy(c, id))) <==> Taken(c, Coming(c))
  {
    CooledTaken(c, id);
  }

  lemma ShootCounts(c: Components, d: Components, id: EntityId, fired: bool, vel: Vec, found: bool, nearest: EntityId)
    requires ShootVisit(c, d, id, fired, vel, found, nearest)
    ensures d.count == c.count + if fired then 1 else 0
  {
  }
}
