/** What the systems do to the component maps at each entity they visit, and what that means for the entities. */
module GameVisits {
  import opened Ids
  import opened GameWorld
  import opened GameInvariants
  import opened Components
  import opened GameLoops

  lemma EntitiesAreAll(c: Components)
    requires Shape(c)
    ensures Records(c).actors.Keys <= c.entities && Records(c).bullets.Keys <= c.entities
  {
    forall x | x in c.health || x in c.ttl
      ensures x in c.entities
    {
      assert ShapeAt(c, x);
    }
  }

  // ---------- Respawn ----------

  predicate RespawnVisit(c: Components, d: Components, id: EntityId, pos: Vec)
  {
    if id !in c.life || !Respawning(c.life[id]) then d == c
    else if Get(c.timer, id, 0) > 1 then d == c.(timer := c.timer[id := Get(c.timer, id, 0) - 1])
    else d == c.(health := c.health[id := FULL_HEALTH], life := c.life[id := Woken(c.life[id])], position := c.position[id := pos], timer := c.timer - {id})
  }

  ghost predicate RespawnLoop(s: Components, c: Components, todo: set<EntityId>)
  {
    Shape(c) && RespawnedBut(Records(s), Records(c), todo)
  }

  lemma TimerRuns(c: Components, d: Components, id: EntityId, k: int)
    requires Shape(c) && id in c.health && d == c.(timer := c.timer[id := k])
    ensures Shape(d) && Records(d) == Records(c).(actors := Records(c).actors[id := Records(c).actors[id].(timer := Some(k))])
  {
    assert ShapeAt(c, id);
    ActorChanges(c, d, id);
  }

  lemma ActorRevives(c: Components, d: Components, id: EntityId, pos: Vec)
    requires Shape(c) && id in c.health && ShapeAt(c, id)
    requires d == c.(health := c.health[id := FULL_HEALTH], life := c.life[id := Woken(c.life[id])], position := c.position[id := pos], timer := c.timer - {id})
    ensures Shape(d) && Records(d) == Records(c).(actors := Records(c).actors[id := Revived(Records(c).actors[id], pos)])
  {
    ActorChanges(c, d, id);
    assert ActorAt(d, id) == Revived(ActorAt(c, id), pos);
  }

  lemma WaitedOne(w: World, v: World, id: EntityId, a: Actor)
    requires id in w.actors && v == w.(actors := w.actors[id := a]) && Waits(w.actors[id], a)
    ensures RespawnedOne(w, v, id)
  {
  }

  lemma VisitWaits(c: Components, d: Components, id: EntityId, pos: Vec)
    requires Shape(c) && ShapeAt(c, id) && InSpawnArea(pos) && RespawnVisit(c, d, id, pos) && id in c.life && Respawning(c.life[id])
    ensures Shape(d) && id in c.health
    ensures exists a :: Records(d) == Records(c).(actors := Records(c).actors[id := a]) && Waits(Records(c).actors[id], a)
  {
    var a := Records(c).actors[id];
    if Get(c.timer, id, 0) > 1 {
      TimerRuns(c, d, id, Get(c.timer, id, 0) - 1);
      assert Waits(a, a.(timer := Some(Get(c.timer, id, 0) - 1)));
    } else {
      ActorRevives(c, d, id, pos);
      assert Waits(a, Revived(a, pos));
    }
  }

  lemma RespawnVisited(c: Components, d: Components, id: EntityId, pos: Vec)
    requires Shape(c) && InSpawnArea(pos) && RespawnVisit(c, d, id, pos)
    ensures Shape(d) && RespawnedOne(Records(c), Records(d), id)
  {
    assert ShapeAt(c, id);
    if id in c.life && Respawning(c.life[id]) {
      VisitWaits(c, d, id, pos);
      var a :| Records(d) == Records(c).(actors := Records(c).actors[id := a]) && Waits(Records(c).actors[id], a);
      WaitedOne(Records(c), Records(d), id, a);
    } else {
      NothingToWaitFor(c, id);
    }
  }

  lemma NothingToWaitFor(c: Components, id: EntityId)
    requires ShapeAt(c, id) && (id in c.life ==> !Respawning(c.life[id]))
    ensures RespawnedOne(Records(c), Records(c), id)
  {
  }

  lemma RespawnBegins(c: Components)
    requires Shape(c)
    ensures RespawnLoop(c, c, c.entities)
  {
    EntitiesAreAll(c);
  }

  lemma RespawnGoesOn(s: Components, c: Components, d: Components, todo: set<EntityId>, id: EntityId, pos: Vec)
    requires RespawnLoop(s, c, todo) && id in todo && InSpawnArea(pos) && RespawnVisit(c, d, id, pos)
    ensures RespawnLoop(s, d, todo - {id})
  {
    RespawnVisited(c, d, id, pos);
    RespawnRound(Records(s), Records(c), Records(d), todo, id);
  }

  // ---------- Input ----------

  predicate MoveVisit(c: Components, d: Components, i: Input)
  {
    if i.entity !in c.entities || i.entity !in c.life || !Alive(c.life[i.entity]) || Direction(i.keys) == Vec(0.0, 0.0) then d == c
    else d == c.(position := c.position[i.entity := Stepped(Get(c.position, i.entity, ORIGIN), Direction(i.keys))])
  }

  ghost predicate MoveLoop(s: Components, c: Components, done: seq<Input>)
  {
    Shape(c) && Records(c) == Records(s).(actors := Moved(Records(s).actors, done), inputs := [])
  }

  lemma MoveVisited(c: Components, d: Components, i: Input)
    requires Shape(c) && MoveVisit(c, d, i)
    ensures Shape(d) && Records(d) == Records(c).(actors := MovedBy(Records(c).actors, i))
  {
    assert ShapeAt(c, i.entity);
    if d != c {
      ActorChanges(c, d, i.entity);
    }
  }

  lemma MoveGoesOn(s: Components, c: Components, d: Components, done: seq<Input>, i: Input)
    requires MoveLoop(s, c, done) && MoveVisit(c, d, i)
    ensures MoveLoop(s, d, done + [i])
  {
    MoveVisited(c, d, i);
    assert (done + [i])[..|done|] == done;
  }

  lemma MoveBegins(s: Components, c: Components)
    requires Shape(s) && c == s.(inputs := [])
    ensures MoveLoop(s, c, [])
  {
    forall x: EntityId
      ensures ShapeAt(c, x) && SameActorAt(s, c, x) && SameBulletAt(s, c, x)
    {
      assert ShapeAt(s, x);
    }
    ActorsSame(s, c);
    BulletsSame(s, c);
  }

  // ---------- Shooting ----------

  /** The id that will be issued next. */
  function Coming(c: Components): EntityId
  {
    (c.next + 1) % 65536
  }

  function CooledBy(c: Components, id: EntityId): Components
  {
    c.(cooldown := c.cooldown[id := Get(c.cooldown, id, 0) - 1])
  }

  predicate Takes(c: Components, id: EntityId)
  {
    IsActorTag(Get(c.tag, id, 0)) && id in c.life && Alive(c.life[id])
  }

  /** An actor whose cooldown has run out looks for the nearest target and fires at it. */
  ghost predicate FireVisit(c: Components, d: Components, id: EntityId, fired: bool, vel: Vec, found: bool, nearest: EntityId)
  {
    var pos := Get(c.position, id, ORIGIN);
    && IsNearest(c, id, pos, found, nearest)
    && fired == (found && DistSq(pos, Get(c.position, nearest, ORIGIN)) >= TOUCHING)
    && if !fired then d == c
       else
         var e := WithBullet(c, id, pos, vel);
         Towards(pos, Get(c.position, nearest, ORIGIN), vel) && d == e.(cooldown := e.cooldown[id := SHOOT_COOLDOWN])
  }

  ghost predicate ShootVisit(c: Components, d: Components, id: EntityId, fired: bool, vel: Vec, found: bool, nearest: EntityId)
  {
    if !Takes(c, id) then !fired && d == c
    else if Get(c.cooldown, id, 0) > 1 then !fired && d == CooledBy(c, id)
    else FireVisit(CooledBy(c, id), d, id, fired, vel, found, nearest)
  }

  ghost predicate ShootLoop(s: Components, c: Components, todo: set<EntityId>, shot: seq<EntityId>, vels: seq<Vec>)
  {
    Shape(c) && ShotBut(Records(s), Records(c), todo, shot, vels) && AllAimed(Records(s).actors, shot, vels)
  }

  lemma CooldownChanges(c: Components, id: EntityId, k: int)
    requires Shape(c) && id in c.health
    ensures var d := c.(cooldown := c.cooldown[id := k]);
      Shape(d) && Records(d) == Records(c).(actors := Records(c).actors[id := Records(c).actors[id].(cooldown := k)])
  {
    assert ShapeAt(c, id);
    ActorChanges(c, c.(cooldown := c.cooldown[id := k]), id);
  }

  /** The world when an actor is about to shoot. */
  function Aiming(w: World, id: EntityId): World
    requires id in w.actors
  {
    w.(actors := w.actors[id := w.actors[id].(cooldown := w.actors[id].cooldown - 1)])
  }

  lemma CooledTaken(c: Components, id: EntityId)
    ensures Taken(CooledBy(c, id), Coming(CooledBy(c, id))) <==> Taken(c, Coming(c))
  {
  }

  lemma PlaceOf(c: Components, id: EntityId)
    requires Shape(c) && id in c.health
    ensures Get(c.position, id, ORIGIN) == Records(c).actors[id].pos
  {
    assert ShapeAt(c, id);
  }

  lemma CooledAims(c: Components, b: Components, id: EntityId)
    requires Shape(c) && id in c.health && b == CooledBy(c, id)
    ensures Shape(b) && id in b.health && Records(b) == Aiming(Records(c), id)
    ensures Get(b.position, id, ORIGIN) == Records(c).actors[id].pos && Taken(b, Coming(b)) == Taken(c, Coming(c))
  {
    CooldownChanges(c, id, Get(c.cooldown, id, 0) - 1);
    PlaceOf(c, id);
    CooledTaken(c, id);
  }

  lemma CooledSpawns(c: Components, b: Components, e: Components, id: EntityId, vel: Vec)
    requires Shape(b) && id in b.health && !Taken(b, Coming(b)) && e == WithBullet(b, id, Get(b.position, id, ORIGIN), vel)
    ensures Shape(e) && id in e.health && Records(e) == SpawnBullet(Records(b), id, Get(b.position, id, ORIGIN), vel)
  {
    BulletSpawns(b, id, Get(b.position, id, ORIGIN), vel);
  }

  lemma FiringVisited(w: World, e: Components, d: Components, id: EntityId, vel: Vec)
    requires Shape(e) && id in e.health && Fires(w.actors, id) && d == e.(cooldown := e.cooldown[id := SHOOT_COOLDOWN])
    requires Records(e) == SpawnBullet(Aiming(w, id), id, w.actors[id].pos, vel)
    ensures Shape(d) && ShotOne(w, Records(d), id, true, vel)
  {
    CooldownChanges(e, id, SHOOT_COOLDOWN);
    FiredOnce(w, Records(e), Records(d), id, vel);
  }

  lemma FiredOnce(w: World, u: World, v: World, id: EntityId, vel: Vec)
    requires Fires(w.actors, id)
    requires u == SpawnBullet(Aiming(w, id), id, w.actors[id].pos, vel)
    requires v == u.(actors := u.actors[id := u.actors[id].(cooldown := SHOOT_COOLDOWN)])
    ensures ShotOne(w, v, id, true, vel)
  {
    assert v.actors == w.actors[id := Cooled(w.actors, id)];
  }

  lemma ShotVisited(c: Components, e: Components, d: Components, id: EntityId, vel: Vec)
    requires Shape(c) && id in c.health && Fires(Records(c).actors, id) && !Taken(c, Coming(c))
    requires e == WithBullet(CooledBy(c, id), id, Get(c.position, id, ORIGIN), vel) && d == e.(cooldown := e.cooldown[id := SHOOT_COOLDOWN])
    ensures Shape(d) && ShotOne(Records(c), Records(d), id, true, vel)
  {
    CooledAims(c, CooledBy(c, id), id);
    CooledSpawns(c, CooledBy(c, id), e, id, vel);
    FiringVisited(Records(c), e, d, id, vel);
  }

  lemma NearestIsAimed(c: Components, id: EntityId, nearest: EntityId, vel: Vec)
    requires Shape(c) && id in c.health && IsNearest(c, id, Get(c.position, id, ORIGIN), true, nearest)
    requires Towards(Get(c.position, id, ORIGIN), Get(c.position, nearest, ORIGIN), vel)
    ensures Aimed(Records(c).actors, id, vel)
  {
    forall x: EntityId
      ensures Target(c, id, Get(c.position, id, ORIGIN), x) <==> Rival(Records(c).actors, id, x)
    {
      TargetsAreRivals(c, id, x);
    }
    assert NearestRival(Records(c).actors, id, nearest);
  }

  lemma WaitVisited(c: Components, id: EntityId, vel: Vec)
    requires Shape(c) && Takes(c, id) && id in c.health && !Fires(Records(c).actors, id)
    ensures Shape(CooledBy(c, id)) && ShotOne(Records(c), Records(CooledBy(c, id)), id, false, vel)
  {
    CooldownChanges(c, id, Get(c.cooldown, id, 0) - 1);
  }

  lemma PassVisited(c: Components, id: EntityId, vel: Vec)
    requires Shape(c) && !Takes(c, id)
    ensures ShotOne(Records(c), Records(c), id, false, vel)
  {
    assert ShapeAt(c, id);
  }

  lemma ShootVisited(c: Components, d: Components, id: EntityId, fired: bool, vel: Vec, found: bool, nearest: EntityId)
    requires Shape(c) && ShootVisit(c, d, id, fired, vel, found, nearest) && (fired ==> !Taken(c, Coming(c)))
    ensures Shape(d) && ShotOne(Records(c), Records(d), id, fired, vel)
  {
    if !Takes(c, id) {
      PassVisited(c, id, vel);
    } else {
      FiringDecided(c, d, id, fired, vel, found, nearest);
      if fired {
        ShotVisited(c, WithBullet(CooledBy(c, id), id, Get(c.position, id, ORIGIN), vel), d, id, vel);
      } else {
        WaitVisited(c, id, vel);
      }
    }
  }

  lemma CooledNearest(c: Components, id: EntityId, pos: Vec, found: bool, nearest: EntityId)
    requires IsNearest(CooledBy(c, id), id, pos, found, nearest)
    ensures IsNearest(c, id, pos, found, nearest)
  {
    forall x: EntityId
      ensures Target(c, id, pos, x) <==> Target(CooledBy(c, id), id, pos, x)
    {
    }
  }

  /** The cooldown of the actor does not matter to the search. */
  lemma CooledDecides(c: Components, d: Components, id: EntityId, fired: bool, vel: Vec, found: bool, nearest: EntityId)
    requires Takes(c, id) && Get(c.cooldown, id, 0) <= 1 && ShootVisit(c, d, id, fired, vel, found, nearest)
    ensures var pos := Get(c.position, id, ORIGIN);
      && IsNearest(c, id, pos, found, nearest)
      && fired == (found && DistSq(pos, Get(c.position, nearest, ORIGIN)) >= TOUCHING)
      && (fired ==> Towards(pos, Get(c.position, nearest, ORIGIN), vel))
  {
    CooledNearest(c, id, Get(c.position, id, ORIGIN), found, nearest);
  }

  lemma FiringDecided(c: Components, d: Components, id: EntityId, fired: bool, vel: Vec, found: bool, nearest: EntityId)
    requires Shape(c) && Takes(c, id) && ShootVisit(c, d, id, fired, vel, found, nearest)
    ensures id in c.health && fired == Fires(Records(c).actors, id)
  {
    assert ShapeAt(c, id);
    if Get(c.cooldown, id, 0) <= 1 {
      CooledDecides(c, d, id, fired, vel, found, nearest);
      RunOutDecides(c, id, fired, found, nearest);
    }
  }

  lemma RunOutDecides(c: Components, id: EntityId, fired: bool, found: bool, nearest: EntityId)
    requires Shape(c) && Takes(c, id) && id in c.health && Get(c.cooldown, id, 0) <= 1
    requires IsNearest(c, id, Get(c.position, id, ORIGIN), found, nearest)
    requires fired == (found && DistSq(Get(c.position, id, ORIGIN), Get(c.position, nearest, ORIGIN)) >= TOUCHING)
    ensures fired == Fires(Records(c).actors, id)
  {
    NearestDecides(c, id, found, nearest);
  }

  lemma VisitAims(s: Components, c: Components, d: Components, todo: set<EntityId>, shot: seq<EntityId>, vels: seq<Vec>,
      id: EntityId, vel: Vec, found: bool, nearest: EntityId)
    requires ShootLoop(s, c, todo, shot, vels) && id in todo && ShootVisit(c, d, id, true, vel, found, nearest)
    ensures Aimed(Records(s).actors, id, vel)
  {
    assert ShapeAt(c, id);
    CooledDecides(c, d, id, true, vel, found, nearest);
    NearestIsAimed(c, id, nearest, vel);
    AimsOnItsOwn(Records(s).actors, Records(c).actors, todo, id, vel);
  }

  lemma AimsOneMore(actors: map<EntityId, Actor>, shot: seq<EntityId>, vels: seq<Vec>, id: EntityId, vel: Vec)
    requires AllAimed(actors, shot, vels) && Aimed(actors, id, vel)
    ensures AllAimed(actors, shot + [id], vels + [vel])
  {
  }

  lemma ShootBegins(c: Components)
    requires Shape(c)
    ensures ShootLoop(c, c, c.entities, [], [])
  {
    EntitiesAreAll(c);
  }

  lemma ShootGoesOn(s: Components, c: Components, d: Components, todo: set<EntityId>, shot: seq<EntityId>, vels: seq<Vec>,
      id: EntityId, fired: bool, vel: Vec, found: bool, nearest: EntityId)
    requires ShootLoop(s, c, todo, shot, vels) && id in todo && ShootVisit(c, d, id, fired, vel, found, nearest) && (fired ==> !Taken(c, Coming(c)))
    ensures fired ==> ShootLoop(s, d, todo - {id}, shot + [id], vels + [vel])
    ensures !fired ==> ShootLoop(s, d, todo - {id}, shot, vels)
  {
    ShootVisited(c, d, id, fired, vel, found, nearest);
    ShotRound(Records(s), Records(c), Records(d), todo, shot, vels, id, fired, vel);
    if fired {
      VisitAims(s, c, d, todo, shot, vels, id, vel, found, nearest);
      AimsOneMore(Records(s).actors, shot, vels, id, vel);
    }
  }

  lemma ShotByAll(w: World, v: World, shot: seq<EntityId>, vels: seq<Vec>)
    requires ShotBut(w, v, {}, shot, vels) && AllAimed(w.actors, shot, vels)
    ensures AutoShootRuns(w, v)
  {
    assert v.actors == map a | a in w.actors :: Cooled(w.actors, a);
    assert Shoots(w, v, shot, vels);
  }

  lemma ShootEnds(s: Components, c: Components, shot: seq<EntityId>, vels: seq<Vec>)
    requires ShootLoop(s, c, {}, shot, vels)
    ensures AutoShootRuns(Records(s), Records(c))
  {
    ShotByAll(Records(s), Records(c), shot, vels);
  }

  /** A volley at a good pace issues no id in use. */
  lemma ShootPaced(s: Components, c: Components, d: Components, todo: set<EntityId>, shot: seq<EntityId>, vels: seq<Vec>,
      id: EntityId, vel: Vec, found: bool, nearest: EntityId)
    requires ShootLoop(s, c, todo, shot, vels) && id in todo && ShootVisit(c, d, id, true, vel, found, nearest)
    requires Births(Records(s)) && Paced(Records(s), d.count)
    ensures !Taken(c, Coming(c))
  {
    FiringDecided(c, d, id, true, vel, found, nearest);
    FiresOnItsOwn(Records(s).actors, Records(c).actors, todo, id);
    VolleyCount(Records(s), shot, vels);
    NextShotIsFresh(Records(s), Records(c), todo, shot, vels, id);
    TakenIsInUse(c, Coming(c));
    NextIsNext(c);
  }

  // ---------- Bullets ----------

  predicate FlyVisit(c: Components, d: Components, id: EntityId)
  {
    if Get(c.tag, id, 0) != BULLET then d == c
    else d == c.(
      position := c.position[id := Plus(Get(c.position, id, ORIGIN), Get(c.velocity, id, ORIGIN))],
      ttl := c.ttl[id := OneLess(Get(c.ttl, id, 0))])
  }

  ghost predicate FlyLoop(s: Components, c: Components, todo: set<EntityId>)
  {
    Shape(c) && FlownBut(Records(s), Records(c), todo)
  }

  lemma FlyBegins(c: Components)
    requires Shape(c)
    ensures FlyLoop(c, c, c.entities)
  {
    EntitiesAreAll(c);
  }

  lemma FlyVisited(c: Components, d: Components, id: EntityId)
    requires Shape(c) && FlyVisit(c, d, id)
    ensures Shape(d) && Records(d) == Records(c).(bullets := FlownAt(Records(c).bullets, id))
  {
    assert ShapeAt(c, id);
    if Get(c.tag, id, 0) == BULLET {
      BulletChanges(c, d, id, Plus(Get(c.position, id, ORIGIN), Get(c.velocity, id, ORIGIN)), OneLess(Get(c.ttl, id, 0)));
    }
  }

  lemma FlyGoesOn(s: Components, c: Components, d: Components, todo: set<EntityId>, id: EntityId)
    requires FlyLoop(s, c, todo) && id in todo && FlyVisit(c, d, id)
    ensures FlyLoop(s, d, todo - {id})
  {
    FlyVisited(c, d, id);
    FlyRound(Records(s), Records(c), Records(d), todo, id);
  }

  // ---------- Collisions ----------

  predicate CanStrike(c: Components, b: EntityId, a: EntityId)
  {
    && a in c.entities && Takes(c, a) && a != Get(c.owner, b, 0)
    && DistSq(Get(c.position, a, ORIGIN), Get(c.position, b, ORIGIN)) <= (BULLET_RADIUS + ACTOR_RADIUS) * (BULLET_RADIUS + ACTOR_RADIUS)
  }

  function Damaged(c: Components, a: EntityId): Components
  {
    var hp := Get(c.health, a, 0);
    if BULLET_DAMAGE >= hp then
      c.(health := c.health[a := 0], life := c.life[a := Fallen(Get(c.life, a, 0))], timer := c.timer[a := RESPAWN_TICKS])
    else c.(health := c.health[a := hp - BULLET_DAMAGE])
  }

  ghost predicate StrikeVisit(c: Components, d: Components, b: EntityId, hit: bool, a: EntityId)
  {
    if Get(c.tag, b, 0) != BULLET then !hit && d == c
    else if hit then CanStrike(c, b, a) && d == Damaged(c, a)
    else d == c && forall x :: !CanStrike(c, b, x)
  }

  ghost predicate StrikeLoop(s: Components, c: Components, todo: set<EntityId>, hits: map<EntityId, EntityId>)
  {
    Shape(c) && CollidedBut(Records(s), Records(c), todo, hits)
  }

  lemma StrikesAreHits(c: Components, b: EntityId, a: EntityId)
    requires Shape(c)
    ensures MayHit(Records(c), b, a) <==> Get(c.tag, b, 0) == BULLET && CanStrike(c, b, a)
  {
    assert ShapeAt(c, a) && ShapeAt(c, b);
  }

  lemma HealthFalls(c: Components, d: Components, a: EntityId, hp: Byte)
    requires Shape(c) && a in c.health && d == c.(health := c.health[a := hp])
    ensures Shape(d) && Records(d) == Records(c).(actors := Records(c).actors[a := ActorAt(c, a).(hp := hp)])
  {
    assert ShapeAt(c, a);
    ActorChanges(c, d, a);
  }

  lemma ActorFalls(c: Components, d: Components, a: EntityId, life: bv8)
    requires Shape(c) && a in c.health
    requires d == c.(health := c.health[a := 0], life := c.life[a := life], timer := c.timer[a := RESPAWN_TICKS])
    ensures Shape(d) && Records(d) == Records(c).(actors := Records(c).actors[a := ActorAt(c, a).(hp := 0, life := life, timer := Some(RESPAWN_TICKS))])
  {
    assert ShapeAt(c, a);
    ActorChanges(c, d, a);
  }

  lemma DamageStrikes(c: Components, a: EntityId)
    requires Shape(c) && a in c.health
    ensures Shape(Damaged(c, a)) && Records(Damaged(c, a)) == Records(c).(actors := Records(c).actors[a := Struck(Records(c).actors[a])])
  {
    assert ShapeAt(c, a);
    var hp := Get(c.health, a, 0);
    if BULLET_DAMAGE >= hp {
      ActorFalls(c, Damaged(c, a), a, Fallen(Get(c.life, a, 0)));
    } else {
      HealthFalls(c, Damaged(c, a), a, hp - BULLET_DAMAGE);
    }
  }

  lemma StrikeVisited(c: Components, d: Components, b: EntityId, hit: bool, a: EntityId)
    requires Shape(c) && StrikeVisit(c, d, b, hit, a)
    ensures Shape(d) && HitOne(Records(c), Records(d), b, hit, a)
  {
    forall x: EntityId
      ensures MayHit(Records(c), b, x) <==> Get(c.tag, b, 0) == BULLET && CanStrike(c, b, x)
    {
      StrikesAreHits(c, b, x);
    }
    if hit {
      assert MayHit(Records(c), b, a);
      DamageStrikes(c, a);
    }
  }

  lemma StrikeBegins(c: Components)
    requires Shape(c)
    ensures StrikeLoop(c, c, c.entities, map[])
  {
    EntitiesAreAll(c);
    forall a: EntityId
      ensures HitsOn(map[], a) == {}
    {
    }
  }

  lemma StrikeGoesOn(s: Components, c: Components, d: Components, todo: set<EntityId>, hits: map<EntityId, EntityId>, b: EntityId, hit: bool, a: EntityId)
    requires StrikeLoop(s, c, todo, hits) && b in todo && StrikeVisit(c, d, b, hit, a)
    ensures StrikeLoop(s, d, todo - {b}, if hit then hits[b := a] else hits) && b !in hits
  {
    StrikeVisited(c, d, b, hit, a);
    CollisionRound(Records(s), Records(c), Records(d), todo, hits, b, hit, a);
  }

  /** All but the listed bullets are left. */
  ghost predicate RemoveLoop(s: Components, c: Components, gone: set<EntityId>)
  {
    Shape(c) && Records(c) == Records(s).(bullets := Records(s).bullets - gone)
  }

  lemma RemoveGoesOn(s: Components, c: Components, gone: set<EntityId>, id: EntityId)
    requires RemoveLoop(s, c, gone) && id in Records(s).bullets && id !in gone
    ensures RemoveLoop(s, Without(c, id), gone + {id})
  {
    assert id in Records(c).bullets;
    BulletLeaves(c, id);
    assert Records(s).bullets - gone - {id} == Records(s).bullets - (gone + {id});
  }

  lemma StrikeEnds(s: Components, c: Components, d: Components, hits: map<EntityId, EntityId>)
    requires StrikeLoop(s, c, {}, hits) && RemoveLoop(c, d, hits.Keys)
    ensures CollisionRuns(Records(s), Records(d))
  {
    CollisionEnds(Records(s), Records(c), Records(d), hits);
  }

  lemma CleanupEnds(s: Components, d: Components, gone: set<EntityId>)
    requires RemoveLoop(s, d, gone) && forall b :: b in gone <==> b in Records(s).bullets && Records(s).bullets[b].ttl == 0
    ensures CleanupRuns(Records(s), Records(d))
  {
    var bullets := Records(s).bullets;
    assert bullets - gone == map b | b in bullets && bullets[b].ttl != 0 :: bullets[b];
  }
}
