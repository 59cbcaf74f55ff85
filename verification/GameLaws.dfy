/** What the systems of the game do, in plain terms of the fields of actors and bullets. */
module GameLaws {
  import opened Ids
  import opened GameWorld
  import opened GameInvariants
  import opened GameLoops

  // ---------- Life bits ----------

  /** The low four bits of a life state are the state, the high four the kind. */
  lemma BitsOfLife(life: bv8)
    ensures Alive(life) <==> life % 2 == 1
    ensures Respawning(life) <==> life / 2 % 2 == 1
    ensures Kind(life) == life / 16 * 16
    ensures Woken(life) % 16 == 1 && Woken(life) / 16 == life / 16
    ensures Fallen(life) % 16 == 2 && Fallen(life) / 16 == life / 16
  {
  }

  // ---------- Distances ----------

  /** The square of the distance between two points, from both coordinates. */
  function Apart2(p: Vec, q: Vec): real
  {
    (p.x - q.x) * (p.x - q.x) + (p.y - q.y) * (p.y - q.y)
  }

  lemma DistanceIsPlain(p: Vec, q: Vec)
    ensures DistSq(p, q) == Apart2(p, q) == Apart2(q, p)
  {
    assert (q.x - p.x) * (q.x - p.x) == (p.x - q.x) * (p.x - q.x);
    assert (q.y - p.y) * (q.y - p.y) == (p.y - q.y) * (p.y - q.y);
  }

  lemma SquareBelow(d: real)
    requires -100.0 <= d <= 100.0
    ensures 0.0 <= d * d <= 10000.0
  {
    if d >= 0.0 {
      assert d * d <= 100.0 * d;
    } else {
      assert d * d == -d * -d;
      assert -d * -d <= 100.0 * -d;
    }
  }

  /** On the map no two points are too far apart for the search. */
  lemma MapIsSmall(p: Vec, q: Vec)
    requires InMap(p) && InMap(q)
    ensures DistSq(p, q) < MAX_FLOAT
  {
    SquareBelow(q.x - p.x);
    SquareBelow(q.y - p.y);
  }

  // ---------- Respawn ----------

  /** One tick of respawning, actor by actor. */
  ghost predicate RespawnsBy(a: Actor, b: Actor)
  {
    match a.timer
    case None => b == a
    case Some(k) =>
      if k > 1 then b == a.(timer := Some(k - 1))
      else
        && b == a.(pos := b.pos, hp := 100, life := b.life, timer := None)
        && b.life % 16 == 1 && b.life / 16 == a.life / 16
        && 5.0 <= b.pos.x <= 95.0 && 5.0 <= b.pos.y <= 95.0
  }

  lemma RespawnIsPlain(w: World, v: World)
    requires ActorsSound(w.actors) && RespawnRuns(w, v)
    ensures v == w.(actors := v.actors) && v.actors.Keys == w.actors.Keys
    ensures forall a :: a in w.actors ==> RespawnsBy(w.actors[a], v.actors[a])
  {
    forall a | a in w.actors
      ensures RespawnsBy(w.actors[a], v.actors[a])
    {
      BitsOfLife(w.actors[a].life);
    }
  }

  // ---------- Shooting ----------

  /** The i-th shot of a volley has left its bullet. */
  ghost predicate Left(w: World, u: World, owner: EntityId, vel: Vec, i: nat)
    requires owner in w.actors
  {
    var id := IdOf(w.count + 1 + i);
    id in u.bullets && u.bullets[id] == Bullet(w.actors[owner].pos, vel, 120, owner)
  }

  lemma SpawnLeaves(w: World, u: World, owner: EntityId, vel: Vec, i: nat)
    requires owner in w.actors && u.count == w.count + i
    ensures Left(w, SpawnBullet(u, owner, w.actors[owner].pos, vel), owner, vel, i)
  {
  }

  lemma SpawnSpares(w: World, u: World, owner: EntityId, vel: Vec, i: nat, next: EntityId, pos: Vec, away: Vec)
    requires owner in w.actors && Left(w, u, owner, vel, i) && w.count + i < u.count < w.count + IDS
    ensures Left(w, SpawnBullet(u, next, pos, away), owner, vel, i)
  {
    Residues(w.count + 1 + i, u.count + 1);
  }

  /** The bullet of the i-th shot. */
  lemma {:induction false} VolleyFires(w: World, shot: seq<EntityId>, vels: seq<Vec>, i: nat)
    requires |vels| == |shot| <= IDS && (forall a :: a in shot ==> a in w.actors) && i < |shot|
    ensures shot[i] in shot && Left(w, Volley(w, shot, vels), shot[i], vels[i], i)
    decreases |shot|
  {
    var n := |shot| - 1;
    assert shot[i] in shot && shot[n] in shot;
    var u := Volley(w, shot[..n], vels[..n]);
    VolleyCount(w, shot[..n], vels[..n]);
    if i < n {
      VolleyFires(w, shot[..n], vels[..n], i);
      SpawnSpares(w, u, shot[i], vels[i], i, shot[n], w.actors[shot[n]].pos, vels[n]);
    } else {
      SpawnLeaves(w, u, shot[n], vels[n], n);
    }
  }

  /** Somebody else lives, and nobody else who lives is on the same spot. */
  ghost predicate HasTarget(actors: map<EntityId, Actor>, a: EntityId)
    requires a in actors
  {
    && (exists r :: r in actors && r != a && actors[r].life % 2 == 1)
    && forall r :: r in actors && r != a && actors[r].life % 2 == 1 ==> Apart2(actors[a].pos, actors[r].pos) >= 0.000001
  }

  ghost predicate Due(actors: map<EntityId, Actor>, a: EntityId)
  {
    a in actors && actors[a].life % 2 == 1 && actors[a].cooldown <= 1 && HasTarget(actors, a)
  }

  lemma RivalIsPlain(actors: map<EntityId, Actor>, a: EntityId, r: EntityId)
    requires ActorsSound(actors) && a in actors
    ensures Rival(actors, a, r) <==> r in actors && r != a && actors[r].life % 2 == 1
    ensures r in actors ==> DistSq(actors[a].pos, actors[r].pos) == Apart2(actors[a].pos, actors[r].pos)
  {
    if r in actors {
      BitsOfLife(actors[r].life);
      MapIsSmall(actors[a].pos, actors[r].pos);
      DistanceIsPlain(actors[a].pos, actors[r].pos);
    }
  }

  lemma FiringIsPlain(actors: map<EntityId, Actor>, a: EntityId)
    requires ActorsSound(actors)
    ensures Fires(actors, a) <==> Due(actors, a)
  {
    if a in actors {
      BitsOfLife(actors[a].life);
      forall r: EntityId
        ensures Rival(actors, a, r) <==> r in actors && r != a && actors[r].life % 2 == 1
        ensures r in actors ==> DistSq(actors[a].pos, actors[r].pos) == Apart2(actors[a].pos, actors[r].pos)
      {
        RivalIsPlain(actors, a, r);
      }
      if Due(actors, a) {
        var r :| r in actors && r != a && actors[r].life % 2 == 1;
        assert Rival(actors, a, r);
      }
      if Fires(actors, a) {
        var r :| Rival(actors, a, r);
      }
    }
  }

  /** A bullet of the actor that was not there before. */
  predicate NewOf(w: World, v: World, a: EntityId, b: EntityId)
  {
    b in v.bullets && b !in w.bullets && v.bullets[b].owner == a
  }

  /** One turn of an actor: it fires and waits 30 ticks, or its cooldown goes on. */
  ghost predicate TakesTurn(w: World, v: World, a: EntityId)
    requires a in w.actors && a in v.actors
  {
    && v.actors[a] == w.actors[a].(cooldown := v.actors[a].cooldown)
    && (w.actors[a].life % 2 == 0 ==> v.actors[a].cooldown == w.actors[a].cooldown)
    && (w.actors[a].life % 2 == 1 ==> v.actors[a].cooldown == if Due(w.actors, a) then 30 else w.actors[a].cooldown - 1)
  }

  lemma TurnIsPlain(w: World, v: World, shot: seq<EntityId>, vels: seq<Vec>, a: EntityId)
    requires ActorsSound(w.actors) && Shoots(w, v, shot, vels) && a in w.actors
    ensures a in v.actors && TakesTurn(w, v, a)
  {
    FiringIsPlain(w.actors, a);
    BitsOfLife(w.actors[a].life);
  }

  lemma TurnsArePlain(w: World, v: World, shot: seq<EntityId>, vels: seq<Vec>)
    requires ActorsSound(w.actors) && Shoots(w, v, shot, vels)
    ensures v.actors.Keys == w.actors.Keys && forall a :: a in w.actors ==> TakesTurn(w, v, a)
  {
    forall a | a in w.actors
      ensures a in v.actors && TakesTurn(w, v, a)
    {
      TurnIsPlain(w, v, shot, vels, a);
    }
  }

  lemma ShotIdIsFresh(w: World, i: nat, count: nat)
    requires Inv(w) && Paced(w, count) && w.count + 1 + i <= count
    ensures IdOf(w.count + 1 + i) !in w.bullets
  {
    var id := IdOf(w.count + 1 + i);
    if id in w.bullets {
      assert InUse(w, id);
      IssuedIsFresh(w, w.count + 1 + i, count, id);
    }
  }

  lemma ShotIsNew(w: World, v: World, shot: seq<EntityId>, vels: seq<Vec>, i: nat)
    requires Inv(w) && Shoots(w, v, shot, vels) && Paced(w, v.count) && i < |shot|
    ensures shot[i] in w.actors && Left(w, v, shot[i], vels[i], i) && NewOf(w, v, shot[i], IdOf(w.count + 1 + i))
  {
    FewShots(shot, IDS);
    VolleyFires(w, shot, vels, i);
    VolleyCount(w, shot, vels);
    ShotIdIsFresh(w, i, v.count);
  }

  /** Exactly the actors that are due have a new bullet, and each has one. */
  lemma NewBulletsAreShots(w: World, v: World, shot: seq<EntityId>, vels: seq<Vec>, b: EntityId)
    requires Inv(w) && Shoots(w, v, shot, vels) && Paced(w, v.count) && b in v.bullets && b !in w.bullets
    ensures exists i :: IssuedAt(w, |shot|, b, i) && v.bullets[b].owner == shot[i]
  {
    ShootKeeps(w, v, shot, vels);
    assert OldOrFired(w, v.(actors := w.actors), shot, b);
    var i: nat :| FiredAt(w, v.(actors := w.actors), shot, b, i);
    assert IssuedAt(w, |shot|, b, i);
  }

  lemma OneShotEach(w: World, v: World, shot: seq<EntityId>, vels: seq<Vec>, b: EntityId, c: EntityId)
    requires Inv(w) && Shoots(w, v, shot, vels) && Paced(w, v.count)
    requires b in v.bullets && NewOf(w, v, v.bullets[b].owner, b) && NewOf(w, v, v.bullets[b].owner, c)
    ensures b == c
  {
    NewBulletsAreShots(w, v, shot, vels, b);
    NewBulletsAreShots(w, v, shot, vels, c);
    var i :| IssuedAt(w, |shot|, b, i) && v.bullets[b].owner == shot[i];
    var j :| IssuedAt(w, |shot|, c, j) && v.bullets[c].owner == shot[j];
  }

  /** The shot that a new bullet comes from. */
  lemma ShotOf(w: World, v: World, shot: seq<EntityId>, vels: seq<Vec>, b: EntityId) returns (i: nat)
    requires Inv(w) && Shoots(w, v, shot, vels) && Paced(w, v.count) && b in v.bullets && b !in w.bullets
    ensures i < |shot| && shot[i] in shot && shot[i] in w.actors && v.bullets[b] == Bullet(w.actors[shot[i]].pos, vels[i], 120, shot[i])
  {
    NewBulletsAreShots(w, v, shot, vels, b);
    i :| IssuedAt(w, |shot|, b, i) && v.bullets[b].owner == shot[i];
    ShotIsNew(w, v, shot, vels, i);
  }

  /** The velocity is 1.5 on the straight way from p to q. */
  ghost predicate HeadsFor(p: Vec, q: Vec, vel: Vec, dist: real)
  {
    dist > 0.0 && dist * dist == Apart2(p, q) && vel.x * dist == 1.5 * (q.x - p.x) && vel.y * dist == 1.5 * (q.y - p.y)
  }

  /** The velocity leads to a living rival than which no other is nearer. */
  ghost predicate AtNearest(actors: map<EntityId, Actor>, a: EntityId, vel: Vec)
    requires a in actors
  {
    exists r, dist ::
      && r in actors && r != a && actors[r].life % 2 == 1 && HeadsFor(actors[a].pos, actors[r].pos, vel, dist)
      && forall q :: q in actors && q != a && actors[q].life % 2 == 1 ==> Apart2(actors[a].pos, actors[r].pos) <= Apart2(actors[a].pos, actors[q].pos)
  }

  lemma AimIsPlain(actors: map<EntityId, Actor>, a: EntityId, vel: Vec)
    requires ActorsSound(actors) && Aimed(actors, a, vel)
    ensures AtNearest(actors, a, vel)
  {
    var r :| NearestRival(actors, a, r) && Towards(actors[a].pos, actors[r].pos, vel);
    var dist :| Heading(actors[a].pos, actors[r].pos, vel, dist);
    forall q: EntityId
      ensures Rival(actors, a, q) <==> q in actors && q != a && actors[q].life % 2 == 1
      ensures q in actors ==> DistSq(actors[a].pos, actors[q].pos) == Apart2(actors[a].pos, actors[q].pos)
    {
      RivalIsPlain(actors, a, q);
    }
    assert HeadsFor(actors[a].pos, actors[r].pos, vel, dist);
  }

  /** A new bullet: the owner was due, it starts where the owner stands, with 120 ticks to live. */
  lemma NewBulletIsPlain(w: World, v: World, shot: seq<EntityId>, vels: seq<Vec>, b: EntityId)
    requires Inv(w) && Shoots(w, v, shot, vels) && Paced(w, v.count) && b in v.bullets && b !in w.bullets
    ensures var a := v.bullets[b].owner;
      Due(w.actors, a) && v.bullets[b].pos == w.actors[a].pos && v.bullets[b].ttl == 120 && AtNearest(w.actors, a, v.bullets[b].vel)
  {
    var i := ShotOf(w, v, shot, vels, b);
    FiringIsPlain(w.actors, shot[i]);
    AimIsPlain(w.actors, shot[i], vels[i]);
  }

  lemma NewBulletsArePlain(w: World, v: World, shot: seq<EntityId>, vels: seq<Vec>)
    requires Inv(w) && Shoots(w, v, shot, vels) && Paced(w, v.count)
    ensures forall a, b :: NewOf(w, v, a, b) ==>
      Due(w.actors, a) && v.bullets[b].pos == w.actors[a].pos && v.bullets[b].ttl == 120 && AtNearest(w.actors, a, v.bullets[b].vel)
  {
    forall a, b | NewOf(w, v, a, b)
      ensures Due(w.actors, a) && v.bullets[b].pos == w.actors[a].pos && v.bullets[b].ttl == 120 && AtNearest(w.actors, a, v.bullets[b].vel)
    {
      NewBulletIsPlain(w, v, shot, vels, b);
    }
  }

  lemma DueHasShot(w: World, v: World, shot: seq<EntityId>, vels: seq<Vec>, a: EntityId)
    requires Inv(w) && Shoots(w, v, shot, vels) && Paced(w, v.count) && Due(w.actors, a)
    ensures exists b :: NewOf(w, v, a, b)
  {
    FiringIsPlain(w.actors, a);
    assert a in shot;
    var i :| 0 <= i < |shot| && shot[i] == a;
    ShotIsNew(w, v, shot, vels, i);
  }

  /** The volley of a tick, whatever the order of the iteration: everybody takes a turn; exactly
      the actors that are due get a new bullet, one each, on its way to the nearest living rival;
      the old bullets stay. */
  lemma VolleyIsPlain(w: World, v: World)
    requires Inv(w) && AutoShootRuns(w, v) && Paced(w, v.count)
    ensures v.actors.Keys == w.actors.Keys && forall a :: a in w.actors ==> TakesTurn(w, v, a)
    ensures forall a :: Due(w.actors, a) <==> exists b :: NewOf(w, v, a, b)
    ensures forall a, b, c :: NewOf(w, v, a, b) && NewOf(w, v, a, c) ==> b == c
    ensures forall a, b :: NewOf(w, v, a, b) ==> a in w.actors && v.bullets[b].pos == w.actors[a].pos && v.bullets[b].ttl == 120
    ensures forall a, b :: NewOf(w, v, a, b) ==> a in w.actors && AtNearest(w.actors, a, v.bullets[b].vel)
    ensures forall b :: b in w.bullets ==> b in v.bullets && v.bullets[b] == w.bullets[b]
  {
    var shot, vels :| Shoots(w, v, shot, vels);
    TurnsArePlain(w, v, shot, vels);
    NewBulletsArePlain(w, v, shot, vels);
    forall a | Due(w.actors, a)
      ensures exists b :: NewOf(w, v, a, b)
    {
      DueHasShot(w, v, shot, vels, a);
    }
    forall a, b, c | NewOf(w, v, a, b) && NewOf(w, v, a, c)
      ensures b == c
    {
      OneShotEach(w, v, shot, vels, b, c);
    }
    ShootKeeps(w, v, shot, vels);
  }

  // ---------- Flight and cleanup ----------

  lemma FlightIsPlain(w: World, v: World)
    requires Bullets(w, 1, 120, 90) && BulletMoveRuns(w, v)
    ensures v == w.(bullets := v.bullets) && v.bullets.Keys == w.bullets.Keys
    ensures forall b :: b in w.bullets ==>
      var p := w.bullets[b];
      v.bullets[b] == Bullet(Vec(p.pos.x + p.vel.x, p.pos.y + p.vel.y), p.vel, p.ttl - 1, p.owner)
  {
  }

  lemma CleanupIsPlain(w: World, v: World)
    requires CleanupRuns(w, v)
    ensures v == w.(bullets := v.bullets)
    ensures forall b :: (b in v.bullets <==> b in w.bullets && w.bullets[b].ttl != 0) && (b in v.bullets ==> v.bullets[b] == w.bullets[b])
  {
  }

  // ---------- Collisions ----------

  /** The bullet touches the actor: their centres are at most 0.3 + 0.5 apart. */
  ghost predicate Touches(b: Bullet, a: Actor)
  {
    Apart2(b.pos, a.pos) <= 0.64
  }

  lemma MayHitIsPlain(w: World, b: EntityId, a: EntityId)
    ensures MayHit(w, b, a) <==>
      b in w.bullets && a in w.actors && a != w.bullets[b].owner && w.actors[a].life % 2 == 1 && Touches(w.bullets[b], w.actors[a])
  {
    if b in w.bullets && a in w.actors {
      BitsOfLife(w.actors[a].life);
      DistanceIsPlain(w.actors[a].pos, w.bullets[b].pos);
      assert (BULLET_RADIUS + ACTOR_RADIUS) * (BULLET_RADIUS + ACTOR_RADIUS) == 0.64;
    }
  }

  lemma SpentBulletsTouched(w: World, v: World, hits: map<EntityId, EntityId>, b: EntityId)
    requires Collides(w, v, hits) && b in w.bullets
    ensures b in hits <==> b !in v.bullets
    ensures b in hits ==>
      && hits[b] in w.actors && hits[b] != w.bullets[b].owner
      && w.actors[hits[b]].life % 2 == 1 && Touches(w.bullets[b], w.actors[hits[b]])
  {
    if b in hits {
      assert MayHit(w, b, hits[b]);
      MayHitIsPlain(w, b, hits[b]);
    }
  }

  lemma LeftBulletsTouchNobody(w: World, v: World, hits: map<EntityId, EntityId>, b: EntityId, a: EntityId)
    requires Collides(w, v, hits) && b in v.bullets && a in v.actors && a != v.bullets[b].owner && v.actors[a].life % 2 == 1
    ensures !Touches(v.bullets[b], v.actors[a])
  {
    MayHitIsPlain(v, b, a);
  }

  /** What n hits make of an actor: 20 health less each; at 0 it falls, for 180 ticks. */
  ghost predicate HurtBy(a: Actor, b: Actor, n: nat)
  {
    && b == a.(hp := b.hp, life := b.life, timer := b.timer) && b.hp == a.hp - 20 * n
    && (n == 0 || b.hp > 0 ==> b == a.(hp := b.hp))
    && (n > 0 && b.hp == 0 ==> b.timer == Some(180) && b.life % 16 == 2 && b.life / 16 == a.life / 16)
  }

  lemma {:induction false} HurtTimes(a: Actor, n: nat)
    requires Sound(a) && Alive(a.life) && (n > 0 ==> Alive(StruckTimes(a, n - 1).life))
    ensures HurtBy(a, StruckTimes(a, n), n)
  {
    StruckIsSound(a, n);
    if n > 0 {
      var p := StruckTimes(a, n - 1);
      if n > 1 {
        AliveBefore(StruckTimes(a, n - 2));
      }
      StruckIsSound(a, n - 1);
      HurtTimes(a, n - 1);
      BitsOfLife(p.life);
    }
  }

  lemma HitsTakeTwenty(w: World, v: World, hits: map<EntityId, EntityId>, a: EntityId)
    requires ActorsSound(w.actors) && Collides(w, v, hits) && a in w.actors
    ensures a in v.actors && HurtBy(w.actors[a], v.actors[a], |set b | b in hits && hits[b] == a|)
  {
    HitActor(w, v, hits, a);
    assert HitsOn(hits, a) == set b | b in hits && hits[b] == a;
    if Alive(w.actors[a].life) {
      HurtTimes(w.actors[a], |HitsOn(hits, a)|);
    }
  }

  /** Every bullet removed touched the living actor, not its owner, that `hits` names; every
      bullet left touches nobody it could still hit; each actor is hurt by each of its hits. */
  lemma CollisionIsPlain(w: World, v: World, hits: map<EntityId, EntityId>)
    requires ActorsSound(w.actors) && Collides(w, v, hits)
    ensures forall b :: b in w.bullets ==>
      && (b in hits <==> b !in v.bullets)
      && (b in hits ==>
        hits[b] in w.actors && hits[b] != w.bullets[b].owner
        && w.actors[hits[b]].life % 2 == 1 && Touches(w.bullets[b], w.actors[hits[b]]))
    ensures forall b, a :: b in v.bullets && a in v.actors && a != v.bullets[b].owner && v.actors[a].life % 2 == 1 ==>
      !Touches(v.bullets[b], v.actors[a])
    ensures forall a :: a in w.actors ==>
      a in v.actors && HurtBy(w.actors[a], v.actors[a], |set b | b in hits && hits[b] == a|)
  {
    forall b | b in w.bullets
      ensures b in hits <==> b !in v.bullets
      ensures b in hits ==>
        && hits[b] in w.actors && hits[b] != w.bullets[b].owner
        && w.actors[hits[b]].life % 2 == 1 && Touches(w.bullets[b], w.actors[hits[b]])
    {
      SpentBulletsTouched(w, v, hits, b);
    }
    forall b, a | b in v.bullets && a in v.actors && a != v.bullets[b].owner && v.actors[a].life % 2 == 1
      ensures !Touches(v.bullets[b], v.actors[a])
    {
      LeftBulletsTouchNobody(w, v, hits, b, a);
    }
    forall a | a in w.actors
      ensures a in v.actors && HurtBy(w.actors[a], v.actors[a], |set b | b in hits && hits[b] == a|)
    {
      HitsTakeTwenty(w, v, hits, a);
    }
  }

  // ---------- Joining and leaving ----------

  /** A join adds one player at full health that may shoot at once; a leave takes the session's
      actor away; neither touches anything else. */
  lemma JoinIsPlain(w: World, v: World, session: nat, at: Vec)
    requires Inv(w) && Happens(Join(session, at), w, v) && Paced(w, v.count)
    ensures var id := (w.count + 1) % 65536;
      && id !in w.actors && v.actors == w.actors[id := Actor(at, 100, 1, 1, 0, None, session)]
      && v.sessions == w.sessions[session := id] && v.bullets == w.bullets && v.inputs == w.inputs
    ensures 5.0 <= at.x <= 95.0 && 5.0 <= at.y <= 95.0
  {
    if NextId(w) in w.actors {
      assert InUse(w, NextId(w));
      IssuedIsFresh(w, w.count + 1, w.count + 1, NextId(w));
    }
  }

  lemma LeaveIsPlain(w: World, v: World, session: nat)
    requires Inv(w) && Happens(Leave(session), w, v)
    ensures session !in w.sessions ==> v == w
    ensures session in w.sessions ==>
      v == w.(actors := w.actors - {w.sessions[session]}, sessions := w.sessions - {session})
  {
  }

  /** A key press is queued behind the others, for the actor of the session. */
  lemma PressIsPlain(w: World, v: World, session: nat, keys: bv32)
    requires Happens(Press(session, keys), w, v)
    ensures session !in w.sessions ==> v == w
    ensures session in w.sessions ==> v.inputs == w.inputs + [Input(w.sessions[session], keys)] && v == w.(inputs := v.inputs)
  {
  }
}
