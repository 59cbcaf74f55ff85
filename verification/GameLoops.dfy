/** How far the loops of the systems have come, and why each round takes them further. */
module GameLoops {
  import opened Ids
  import opened GameWorld
  import opened GameInvariants
  import opened Components

  // ---------- Respawn ----------

  /** The actors that are still to come wait unchanged. */
  ghost predicate RespawnedBut(w: World, v: World, todo: set<EntityId>)
  {
    && v == w.(actors := v.actors) && v.actors.Keys == w.actors.Keys
    && forall a :: a in w.actors ==> if a in todo then v.actors[a] == w.actors[a] else Waits(w.actors[a], v.actors[a])
  }

  ghost predicate RespawnedOne(w: World, v: World, id: EntityId)
  {
    && v == w.(actors := v.actors) && v.actors.Keys == w.actors.Keys
    && (id in w.actors ==> Waits(w.actors[id], v.actors[id]))
    && forall a :: a in w.actors && a != id ==> v.actors[a] == w.actors[a]
  }

  lemma RespawnRound(w: World, u: World, v: World, todo: set<EntityId>, id: EntityId)
    requires RespawnedBut(w, u, todo) && id in todo && RespawnedOne(u, v, id)
    ensures RespawnedBut(w, v, todo - {id})
  {
  }

  // ---------- Shooting ----------

  /** An actor the search for the nearest rival takes into account. */
  predicate Target(c: Components, id: EntityId, pos: Vec, x: EntityId)
  {
    && x in c.entities && x != id && IsActorTag(Get(c.tag, x, 0)) && x in c.life && Alive(c.life[x])
    && DistSq(pos, Get(c.position, x, ORIGIN)) < MAX_FLOAT
  }

  lemma TargetsAreRivals(c: Components, id: EntityId, x: EntityId)
    requires Shape(c) && id in c.health
    ensures Target(c, id, Get(c.position, id, ORIGIN), x) <==> Rival(Records(c).actors, id, x)
  {
    assert ShapeAt(c, id) && ShapeAt(c, x);
  }

  /** The search found a nearest target, or there is none. */
  ghost predicate IsNearest(c: Components, id: EntityId, pos: Vec, found: bool, nearest: EntityId)
  {
    if found then
      && Target(c, id, pos, nearest)
      && forall x :: Target(c, id, pos, x) ==> DistSq(pos, Get(c.position, nearest, ORIGIN)) <= DistSq(pos, Get(c.position, x, ORIGIN))
    else forall x :: !Target(c, id, pos, x)
  }

  /** The test on the nearest target decides for all of them. */
  lemma NearestDecides(c: Components, id: EntityId, found: bool, nearest: EntityId)
    requires Shape(c) && id in c.health && Alive(Get(c.life, id, 0)) && Get(c.cooldown, id, 0) <= 1
    requires IsNearest(c, id, Get(c.position, id, ORIGIN), found, nearest)
    ensures Fires(Records(c).actors, id) <==>
      found && DistSq(Get(c.position, id, ORIGIN), Get(c.position, nearest, ORIGIN)) >= TOUCHING
  {
    var actors := Records(c).actors;
    var pos := Get(c.position, id, ORIGIN);
    forall x: EntityId
      ensures Target(c, id, pos, x) <==> Rival(actors, id, x)
    {
      TargetsAreRivals(c, id, x);
    }
    if found {
      assert Rival(actors, id, nearest);
    }
  }

  /** What the visit of one entity does. */
  ghost predicate ShotOne(w: World, v: World, id: EntityId, fired: bool, vel: Vec)
  {
    && fired == Fires(w.actors, id)
    && v == (if fired then SpawnBullet(w, id, w.actors[id].pos, vel) else w).(
      actors := if id in w.actors then w.actors[id := Cooled(w.actors, id)] else w.actors)
  }

  /** All actors but those still to come have had their turn. */
  ghost predicate ShotBut(w: World, v: World, todo: set<EntityId>, shot: seq<EntityId>, vels: seq<Vec>)
  {
    && |vels| == |shot| && (forall a :: a in shot ==> a in w.actors)
    && v == Volley(w, shot, vels).(actors := v.actors) && TurnsBut(w.actors, v.actors, todo)
    && (forall i, j :: 0 <= i < j < |shot| ==> shot[i] != shot[j])
    && forall a :: a in shot <==> Fires(w.actors, a) && a !in todo
  }

  ghost predicate TurnsBut(from: map<EntityId, Actor>, to: map<EntityId, Actor>, todo: set<EntityId>)
  {
    && to.Keys == from.Keys
    && forall a :: a in from ==> to[a] == if a in todo then from[a] else Cooled(from, a)
  }

  /** Whether an actor fires does not depend on the cooldowns of the others. */
  lemma FiresOnItsOwn(from: map<EntityId, Actor>, to: map<EntityId, Actor>, todo: set<EntityId>, id: EntityId)
    requires TurnsBut(from, to, todo) && id in todo
    ensures Fires(to, id) <==> Fires(from, id)
  {
    if id in from {
      forall b: EntityId
        ensures Rival(to, id, b) <==> Rival(from, id, b)
      {
      }
    }
  }

  lemma AimsOnItsOwn(from: map<EntityId, Actor>, to: map<EntityId, Actor>, todo: set<EntityId>, id: EntityId, vel: Vec)
    requires TurnsBut(from, to, todo) && id in todo && Aimed(to, id, vel)
    ensures Aimed(from, id, vel)
  {
    var r :| NearestRival(to, id, r) && Towards(to[id].pos, to[r].pos, vel);
    forall b: EntityId
      ensures Rival(to, id, b) <==> Rival(from, id, b)
    {
    }
    assert NearestRival(from, id, r);
  }

  lemma ShotRound(w: World, u: World, v: World, todo: set<EntityId>, shot: seq<EntityId>, vels: seq<Vec>, id: EntityId, fired: bool, vel: Vec)
    requires ShotBut(w, u, todo, shot, vels) && id in todo && ShotOne(u, v, id, fired, vel)
    ensures fired ==> ShotBut(w, v, todo - {id}, shot + [id], vels + [vel])
    ensures !fired ==> ShotBut(w, v, todo - {id}, shot, vels)
  {
    FiresOnItsOwn(w.actors, u.actors, todo, id);
    TurnTaken(w.actors, u.actors, v.actors, todo, id);
    if fired {
      assert (shot + [id])[..|shot|] == shot && (vels + [vel])[..|vels|] == vels;
    }
  }

  lemma TurnTaken(from: map<EntityId, Actor>, mid: map<EntityId, Actor>, to: map<EntityId, Actor>, todo: set<EntityId>, id: EntityId)
    requires TurnsBut(from, mid, todo) && id in todo && to == if id in mid then mid[id := Cooled(mid, id)] else mid
    ensures TurnsBut(from, to, todo - {id})
  {
    FiresOnItsOwn(from, mid, todo, id);
  }

  // ---------- Fresh ids during a volley ----------

  lemma {:induction false} FewShots(shot: seq<EntityId>, n: nat)
    requires (forall i, j :: 0 <= i < j < |shot| ==> shot[i] != shot[j]) && forall i :: 0 <= i < |shot| ==> shot[i] < n
    ensures |shot| <= n
  {
    var s := set i | 0 <= i < |shot| :: shot[i];
    SizeOf(shot);
    Bounded(s, n);
  }

  lemma {:induction false} SizeOf(shot: seq<EntityId>)
    requires forall i, j :: 0 <= i < j < |shot| ==> shot[i] != shot[j]
    ensures |set i | 0 <= i < |shot| :: shot[i]| == |shot|
  {
    if shot != [] {
      var n := |shot| - 1;
      SizeOf(shot[..n]);
      assert (set i | 0 <= i < |shot| :: shot[i]) == (set i | 0 <= i < n :: shot[..n][i]) + {shot[n]};
    }
  }

  lemma {:induction false} Bounded(s: set<EntityId>, n: nat)
    requires forall x :: x in s ==> x < n
    ensures |s| <= n
  {
    if n > 0 {
      if n <= IDS && n - 1 in s {
        Bounded(s - {n - 1}, n - 1);
      } else {
        Bounded(s, n - 1);
      }
    } else {
      assert s == {};
    }
  }

  predicate IssuedAt(w: World, n: nat, id: EntityId, i: int)
  {
    0 <= i < n && id == IdOf(w.count + 1 + i)
  }

  lemma SpawnUses(u: World, owner: EntityId, pos: Vec, vel: Vec, id: EntityId)
    requires owner in u.actors && InUse(SpawnBullet(u, owner, pos, vel), id)
    ensures InUse(u, id) || id == NextId(u)
  {
    var v := SpawnBullet(u, owner, pos, vel);
    if id !in v.actors && id !in v.bullets {
      var b :| b in v.bullets && v.bullets[b].owner == id;
      assert b == NextId(u) || (b in u.bullets && u.bullets[b].owner == id);
    }
  }

  lemma {:induction false} VolleyUses(w: World, shot: seq<EntityId>, vels: seq<Vec>, id: EntityId)
    requires |vels| == |shot| && (forall a :: a in shot ==> a in w.actors) && InUse(Volley(w, shot, vels), id)
    ensures InUse(w, id) || exists i :: IssuedAt(w, |shot|, id, i)
  {
    if shot != [] {
      var n := |shot| - 1;
      var u := Volley(w, shot[..n], vels[..n]);
      VolleyCount(w, shot[..n], vels[..n]);
      assert shot[n] in shot;
      SpawnUses(u, shot[n], w.actors[shot[n]].pos, vels[n], id);
      if id == NextId(u) {
        assert IssuedAt(w, |shot|, id, n);
      } else {
        VolleyUses(w, shot[..n], vels[..n], id);
        if !InUse(w, id) {
          var i :| IssuedAt(w, n, id, i);
          assert IssuedAt(w, |shot|, id, i);
        }
      }
    }
  }

  lemma NextIdDiffers(w: World, n: nat, x: EntityId)
    requires Births(w) && Paced(w, w.count + n + 1) && n < IDS
    requires InUse(w, x) || exists i :: IssuedAt(w, n, x, i)
    ensures x != IdOf(w.count + n + 1)
  {
    if InUse(w, x) {
      IssuedIsFresh(w, w.count + n + 1, w.count + n + 1, x);
    } else {
      var i :| IssuedAt(w, n, x, i);
      LaterShotDiffers(w, n, x, i);
    }
  }

  lemma LaterShotDiffers(w: World, n: nat, x: EntityId, i: int)
    requires IssuedAt(w, n, x, i) && n < IDS
    ensures x != IdOf(w.count + n + 1)
  {
    Residues(w.count + 1 + i, w.count + n + 1);
  }

  /** There are fewer shots so far than ids. */
  lemma ShotsLeaveRoom(w: World, v: World, todo: set<EntityId>, shot: seq<EntityId>, vels: seq<Vec>, id: EntityId)
    requires ShotBut(w, v, todo, shot, vels) && id in todo
    ensures |shot| < IDS
  {
    FewShots(shot + [id], IDS);
  }

  lemma UsedByVolley(w: World, v: World, todo: set<EntityId>, shot: seq<EntityId>, vels: seq<Vec>, x: EntityId)
    requires ShotBut(w, v, todo, shot, vels) && InUse(v, x)
    ensures InUse(w, x) || exists i :: IssuedAt(w, |shot|, x, i)
  {
    VolleyCount(w, shot, vels);
    SameUsers(Volley(w, shot, vels), v, x);
    VolleyUses(w, shot, vels, x);
  }

  /** The next shot of a volley at a good pace takes an id that is not in use. */
  lemma NextShotIsFresh(w: World, v: World, todo: set<EntityId>, shot: seq<EntityId>, vels: seq<Vec>, id: EntityId)
    requires Births(w) && Paced(w, w.count + |shot| + 1) && ShotBut(w, v, todo, shot, vels) && id in todo
    ensures v.count == w.count + |shot| && !InUse(v, NextId(v))
  {
    VolleyCount(w, shot, vels);
    ShotsLeaveRoom(w, v, todo, shot, vels, id);
    if InUse(v, NextId(v)) {
      UsedByVolley(w, v, todo, shot, vels, NextId(v));
      NextIdDiffers(w, |shot|, NextId(v));
    }
  }

  lemma SameUsers(u: World, v: World, x: EntityId)
    requires v == u.(actors := v.actors) && v.actors.Keys == u.actors.Keys && InUse(v, x)
    ensures InUse(u, x)
  {
  }

  // ---------- Bullets ----------

  function FlownAt(bullets: map<EntityId, Bullet>, id: EntityId): map<EntityId, Bullet>
  {
    if id in bullets then bullets[id := Flown(bullets[id])] else bullets
  }

  ghost predicate FlownBut(w: World, v: World, todo: set<EntityId>)
  {
    && v == w.(bullets := v.bullets) && v.bullets.Keys == w.bullets.Keys
    && (forall b :: b in w.bullets && b in todo ==> v.bullets[b] == w.bullets[b])
    && (forall b :: b in w.bullets && b !in todo ==> v.bullets[b] == Flown(w.bullets[b]))
  }

  lemma FlyRound(w: World, u: World, v: World, todo: set<EntityId>, id: EntityId)
    requires FlownBut(w, u, todo) && id in todo && v == u.(bullets := FlownAt(u.bullets, id))
    ensures FlownBut(w, v, todo - {id})
  {
  }

  lemma FlyEnds(w: World, v: World)
    requires FlownBut(w, v, {})
    ensures BulletMoveRuns(w, v)
  {
    var flown := map b | b in w.bullets :: Flown(w.bullets[b]);
    assert v.bullets == flown;
  }

  // ---------- Collisions ----------

  lemma {:induction false} StruckKeeps(a: Actor, n: nat)
    ensures StruckTimes(a, n).pos == a.pos && (Alive(StruckTimes(a, n).life) ==> Alive(a.life))
  {
    if n > 0 {
      StruckKeeps(a, n - 1);
      if Alive(StruckTimes(a, n).life) {
        AliveBefore(StruckTimes(a, n - 1));
      }
    }
  }

  ghost predicate StruckBy(from: map<EntityId, Actor>, to: map<EntityId, Actor>, hits: map<EntityId, EntityId>)
  {
    && to.Keys == from.Keys
    && (forall a :: a in from ==> to[a] == StruckTimes(from[a], |HitsOn(hits, a)|))
    && (forall a :: a in from && HitsOn(hits, a) != {} ==> Alive(StruckTimes(from[a], |HitsOn(hits, a)| - 1).life))
  }

  /** The bullets but those still to come have found whom they hit. */
  ghost predicate CollidedBut(w: World, v: World, todo: set<EntityId>, hits: map<EntityId, EntityId>)
  {
    && v == w.(actors := v.actors) && StruckBy(w.actors, v.actors, hits)
    && Possible(w, todo, hits) && Missed(v, todo, hits)
  }

  ghost predicate Possible(w: World, todo: set<EntityId>, hits: map<EntityId, EntityId>)
  {
    forall b :: b in hits ==> b !in todo && MayHit(w, b, hits[b])
  }

  ghost predicate Missed(v: World, todo: set<EntityId>, hits: map<EntityId, EntityId>)
  {
    forall b, a :: b !in todo && b !in hits ==> !MayHit(v, b, a)
  }

  /** What a visited bullet does: it hits somebody it may hit, or there is nobody. */
  ghost predicate HitOne(w: World, v: World, b: EntityId, hit: bool, a: EntityId)
  {
    if hit then MayHit(w, b, a) && v == w.(actors := w.actors[a := Struck(w.actors[a])])
    else v == w && forall x :: !MayHit(w, b, x)
  }

  lemma HitsOnMore(hits: map<EntityId, EntityId>, b: EntityId, a: EntityId, x: EntityId)
    requires b !in hits
    ensures |HitsOn(hits[b := a], x)| == |HitsOn(hits, x)| + if x == a then 1 else 0
  {
    assert HitsOn(hits[b := a], x) == HitsOn(hits, x) + if x == a then {b} else {};
  }

  lemma StruckMore(from: map<EntityId, Actor>, mid: map<EntityId, Actor>, hits: map<EntityId, EntityId>, b: EntityId, a: EntityId)
    requires StruckBy(from, mid, hits) && b !in hits && a in mid && Alive(mid[a].life)
    ensures StruckBy(from, mid[a := Struck(mid[a])], hits[b := a])
  {
    var to := mid[a := Struck(mid[a])];
    forall x | x in from
      ensures to[x] == StruckTimes(from[x], |HitsOn(hits[b := a], x)|)
      ensures HitsOn(hits[b := a], x) != {} ==> Alive(StruckTimes(from[x], |HitsOn(hits[b := a], x)| - 1).life)
    {
      HitsOnMore(hits, b, a, x);
    }
  }

  /** A hit that is possible now was possible at the start. */
  lemma MayHitBefore(w: World, u: World, hits: map<EntityId, EntityId>, b: EntityId, a: EntityId)
    requires u == w.(actors := u.actors) && StruckBy(w.actors, u.actors, hits) && MayHit(u, b, a)
    ensures MayHit(w, b, a)
  {
    StruckKeeps(w.actors[a], |HitsOn(hits, a)|);
  }

  /** A further hit opens no possibility of a hit. */
  lemma HitClosesOnly(u: World, a: EntityId, b: EntityId, x: EntityId)
    requires a in u.actors && MayHit(u.(actors := u.actors[a := Struck(u.actors[a])]), b, x)
    ensures MayHit(u, b, x)
  {
    if x == a && Alive(Struck(u.actors[a]).life) {
      AliveBefore(u.actors[a]);
    }
  }

  lemma NothingOpens(u: World, v: World, todo: set<EntityId>, hits: map<EntityId, EntityId>, b: EntityId, a: EntityId)
    requires a in u.actors && Missed(u, todo, hits) && v == u.(actors := u.actors[a := Struck(u.actors[a])])
    ensures Missed(v, todo - {b}, hits[b := a])
  {
    forall c, x | MayHit(v, c, x)
      ensures MayHit(u, c, x)
    {
      HitClosesOnly(u, a, c, x);
    }
  }

  lemma PossibleToo(w: World, todo: set<EntityId>, hits: map<EntityId, EntityId>, b: EntityId, a: EntityId)
    requires Possible(w, todo, hits) && MayHit(w, b, a)
    ensures Possible(w, todo - {b}, hits[b := a])
  {
  }

  lemma CollisionRound(w: World, u: World, v: World, todo: set<EntityId>, hits: map<EntityId, EntityId>, b: EntityId, hit: bool, a: EntityId)
    requires CollidedBut(w, u, todo, hits) && b in todo && HitOne(u, v, b, hit, a)
    ensures CollidedBut(w, v, todo - {b}, if hit then hits[b := a] else hits)
  {
    if hit {
      StruckMore(w.actors, u.actors, hits, b, a);
      MayHitBefore(w, u, hits, b, a);
      NothingOpens(u, v, todo, hits, b, a);
      PossibleToo(w, todo, hits, b, a);
    }
  }

  /** With the spent bullets gone the collision step is complete. */
  lemma CollisionEnds(w: World, u: World, v: World, hits: map<EntityId, EntityId>)
    requires CollidedBut(w, u, {}, hits) && v == u.(bullets := u.bullets - hits.Keys)
    ensures Collides(w, v, hits)
  {
    forall b, a | MayHit(v, b, a)
      ensures MayHit(u, b, a) && b !in hits
    {
    }
  }
}
