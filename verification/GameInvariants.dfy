/** What every operation on the world keeps. */
module GameInvariants {
  import opened Ids
  import opened GameWorld

  // ---------- The invariant ----------

  /** An actor is alive with health, or waiting to respawn without; either way inside the map. */
  predicate Sound(a: Actor)
  {
    && InMap(a.pos) && (a.tag == PLAYER || a.tag == BOT)
    && if Alive(a.life) then !Respawning(a.life) && 20 <= a.hp <= 100 && a.hp % 20 == 0 && a.timer == None
       else Respawning(a.life) && a.hp == 0 && a.timer.Some? && 1 <= a.timer.value <= RESPAWN_TICKS
  }

  ghost predicate ActorsSound(actors: map<EntityId, Actor>)
  {
    forall a :: a in actors ==> Sound(actors[a])
  }

  ghost predicate SessionsSound(w: World)
  {
    forall s :: s in w.sessions ==> w.sessions[s] in w.actors && w.actors[w.sessions[s]].session == s
  }

  /** The last issue of an id in use is on record. */
  ghost predicate Births(w: World)
  {
    forall id :: InUse(w, id) ==> id in w.born && w.born[id] <= w.count && IdOf(w.born[id]) == id
  }

  ghost predicate Core(w: World)
  {
    ActorsSound(w.actors) && SessionsSound(w) && Births(w) && w.actors.Keys !! w.bullets.Keys
  }

  ghost predicate Lifetimes(w: World, low: nat, high: nat)
  {
    forall b :: b in w.bullets ==> low <= w.bullets[b].ttl <= high
  }

  /** A bullet was fired before its owner's cooldown began. */
  ghost predicate Capped(w: World, slack: nat)
  {
    forall b :: b in w.bullets && w.bullets[b].owner in w.actors ==>
      w.bullets[b].ttl <= slack + w.actors[w.bullets[b].owner].cooldown
  }

  predicate Apart(b: Bullet, c: Bullet)
  {
    b.owner == c.owner ==> b.ttl + SHOOT_COOLDOWN <= c.ttl || c.ttl + SHOOT_COOLDOWN <= b.ttl
  }

  /** Two bullets of one owner were fired at least one cooldown apart. */
  ghost predicate Spaced(bullets: map<EntityId, Bullet>)
  {
    forall b, c {:trigger Apart(bullets[b], bullets[c])} :: b in bullets && c in bullets && b != c ==> Apart(bullets[b], bullets[c])
  }

  ghost predicate Bullets(w: World, low: nat, high: nat, slack: nat)
  {
    Lifetimes(w, low, high) && Capped(w, slack) && Spaced(w.bullets)
  }

  /** What holds between the operations. */
  ghost predicate Inv(w: World)
  {
    Core(w) && Bullets(w, 1, 119, 89)
  }

  lemma EmptyIsSound()
    ensures Inv(EMPTY)
  {
  }

  // ---------- Fresh ids ----------

  lemma Residues(m: nat, n: nat)
    requires m < n < m + IDS
    ensures IdOf(m) != IdOf(n)
  {
    assert n - m == IDS * (n / IDS - m / IDS) + (IdOf(n) - IdOf(m));
  }

  /** An id that is issued at a good pace is not in use. */
  lemma IssuedIsFresh(w: World, n: nat, count: nat, id: EntityId)
    requires Births(w) && Paced(w, count) && w.count < n <= count && InUse(w, id)
    ensures IdOf(n) != id
  {
    Residues(w.born[id], n);
  }

  /** The pace is exact: the next id is one in use just when 65,536, or a multiple, separate the two issues. */
  lemma ReissuedExactly(w: World, id: EntityId)
    requires Births(w) && InUse(w, id)
    ensures NextId(w) == id <==> (w.count + 1 - w.born[id]) % IDS == 0
  {
  }

  // ---------- Respawn and input ----------

  /** Nothing but what a system may do to an actor that neither fires nor leaves. */
  ghost predicate SameButActors(w: World, v: World)
  {
    && v == w.(actors := v.actors, inputs := v.inputs) && v.actors.Keys == w.actors.Keys
    && forall a :: a in w.actors ==> v.actors[a].cooldown == w.actors[a].cooldown && v.actors[a].session == w.actors[a].session
  }

  lemma SameUse(w: World, v: World)
    requires Births(w) && v.born == w.born && v.count == w.count
    requires v.actors.Keys <= w.actors.Keys && v.bullets.Keys <= w.bullets.Keys
    requires forall b :: b in v.bullets ==> v.bullets[b].owner == w.bullets[b].owner
    ensures Births(v) && forall id :: InUse(v, id) ==> InUse(w, id)
  {
    forall id | InUse(v, id)
      ensures InUse(w, id)
    {
      if id !in v.actors && id !in v.bullets {
        var b :| b in v.bullets && v.bullets[b].owner == id;
        assert b in w.bullets && w.bullets[b].owner == id;
      }
    }
  }

  lemma ActorsFrame(w: World, v: World, low: nat, high: nat, slack: nat)
    requires Core(w) && Bullets(w, low, high, slack) && SameButActors(w, v) && ActorsSound(v.actors)
    ensures Core(v) && Bullets(v, low, high, slack)
  {
    SameUse(w, v);
  }

  lemma WaitsIsSound(a: Actor, b: Actor)
    requires Sound(a) && Waits(a, b)
    ensures Sound(b) && b.cooldown == a.cooldown && b.session == a.session && b.tag == a.tag && Kind(b.life) == Kind(a.life)
  {
    LifeBits(a.life);
  }

  lemma RespawnKeeps(w: World, v: World)
    requires Inv(w) && RespawnRuns(w, v)
    ensures Inv(v)
  {
    forall a | a in w.actors
      ensures Sound(v.actors[a]) && v.actors[a].cooldown == w.actors[a].cooldown && v.actors[a].session == w.actors[a].session
    {
      WaitsIsSound(w.actors[a], v.actors[a]);
    }
    ActorsFrame(w, v, 1, 119, 89);
  }

  /** Movement changes positions only, and only inside the map. */
  ghost predicate OnlyMoves(a: Actor, b: Actor)
  {
    b == a.(pos := b.pos) && (InMap(a.pos) ==> InMap(b.pos)) && (!Alive(a.life) ==> b == a)
  }

  lemma {:induction false} MovedIs(actors: map<EntityId, Actor>, inputs: seq<Input>)
    ensures Moved(actors, inputs).Keys == actors.Keys
    ensures forall a :: a in actors ==> OnlyMoves(actors[a], Moved(actors, inputs)[a])
  {
    if inputs != [] {
      MovedIs(actors, inputs[..|inputs| - 1]);
    }
  }

  /** One unit down or up an axis, stopping at the edges of the map. */
  function OneDown(v: real): real
  {
    if v - 1.0 < 0.0 then 0.0 else v - 1.0
  }

  function OneUp(v: real): real
  {
    if v + 1.0 > 100.0 then 100.0 else v + 1.0
  }

  /** What one input does to an actor, key by key: W (bit 0), A (bit 1), S (bit 2), D (bit 3). */
  ghost predicate MovesByKeys(keys: bv32, a: Actor, b: Actor)
  {
    && b == a.(pos := b.pos)
    && (keys & 1 != 0 && keys & 4 == 0 ==> b.pos.y == OneDown(a.pos.y))
    && (keys & 4 != 0 && keys & 1 == 0 ==> b.pos.y == OneUp(a.pos.y))
    && ((keys & 1 != 0) == (keys & 4 != 0) ==> b.pos.y == a.pos.y)
    && (keys & 2 != 0 && keys & 8 == 0 ==> b.pos.x == OneDown(a.pos.x))
    && (keys & 8 != 0 && keys & 2 == 0 ==> b.pos.x == OneUp(a.pos.x))
    && ((keys & 2 != 0) == (keys & 8 != 0) ==> b.pos.x == a.pos.x)
  }

  /** Only the living actor that the input names moves. */
  ghost predicate OneMoves(from: map<EntityId, Actor>, to: map<EntityId, Actor>, i: Input)
  {
    && to.Keys == from.Keys
    && (forall a :: a in from && (a != i.entity || from[a].life & 1 == 0) ==> to[a] == from[a])
    && (i.entity in from && from[i.entity].life & 1 != 0 ==> MovesByKeys(i.keys, from[i.entity], to[i.entity]))
  }

  lemma KeysMoveOne(actors: map<EntityId, Actor>, i: Input)
    requires ActorsSound(actors)
    ensures OneMoves(actors, MovedBy(actors, i), i)
  {
    if i.entity in actors && Alive(actors[i.entity].life) {
      KeysStep(actors[i.entity].pos, i.keys);
    }
  }

  lemma KeysStep(p: Vec, keys: bv32)
    requires InMap(p)
    ensures var q := Stepped(p, Direction(keys));
      && (keys & 1 != 0 && keys & 4 == 0 ==> q.y == OneDown(p.y)) && (keys & 4 != 0 && keys & 1 == 0 ==> q.y == OneUp(p.y))
      && ((keys & 1 != 0) == (keys & 4 != 0) ==> q.y == p.y)
      && (keys & 2 != 0 && keys & 8 == 0 ==> q.x == OneDown(p.x)) && (keys & 8 != 0 && keys & 2 == 0 ==> q.x == OneUp(p.x))
      && ((keys & 2 != 0) == (keys & 8 != 0) ==> q.x == p.x)
  {
  }

  /** The queue is served in the order of arrival, each input on the world the earlier ones left. */
  lemma InputsMoveInOrder(w: World, v: World, queue: seq<Input>)
    requires ActorsSound(w.actors) && InputMoveRuns(w, v)
    ensures w.inputs == [] ==> v == w
    ensures forall i :: w.inputs == queue + [i] ==>
              exists u :: InputMoveRuns(w.(inputs := queue), u) && OneMoves(u.actors, v.actors, i) && v == u.(actors := v.actors)
  {
    forall i | w.inputs == queue + [i]
      ensures exists u :: InputMoveRuns(w.(inputs := queue), u) && OneMoves(u.actors, v.actors, i) && v == u.(actors := v.actors)
    {
      LastInputMoves(w, v, queue, i);
    }
  }

  lemma LastInputMoves(w: World, v: World, queue: seq<Input>, i: Input)
    requires ActorsSound(w.actors) && InputMoveRuns(w, v) && w.inputs == queue + [i]
    ensures exists u :: InputMoveRuns(w.(inputs := queue), u) && OneMoves(u.actors, v.actors, i) && v == u.(actors := v.actors)
  {
    var u := w.(actors := Moved(w.actors, queue), inputs := []);
    assert (queue + [i])[..|queue|] == queue;
    MovedIs(w.actors, queue);
    KeysMoveOne(u.actors, i);
    assert InputMoveRuns(w.(inputs := queue), u);
  }

  lemma InputMoveKeeps(w: World, v: World)
    requires Inv(w) && InputMoveRuns(w, v)
    ensures Inv(v)
  {
    MovedIs(w.actors, w.inputs);
    forall a | a in w.actors
      ensures Sound(v.actors[a]) && v.actors[a].cooldown == w.actors[a].cooldown && v.actors[a].session == w.actors[a].session
    {
      assert OnlyMoves(w.actors[a], v.actors[a]);
    }
    ActorsFrame(w, v, 1, 119, 89);
  }

  // ---------- Shooting ----------

  predicate FiredAt(w: World, u: World, shot: seq<EntityId>, b: EntityId, i: nat)
  {
    && i < |shot| && b in u.bullets && b == IdOf(w.count + 1 + i) && b in u.born && u.born[b] == w.count + 1 + i
    && u.bullets[b].ttl == BULLET_TTL && u.bullets[b].owner == shot[i]
  }

  /** A bullet after the volley is an old one, or one of the shots. */
  ghost predicate OldOrFired(w: World, u: World, shot: seq<EntityId>, b: EntityId)
  {
    || (b in w.bullets && b in u.bullets && u.bullets[b] == w.bullets[b])
    || exists i: nat :: FiredAt(w, u, shot, b, i)
  }

  ghost predicate VolleyDone(w: World, u: World, shot: seq<EntityId>)
  {
    && u == w.(bullets := u.bullets, count := w.count + |shot|, born := u.born)
    && (forall b :: b in u.bullets ==> OldOrFired(w, u, shot, b))
    && (forall b :: b in w.bullets ==> b in u.bullets && u.bullets[b] == w.bullets[b])
    && forall id :: InUse(w, id) ==> id in w.born && id in u.born && u.born[id] == w.born[id]
  }

  lemma {:induction false} VolleyIs(w: World, shot: seq<EntityId>, vels: seq<Vec>, count: nat)
    requires |vels| == |shot| && forall a :: a in shot ==> a in w.actors
    requires Births(w) && Paced(w, count) && w.count + |shot| <= count
    ensures VolleyDone(w, Volley(w, shot, vels), shot)
  {
    if shot == [] {
      forall b | b in w.bullets
        ensures OldOrFired(w, w, shot, b)
      {
      }
    } else {
      var n := |shot| - 1;
      VolleyIs(w, shot[..n], vels[..n], count);
      assert forall a :: a in shot[..n] ==> a in shot;
      ShotExtends(w, Volley(w, shot[..n], vels[..n]), shot, vels[n], count);
    }
  }

  lemma ShotExtends(w: World, u: World, shot: seq<EntityId>, vel: Vec, count: nat)
    requires shot != [] && VolleyDone(w, u, shot[..|shot| - 1]) && shot[|shot| - 1] in w.actors
    requires Births(w) && Paced(w, count) && w.count + |shot| <= count
    ensures VolleyDone(w, SpawnBullet(u, shot[|shot| - 1], w.actors[shot[|shot| - 1]].pos, vel), shot)
  {
    var n := |shot| - 1;
    var v := SpawnBullet(u, shot[n], w.actors[shot[n]].pos, vel);
    var id := NextId(u);
    forall x | InUse(w, x)
      ensures x != id
    {
      IssuedIsFresh(w, w.count + |shot|, count, x);
    }
    forall b | b in w.bullets
      ensures b in v.bullets && v.bullets[b] == w.bullets[b]
    {
      assert InUse(w, b);
    }
    forall b | b in v.bullets
      ensures OldOrFired(w, v, shot, b)
    {
      if b == id {
        assert FiredAt(w, v, shot, b, n);
      } else {
        assert OldOrFired(w, u, shot[..n], b);
        if b !in w.bullets {
          var i: nat :| FiredAt(w, u, shot[..n], b, i);
          assert FiredAt(w, v, shot, b, i);
        }
      }
    }
  }

  lemma NewAndOldApart(w: World, u: World, shot: seq<EntityId>, b: EntityId, c: EntityId)
    requires Bullets(w, 1, 119, 89) && b in w.bullets && OldOrFired(w, u, shot, c) && c in u.bullets && c !in w.bullets
    requires forall a :: a in shot ==> a in w.actors && w.actors[a].cooldown <= 1
    ensures Apart(w.bullets[b], u.bullets[c]) && Apart(u.bullets[c], w.bullets[b])
  {
    var i: nat :| FiredAt(w, u, shot, c, i);
    assert shot[i] in shot;
  }

  lemma NewAndNewApart(w: World, u: World, shot: seq<EntityId>, b: EntityId, c: EntityId)
    requires OldOrFired(w, u, shot, b) && OldOrFired(w, u, shot, c) && b in u.bullets && c in u.bullets
    requires b !in w.bullets && c !in w.bullets && b != c
    requires forall i, j :: 0 <= i < j < |shot| ==> shot[i] != shot[j]
    ensures Apart(u.bullets[b], u.bullets[c])
  {
    var i: nat :| FiredAt(w, u, shot, b, i);
    var j: nat :| FiredAt(w, u, shot, c, j);
    assert i != j;
  }

  lemma VolleySpaced(w: World, u: World, shot: seq<EntityId>)
    requires Bullets(w, 1, 119, 89) && VolleyDone(w, u, shot)
    requires forall i, j :: 0 <= i < j < |shot| ==> shot[i] != shot[j]
    requires forall a :: a in shot ==> a in w.actors && w.actors[a].cooldown <= 1
    ensures Spaced(u.bullets)
  {
    forall b, c | b in u.bullets && c in u.bullets && b != c
      ensures Apart(u.bullets[b], u.bullets[c])
    {
      assert OldOrFired(w, u, shot, b) && OldOrFired(w, u, shot, c);
      if b in w.bullets && c !in w.bullets {
        NewAndOldApart(w, u, shot, b, c);
      } else if b !in w.bullets && c in w.bullets {
        NewAndOldApart(w, u, shot, c, b);
      } else if b !in w.bullets {
        NewAndNewApart(w, u, shot, b, c);
      }
    }
  }

  lemma VolleyCapped(w: World, v: World, shot: seq<EntityId>, b: EntityId)
    requires Bullets(w, 1, 119, 89) && b in v.bullets && OldOrFired(w, v, shot, b) && Lists(shot, w.actors)
    requires v.actors == map a | a in w.actors :: Cooled(w.actors, a)
    ensures 1 <= v.bullets[b].ttl <= 120
    ensures v.bullets[b].owner in v.actors ==> v.bullets[b].ttl <= 90 + v.actors[v.bullets[b].owner].cooldown
  {
    if !(b in w.bullets && v.bullets[b] == w.bullets[b]) {
      var i: nat :| FiredAt(w, v, shot, b, i);
      assert shot[i] in shot;
    }
  }

  lemma OwnerInUse(w: World, u: World, shot: seq<EntityId>, b: EntityId)
    requires b in u.bullets && OldOrFired(w, u, shot, b) && forall a :: a in shot ==> a in w.actors
    ensures InUse(w, u.bullets[b].owner)
  {
    if !(b in w.bullets && u.bullets[b] == w.bullets[b]) {
      var i: nat :| FiredAt(w, u, shot, b, i);
      assert shot[i] in shot;
    }
  }

  lemma VolleyBirths(w: World, u: World, shot: seq<EntityId>, count: nat)
    requires Core(w) && Paced(w, count) && w.count + |shot| <= count && VolleyDone(w, u, shot)
    requires forall a :: a in shot ==> a in w.actors
    ensures Births(u) && u.actors.Keys !! u.bullets.Keys
  {
    forall id | InUse(u, id)
      ensures InUse(w, id) || exists i: nat :: FiredAt(w, u, shot, id, i)
    {
      if id in u.bullets {
        assert OldOrFired(w, u, shot, id);
      } else if id !in u.actors {
        var b :| b in u.bullets && u.bullets[b].owner == id;
        OwnerInUse(w, u, shot, b);
      }
    }
    forall b | b in u.bullets
      ensures b !in u.actors
    {
      assert OldOrFired(w, u, shot, b);
      if b !in w.bullets {
        var i: nat :| FiredAt(w, u, shot, b, i);
        forall a | a in w.actors
          ensures a != b
        {
          IssuedIsFresh(w, w.count + 1 + i, count, a);
        }
      }
    }
  }

  lemma CooledIsSound(w: World, v: World)
    requires ActorsSound(w.actors) && v.actors == map a | a in w.actors :: Cooled(w.actors, a)
    ensures ActorsSound(v.actors) && forall a :: a in w.actors ==> v.actors[a] == w.actors[a].(cooldown := v.actors[a].cooldown)
  {
  }

  /** The cooldowns of the actors matter to nothing else. */
  lemma CooledKeeps(w: World, u: World, v: World)
    requires Core(w) && Births(u) && u.actors == w.actors && u.sessions == w.sessions && w.actors.Keys !! u.bullets.Keys
    requires v == u.(actors := map a | a in w.actors :: Cooled(w.actors, a))
    ensures Core(v)
  {
    CooledIsSound(w, v);
    SameUse(u, v);
  }

  lemma VolleyKeeps(w: World, u: World, shot: seq<EntityId>, count: nat)
    requires Inv(w) && Lists(shot, w.actors) && Paced(w, count) && w.count + |shot| <= count && VolleyDone(w, u, shot)
    ensures Births(u) && u.actors.Keys !! u.bullets.Keys && Spaced(u.bullets)
  {
    forall a | a in shot
      ensures a in w.actors && w.actors[a].cooldown <= 1
    {
      assert Fires(w.actors, a);
    }
    VolleySpaced(w, u, shot);
    VolleyBirths(w, u, shot, count);
  }

  lemma ShootKeeps(w: World, v: World, shot: seq<EntityId>, vels: seq<Vec>)
    requires Inv(w) && Shoots(w, v, shot, vels) && Paced(w, v.count)
    ensures Core(v) && Bullets(v, 1, 120, 90) && VolleyDone(w, v.(actors := w.actors), shot)
  {
    var u := Volley(w, shot, vels);
    VolleyCount(w, shot, vels);
    VolleyIs(w, shot, vels, v.count);
    assert u == v.(actors := w.actors);
    VolleyKeeps(w, u, shot, v.count);
    CooledKeeps(w, u, v);
    VolleyBullets(w, u, v, shot);
  }

  lemma VolleyBullets(w: World, u: World, v: World, shot: seq<EntityId>)
    requires Bullets(w, 1, 119, 89) && VolleyDone(w, u, shot) && Lists(shot, w.actors) && v.bullets == u.bullets && v.born == u.born
    requires v.actors == map a | a in w.actors :: Cooled(w.actors, a)
    ensures Lifetimes(v, 1, 120) && Capped(v, 90)
  {
    forall b | b in v.bullets
      ensures 1 <= v.bullets[b].ttl <= 120
      ensures v.bullets[b].owner in v.actors ==> v.bullets[b].ttl <= 90 + v.actors[v.bullets[b].owner].cooldown
    {
      OldOrFiredFrame(w, u, v, shot, b);
      VolleyCapped(w, v, shot, b);
    }
  }

  lemma OldOrFiredFrame(w: World, u: World, v: World, shot: seq<EntityId>, b: EntityId)
    requires OldOrFired(w, u, shot, b) && v.bullets == u.bullets && v.born == u.born
    ensures OldOrFired(w, v, shot, b)
  {
    if !(b in w.bullets && b in u.bullets && u.bullets[b] == w.bullets[b]) {
      var i: nat :| FiredAt(w, u, shot, b, i);
      assert FiredAt(w, v, shot, b, i);
    }
  }

  lemma {:induction false} VolleyCount(w: World, shot: seq<EntityId>, vels: seq<Vec>)
    requires |vels| == |shot| && forall a :: a in shot ==> a in w.actors
    ensures var u := Volley(w, shot, vels); u == w.(bullets := u.bullets, count := w.count + |shot|, born := u.born)
  {
    if shot != [] {
      var n := |shot| - 1;
      VolleyCount(w, shot[..n], vels[..n]);
    }
  }

  // ---------- Bullets in flight ----------

  lemma BulletMoveKeeps(w: World, v: World)
    requires Core(w) && Bullets(w, 1, 120, 90) && BulletMoveRuns(w, v)
    ensures Core(v) && Bullets(v, 0, 119, 89)
  {
    SameUse(w, v);
    forall b | b in w.bullets
      ensures v.bullets[b].ttl == w.bullets[b].ttl - 1 && v.bullets[b].owner == w.bullets[b].owner
    {
    }
    forall b, c | b in v.bullets && c in v.bullets && b != c
      ensures Apart(v.bullets[b], v.bullets[c])
    {
      assert Apart(w.bullets[b], w.bullets[c]);
    }
  }

  lemma CleanupKeeps(w: World, v: World)
    requires Core(w) && Bullets(w, 0, 119, 89) && CleanupRuns(w, v)
    ensures Inv(v)
  {
    SameUse(w, v);
  }

  // ---------- Collisions ----------

  /** As long as an actor lives each hit takes exactly 20, because its health is a multiple of 20. */
  lemma {:induction false} StruckIsSound(a: Actor, n: nat)
    requires Sound(a) && Alive(a.life) && (n > 0 ==> Alive(StruckTimes(a, n - 1).life))
    ensures var b := StruckTimes(a, n);
      Sound(b) && b.hp == a.hp - BULLET_DAMAGE * n && Kind(b.life) == Kind(a.life) && b == a.(hp := b.hp, life := b.life, timer := b.timer)
    ensures var b := StruckTimes(a, n); !Alive(b.life) ==> b.timer == Some(RESPAWN_TICKS)
  {
    if n > 0 {
      var p := StruckTimes(a, n - 1);
      if n > 1 {
        AliveBefore(StruckTimes(a, n - 2));
      }
      StruckIsSound(a, n - 1);
      LifeBits(p.life);
    }
  }

  lemma AliveBefore(a: Actor)
    requires Alive(Struck(a).life)
    ensures Alive(a.life)
  {
    LifeBits(a.life);
  }

  /** What the hits of one collision step do to an actor. */
  lemma HitActor(w: World, v: World, hits: map<EntityId, EntityId>, a: EntityId)
    requires ActorsSound(w.actors) && Collides(w, v, hits) && a in w.actors
    ensures var b, n := v.actors[a], |HitsOn(hits, a)|;
      && Sound(b) && b.hp == w.actors[a].hp - BULLET_DAMAGE * n && Kind(b.life) == Kind(w.actors[a].life)
      && b == w.actors[a].(hp := b.hp, life := b.life, timer := b.timer)
    ensures Alive(w.actors[a].life) && !Alive(v.actors[a].life) ==> v.actors[a].timer == Some(RESPAWN_TICKS)
    ensures !Alive(w.actors[a].life) ==> v.actors[a] == w.actors[a]
  {
    if Alive(w.actors[a].life) {
      StruckIsSound(w.actors[a], |HitsOn(hits, a)|);
    } else {
      forall b | b in hits
        ensures hits[b] != a
      {
        assert MayHit(w, b, hits[b]);
      }
      assert HitsOn(hits, a) == {};
    }
  }

  lemma CollisionKeeps(w: World, v: World, hits: map<EntityId, EntityId>)
    requires Core(w) && Bullets(w, 0, 119, 89) && Collides(w, v, hits)
    ensures Core(v) && Bullets(v, 0, 119, 89)
  {
    var u := w.(bullets := v.bullets);
    SameUse(w, u);
    HitKeepsActors(w, v, hits);
    ActorsFrame(u, v, 0, 119, 89);
  }

  lemma HitKeepsActors(w: World, v: World, hits: map<EntityId, EntityId>)
    requires ActorsSound(w.actors) && Collides(w, v, hits)
    ensures ActorsSound(v.actors)
    ensures forall a :: a in w.actors ==> v.actors[a].cooldown == w.actors[a].cooldown && v.actors[a].session == w.actors[a].session
  {
    forall a | a in w.actors
      ensures Sound(v.actors[a]) && v.actors[a].cooldown == w.actors[a].cooldown && v.actors[a].session == w.actors[a].session
    {
      HitActor(w, v, hits, a);
    }
  }

  // ---------- The outside ----------

  lemma JoinKeeps(w: World, session: nat, at: Vec)
    requires Inv(w) && InSpawnArea(at) && Paced(w, w.count + 1)
    ensures Inv(SpawnActor(w, session, PLAYER, at))
  {
    var v := SpawnActor(w, session, PLAYER, at);
    var id := NextId(w);
    forall x | InUse(w, x)
      ensures x != id
    {
      IssuedIsFresh(w, w.count + 1, w.count + 1, x);
    }
    assert Alive(0x01) && !Respawning(0x01);
    forall x | InUse(v, x)
      ensures x == id || InUse(w, x)
    {
    }
    assert forall b :: b in w.bullets ==> InUse(w, w.bullets[b].owner);
    assert id !in w.bullets by { assert id in w.bullets ==> InUse(w, id); }
    assert id !in w.actors by { assert id in w.actors ==> InUse(w, id); }
  }

  lemma LeaveKeeps(w: World, id: EntityId)
    requires Inv(w) && id in w.actors
    ensures Inv(RemoveActor(w, id))
  {
    SameUse(w, RemoveActor(w, id));
  }
}
