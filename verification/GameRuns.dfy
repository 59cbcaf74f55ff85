/** What holds over every run of the game. */
module GameRuns {
  import opened Ids
  import opened GameWorld
  import opened GameInvariants
  import opened Folding

  // ---------- Damage ----------

  /** The health of all actors with an id below n. */
  function HealthBelow(actors: map<EntityId, Actor>, n: nat): nat
    requires n <= IDS
  {
    if n == 0 then 0 else HealthBelow(actors, n - 1) + HealthOf(actors, n - 1)
  }

  function TotalHealth(w: World): nat
  {
    HealthBelow(w.actors, IDS)
  }

  function HitsBelow(hits: map<EntityId, EntityId>, n: nat): set<EntityId>
  {
    set b | b in hits && hits[b] < n
  }

  lemma {:induction false} DamageBelow(w: World, v: World, hits: map<EntityId, EntityId>, n: nat)
    requires ActorsSound(w.actors) && Collides(w, v, hits) && n <= IDS
    ensures HealthBelow(w.actors, n) == HealthBelow(v.actors, n) + BULLET_DAMAGE * |HitsBelow(hits, n)|
  {
    if n == 0 {
      assert HitsBelow(hits, 0) == {};
    } else {
      DamageBelow(w, v, hits, n - 1);
      HitsAdd(hits, n - 1);
      DamageTo(w, v, hits, n - 1);
    }
  }

  lemma HitsAdd(hits: map<EntityId, EntityId>, a: EntityId)
    ensures |HitsBelow(hits, a + 1)| == |HitsBelow(hits, a)| + |HitsOn(hits, a)|
  {
    assert HitsBelow(hits, a + 1) == HitsBelow(hits, a) + HitsOn(hits, a);
    assert HitsBelow(hits, a) !! HitsOn(hits, a);
  }

  function HealthOf(actors: map<EntityId, Actor>, a: EntityId): nat
  {
    if a in actors then actors[a].hp else 0
  }

  lemma DamageTo(w: World, v: World, hits: map<EntityId, EntityId>, a: EntityId)
    requires ActorsSound(w.actors) && Collides(w, v, hits)
    ensures HealthOf(w.actors, a) == HealthOf(v.actors, a) + BULLET_DAMAGE * |HitsOn(hits, a)|
  {
    if a in w.actors {
      HitActor(w, v, hits, a);
    } else {
      NoHitsOnStrangers(w, v, hits, a);
    }
  }

  lemma NoHitsOnStrangers(w: World, v: World, hits: map<EntityId, EntityId>, a: EntityId)
    requires Collides(w, v, hits) && a !in w.actors
    ensures HitsOn(hits, a) == {}
  {
    forall b | b in hits
      ensures hits[b] != a
    {
      assert MayHit(w, b, hits[b]);
    }
  }

  lemma SpentBullets(w: World, v: World, hits: map<EntityId, EntityId>)
    requires Collides(w, v, hits)
    ensures HitsBelow(hits, IDS) == w.bullets.Keys - v.bullets.Keys
  {
    forall b | b in hits
      ensures b in w.bullets
    {
      assert MayHit(w, b, hits[b]);
    }
  }

  /** Total health falls by exactly 20 for each bullet removed, whatever the order of the iteration. */
  lemma DamageIsConserved(w: World, v: World, hits: map<EntityId, EntityId>)
    requires ActorsSound(w.actors) && Collides(w, v, hits)
    ensures TotalHealth(w) == TotalHealth(v) + 20 * |w.bullets.Keys - v.bullets.Keys|
  {
    DamageBelow(w, v, hits, IDS);
    SpentBullets(w, v, hits);
  }

  // ---------- Population ----------

  function BulletsOf(w: World, owner: EntityId): set<EntityId>
  {
    set b | b in w.bullets && w.bullets[b].owner == owner
  }

  lemma {:induction false} SlotsBound(w: World, s: set<EntityId>, slots: set<int>)
    requires forall b :: b in s ==> b in w.bullets && w.bullets[b].ttl / 30 in slots
    requires forall b, c :: b in s && c in s && b != c ==> w.bullets[b].ttl / 30 != w.bullets[c].ttl / 30
    ensures |s| <= |slots|
    decreases |s|
  {
    if s != {} {
      var b :| b in s;
      SlotsBound(w, s - {b}, slots - {w.bullets[b].ttl / 30});
    }
  }

  /** Lives 30 ticks apart between 1 and 119 fall into four slots, one bullet each. */
  lemma AtMostFourBullets(w: World, owner: EntityId)
    requires Inv(w)
    ensures |BulletsOf(w, owner)| <= 4
  {
    var s := BulletsOf(w, owner);
    forall b, c | b in s && c in s && b != c
      ensures w.bullets[b].ttl / 30 != w.bullets[c].ttl / 30
    {
      assert Apart(w.bullets[b], w.bullets[c]);
    }
    SlotsBound(w, s, {0, 1, 2, 3});
  }

  // ---------- Ticks ----------

  ghost predicate StagesSound(s: Stages)
  {
    && Inv(s.start) && Inv(s.revived) && Inv(s.moved) && Core(s.fired) && Bullets(s.fired, 1, 120, 90)
    && Core(s.flown) && Bullets(s.flown, 0, 119, 89) && Core(s.struck) && Bullets(s.struck, 0, 119, 89) && Inv(s.end)
  }

  lemma PaceAtShooting(s: Stages)
    requires Ticks(s) && Paced(s.start, s.end.count)
    ensures Paced(s.moved, s.fired.count) && s.moved.count == s.start.count && s.moved.born == s.start.born
  {
    MovedIs(s.revived.actors, s.revived.inputs);
    assert s.moved.actors.Keys == s.start.actors.Keys && s.moved.bullets == s.start.bullets;
    forall id | InUse(s.moved, id)
      ensures InUse(s.start, id)
    {
    }
  }

  lemma TickKeeps(s: Stages)
    requires Inv(s.start) && Ticks(s) && Paced(s.start, s.end.count)
    ensures StagesSound(s)
  {
    RespawnKeeps(s.start, s.revived);
    InputMoveKeeps(s.revived, s.moved);
    PaceAtShooting(s);
    var shot, vels :| Shoots(s.moved, s.fired, shot, vels);
    ShootKeeps(s.moved, s.fired, shot, vels);
    BulletMoveKeeps(s.fired, s.flown);
    var hits :| Collides(s.flown, s.struck, hits);
    CollisionKeeps(s.flown, s.struck, hits);
    CleanupKeeps(s.struck, s.end);
  }

  lemma PressKeeps(w: World, v: World, session: nat, keys: bv32)
    requires Inv(w) && Happens(Press(session, keys), w, v)
    ensures Inv(v)
  {
    ActorsFrame(w, v, 1, 119, 89);
  }

  lemma SessionLeaves(w: World, v: World, session: nat)
    requires Inv(w) && Happens(Leave(session), w, v)
    ensures Inv(v)
  {
    if session in w.sessions {
      LeaveKeeps(w, w.sessions[session]);
    }
  }

  lemma HappensKeeps(e: Event, w: World, v: World)
    requires Inv(w) && Happens(e, w, v) && Paced(w, v.count)
    ensures Inv(v)
  {
    match e
    case Join(s, p) => JoinKeeps(w, s, p);
    case Leave(s) => SessionLeaves(w, v, s);
    case Press(s, k) => PressKeeps(w, v, s, k);
    case Tick(stages) => TickKeeps(stages);
  }

  /** Every world of a run keeps the invariant, and no owner has more than four bullets in it. */
  lemma {:induction false} EveryRunIsSound(ws: seq<World>, es: seq<Event>, i: nat)
    requires IsRun(ws, es) && PacedRun(ws) && i < |ws|
    ensures Inv(ws[i]) && forall o :: |BulletsOf(ws[i], o)| <= 4
  {
    if i == 0 {
      EmptyIsSound();
    } else {
      EveryRunIsSound(ws, es, i - 1);
      assert Happens(es[i - 1], ws[i - 1], ws[i - 1 + 1]);
      HappensKeeps(es[i - 1], ws[i - 1], ws[i]);
    }
    forall o: EntityId
      ensures |BulletsOf(ws[i], o)| <= 4
    {
      AtMostFourBullets(ws[i], o);
    }
  }

  // ---------- One entity through one tick ----------

  ghost predicate Played(s: Stages)
  {
    forall key :: Unfold(key) ==> Inv(s.start) && Ticks(s) && Paced(s.start, s.end.count)
  }

  lemma Plays(s: Stages)
    requires Played(s)
    ensures StagesSound(s) && Ticks(s) && Paced(s.moved, s.fired.count) && Paced(s.start, s.end.count)
    ensures s.moved.count == s.start.count && s.moved.born == s.start.born
  {
    assert Unfold(0);
    TickKeeps(s);
    PaceAtShooting(s);
  }

  /** What the volley of a tick leaves alone, and how new its bullets are. */
  ghost predicate Issues(w: World, v: World)
  {
    && v.actors.Keys == w.actors.Keys && w.count <= v.count
    && (forall a :: a in w.actors ==> v.actors[a] == w.actors[a].(cooldown := v.actors[a].cooldown))
    && (forall a :: a in w.actors && !Alive(w.actors[a].life) ==> v.actors[a] == w.actors[a])
    && (forall id :: InUse(w, id) ==> id in w.born && id in v.born && v.born[id] == w.born[id])
    && (forall b :: b in w.bullets ==> b in v.bullets && v.bullets[b] == w.bullets[b])
    && (forall b :: b in v.bullets && b !in w.bullets ==> b in v.born && v.born[b] > w.count && v.bullets[b].ttl == BULLET_TTL)
  }

  lemma ShotIssues(w: World, v: World)
    requires Inv(w) && AutoShootRuns(w, v) && Paced(w, v.count)
    ensures Issues(w, v)
  {
    var shot, vels :| Shoots(w, v, shot, vels);
    ShootKeeps(w, v, shot, vels);
    IssuesOf(w, v, shot);
  }

  lemma IssuesOf(w: World, v: World, shot: seq<EntityId>)
    requires VolleyDone(w, v.(actors := w.actors), shot) && v.actors == map a | a in w.actors :: Cooled(w.actors, a)
    ensures Issues(w, v)
  {
    VolleyIssues(w, v.(actors := w.actors), shot);
  }

  lemma VolleyIssues(w: World, u: World, shot: seq<EntityId>)
    requires VolleyDone(w, u, shot)
    ensures forall b :: b in u.bullets && b !in w.bullets ==> b in u.born && u.born[b] > w.count && u.bullets[b].ttl == BULLET_TTL
  {
    forall b | b in u.bullets && b !in w.bullets
      ensures b in u.born && u.born[b] > w.count && u.bullets[b].ttl == BULLET_TTL
    {
      assert OldOrFired(w, u, shot, b);
      var i: nat :| FiredAt(w, u, shot, b, i);
    }
  }

  /** What the rest of a tick does to an actor after its respawn timer ran. */
  ghost predicate SameOrStruck(a: Actor, b: Actor)
  {
    && b.tag == a.tag && b.session == a.session && Kind(b.life) == Kind(a.life)
    && (!Alive(a.life) ==> b == a)
    && (Alive(a.life) && !Alive(b.life) ==> b.timer == Some(RESPAWN_TICKS))
  }

  lemma CollisionOf(w: World, v: World, a: EntityId)
    requires ActorsSound(w.actors) && CollisionRuns(w, v) && a in w.actors
    ensures a in v.actors && SameOrStruck(w.actors[a], v.actors[a]) && Sound(v.actors[a])
  {
    var hits :| Collides(w, v, hits);
    HitActor(w, v, hits, a);
  }

  ghost predicate ActorAt(s: Stages, a: EntityId)
  {
    && a in s.start.actors && a in s.revived.actors && a in s.moved.actors && a in s.fired.actors
    && a in s.flown.actors && a in s.struck.actors && a in s.end.actors
  }

  ghost predicate ActorPath(s: Stages, a: EntityId)
  {
    && ActorAt(s, a) && Sound(s.start.actors[a]) && Sound(s.end.actors[a])
    && Waits(s.start.actors[a], s.revived.actors[a])
    && OnlyMoves(s.revived.actors[a], s.moved.actors[a])
    && s.flown.actors[a] == s.fired.actors[a] == s.moved.actors[a].(cooldown := s.fired.actors[a].cooldown)
    && (!Alive(s.moved.actors[a].life) ==> s.fired.actors[a] == s.moved.actors[a])
    && SameOrStruck(s.flown.actors[a], s.struck.actors[a]) && s.end.actors[a] == s.struck.actors[a]
  }

  lemma TickActor(s: Stages, a: EntityId)
    requires Played(s) && a in s.start.actors
    ensures ActorPath(s, a)
  {
    Plays(s);
    MovedIs(s.revived.actors, s.revived.inputs);
    ShotIssues(s.moved, s.fired);
    CollisionOf(s.flown, s.struck, a);
  }

  /** A tick keeps the births of the ids in use and removes no actor. */
  lemma TickBirths(s: Stages)
    requires Played(s)
    ensures s.end.actors.Keys == s.start.actors.Keys && s.end.count >= s.start.count
    ensures forall id :: InUse(s.start, id) ==> id in s.start.born && id in s.end.born && s.end.born[id] == s.start.born[id]
  {
    Plays(s);
    MovedIs(s.revived.actors, s.revived.inputs);
    ShotIssues(s.moved, s.fired);
    forall id | InUse(s.start, id)
      ensures InUse(s.moved, id)
    {
    }
  }

  ghost predicate BulletPath(s: Stages, b: EntityId)
  {
    && b in s.end.bullets
    && (b in s.start.bullets ==> s.start.bullets[b].ttl == s.end.bullets[b].ttl + 1 && s.start.bullets[b].owner == s.end.bullets[b].owner)
    && (b !in s.start.bullets ==> b in s.end.born && s.end.born[b] > s.start.count && s.end.bullets[b].ttl == BULLET_TTL - 1)
  }

  lemma LaterBullets(s: Stages, b: EntityId)
    requires Played(s) && b in s.end.bullets
    ensures b in s.fired.bullets && s.end.bullets[b] == Flown(s.fired.bullets[b]) && s.end.born == s.fired.born
    ensures s.fired.bullets[b].ttl >= 1
  {
    Plays(s);
    var hits :| Collides(s.flown, s.struck, hits);
    assert b in s.struck.bullets && b in s.flown.bullets;
  }

  lemma EarlierBullets(s: Stages)
    requires Played(s)
    ensures s.moved.bullets == s.start.bullets && s.moved.count == s.start.count && Issues(s.moved, s.fired)
  {
    Plays(s);
    ShotIssues(s.moved, s.fired);
  }

  lemma TickBullet(s: Stages, b: EntityId)
    requires Played(s) && b in s.end.bullets
    ensures BulletPath(s, b)
  {
    EarlierBullets(s);
    LaterBullets(s, b);
  }

  // ---------- One entity through one event ----------

  /** An event of a run that keeps the pace, and the world before it. */
  ghost predicate Occurs(e: Event, w: World, v: World)
  {
    && (forall key :: Unfold(key) ==> Inv(w) && Happens(e, w, v) && Paced(w, v.count))
    && (e.Tick? ==> Played(e.stages) && e.stages.start == w && e.stages.end == v)
  }

  /** What an event other than a tick does to the entities. */
  ghost predicate Quiet(e: Event, w: World, v: World)
  {
    && v.bullets == w.bullets && w.count <= v.count
    && (forall id :: id in v.born && v.born[id] <= w.count ==> id in w.born && w.born[id] == v.born[id])
    && (forall a :: a in v.actors && a in v.born && v.born[a] <= w.count ==> a in w.actors && v.actors[a] == w.actors[a])
  }

  lemma OthersAreQuiet(e: Event, w: World, v: World)
    requires Occurs(e, w, v) && !e.Tick?
    ensures Quiet(e, w, v)
  {
    assert Unfold(0);
  }

  /** Across an event, an id that is not newer than the event names the same entity. */
  lemma SameEntity(e: Event, w: World, v: World, id: EntityId)
    requires Occurs(e, w, v) && id in v.born && v.born[id] <= w.count && (id in v.bullets || id in v.actors)
    ensures id in w.born && w.born[id] == v.born[id]
    ensures id in v.bullets ==> id in w.bullets
    ensures id in v.actors ==> id in w.actors
  {
    if e.Tick? {
      TickBirths(e.stages);
      if id in v.bullets {
        TickBullet(e.stages, id);
      }
      assert InUse(w, id);
    } else {
      OthersAreQuiet(e, w, v);
    }
  }

  lemma CountStep(e: Event, w: World, v: World)
    requires Occurs(e, w, v)
    ensures w.count <= v.count
  {
    if e.Tick? {
      TickBirths(e.stages);
    } else {
      OthersAreQuiet(e, w, v);
    }
  }

  lemma BulletStep(e: Event, w: World, v: World, b: EntityId)
    requires Occurs(e, w, v) && b in v.bullets && b in v.born && v.born[b] <= w.count
    ensures b in w.bullets && w.bullets[b].owner == v.bullets[b].owner
    ensures w.bullets[b].ttl == v.bullets[b].ttl + if e.Tick? then 1 else 0
  {
    if e.Tick? {
      TickBullet(e.stages, b);
    } else {
      OthersAreQuiet(e, w, v);
    }
  }

  lemma ActorStep(e: Event, w: World, v: World, a: EntityId)
    requires Occurs(e, w, v) && a in v.actors && a in v.born && v.born[a] <= w.count
    ensures a in w.actors && (!e.Tick? ==> v.actors[a] == w.actors[a])
    ensures Kind(v.actors[a].life) == Kind(w.actors[a].life) && v.actors[a].tag == w.actors[a].tag && v.actors[a].session == w.actors[a].session
  {
    SameEntity(e, w, v, a);
    if e.Tick? {
      TickActor(e.stages, a);
      WaitsIsSound(w.actors[a], e.stages.revived.actors[a]);
    } else {
      OthersAreQuiet(e, w, v);
    }
  }

  // ---------- Clocks ----------

  ghost predicate Recorded(ws: seq<World>, es: seq<Event>)
  {
    && |ws| == |es| + 1
    && forall i {:trigger Step(i)} :: Step(i) && 0 <= i < |es| ==> Occurs(es[i], ws[i], ws[i + 1])
  }

  predicate Step(i: int)
  {
    true
  }

  ghost predicate BirthsKnown(w: World)
  {
    forall id :: id in w.actors || id in w.bullets ==> id in w.born && w.born[id] <= w.count
  }

  lemma BirthsAreKnown(w: World)
    requires Inv(w)
    ensures BirthsKnown(w)
  {
    forall id | id in w.actors || id in w.bullets
      ensures id in w.born && w.born[id] <= w.count
    {
      assert InUse(w, id);
    }
  }

  lemma EventOccurs(ws: seq<World>, es: seq<Event>, i: nat)
    requires IsRun(ws, es) && PacedRun(ws) && i < |es|
    ensures Occurs(es[i], ws[i], ws[i + 1])
  {
    EveryRunIsSound(ws, es, i);
    assert Happens(es[i], ws[i], ws[i + 1]);
    assert Paced(ws[i + 1 - 1], ws[i + 1].count);
  }

  lemma RunIsRecorded(ws: seq<World>, es: seq<Event>)
    requires IsRun(ws, es) && PacedRun(ws)
    ensures Recorded(ws, es)
  {
    forall i | Step(i) && 0 <= i < |es|
      ensures Occurs(es[i], ws[i], ws[i + 1])
    {
      EventOccurs(ws, es, i);
    }
  }

  /** The number of ticks from world i to world j. */
  function TickCount(es: seq<Event>, i: nat, j: nat): nat
    requires i <= j <= |es|
  {
    if i == j then 0 else TickCount(es, i, j - 1) + if es[j - 1].Tick? then 1 else 0
  }

  lemma {:induction false} CountGrows(ws: seq<World>, es: seq<Event>, i: nat, j: nat)
    requires Recorded(ws, es) && i <= j < |ws|
    ensures ws[i].count <= ws[j].count
  {
    if i < j {
      CountGrows(ws, es, i, j - 1);
      assert Step(j - 1);
      CountStep(es[j - 1], ws[j - 1], ws[j]);
    }
  }

  lemma {:induction false} BulletClock(ws: seq<World>, es: seq<Event>, i: nat, j: nat, b: EntityId)
    requires Recorded(ws, es) && i <= j < |ws| && b in ws[j].bullets && b in ws[j].born && ws[j].born[b] <= ws[i].count
    ensures b in ws[i].bullets && ws[i].bullets[b].owner == ws[j].bullets[b].owner
    ensures ws[i].bullets[b].ttl == ws[j].bullets[b].ttl + TickCount(es, i, j)
  {
    if i < j {
      CountGrows(ws, es, i, j - 1);
      assert Step(j - 1);
      SameEntity(es[j - 1], ws[j - 1], ws[j], b);
      BulletStep(es[j - 1], ws[j - 1], ws[j], b);
      BulletClock(ws, es, i, j - 1, b);
    }
  }

  lemma BulletFliesInTick(s: Stages, b: EntityId)
    requires Played(s) && b in s.end.bullets && b in s.start.bullets
    ensures var p, q := s.start.bullets[b], s.end.bullets[b];
      q.vel == p.vel && q.pos.x == p.pos.x + p.vel.x && q.pos.y == p.pos.y + p.vel.y
  {
    EarlierBullets(s);
    LaterBullets(s, b);
  }

  lemma BulletFliesInEvent(e: Event, w: World, v: World, b: EntityId)
    requires Occurs(e, w, v) && b in v.bullets && b in w.bullets
    ensures var p, q, n := w.bullets[b], v.bullets[b], if e.Tick? then 1.0 else 0.0;
      q.vel == p.vel && q.pos.x == p.pos.x + n * p.vel.x && q.pos.y == p.pos.y + n * p.vel.y
  {
    if e.Tick? {
      BulletFliesInTick(e.stages, b);
    } else {
      OthersAreQuiet(e, w, v);
    }
  }

  /** Where a bullet is after n ticks. */
  ghost predicate FliesTo(p: Bullet, q: Bullet, n: nat)
  {
    q.vel == p.vel && q.pos.x == p.pos.x + n as real * p.vel.x && q.pos.y == p.pos.y + n as real * p.vel.y
  }

  lemma FliesOn(p: Bullet, m: Bullet, q: Bullet, n: nat, k: nat)
    requires FliesTo(p, m, n) && FliesTo(m, q, k)
    ensures FliesTo(p, q, n + k)
  {
    assert (n + k) as real == n as real + k as real;
    assert (n as real + k as real) * p.vel.x == n as real * p.vel.x + k as real * p.vel.x;
    assert (n as real + k as real) * p.vel.y == n as real * p.vel.y + k as real * p.vel.y;
  }

  lemma {:induction false} FlightSoFar(ws: seq<World>, es: seq<Event>, i: nat, j: nat, b: EntityId)
    requires Recorded(ws, es) && i <= j < |ws| && b in ws[j].bullets && b in ws[j].born && ws[j].born[b] <= ws[i].count
    ensures b in ws[i].bullets && FliesTo(ws[i].bullets[b], ws[j].bullets[b], TickCount(es, i, j))
  {
    if i < j {
      CountGrows(ws, es, i, j - 1);
      assert Step(j - 1);
      SameEntity(es[j - 1], ws[j - 1], ws[j], b);
      FlightSoFar(ws, es, i, j - 1, b);
      BulletFliesInEvent(es[j - 1], ws[j - 1], ws[j], b);
      var k: nat := if es[j - 1].Tick? then 1 else 0;
      assert FliesTo(ws[j - 1].bullets[b], ws[j].bullets[b], k);
      FliesOn(ws[i].bullets[b], ws[j - 1].bullets[b], ws[j].bullets[b], TickCount(es, i, j - 1), k);
    }
  }

  /** A bullet flies straight: after n ticks it is where it started, plus n times its velocity. */
  lemma BulletsFlyStraight(ws: seq<World>, es: seq<Event>, i: nat, j: nat, b: EntityId)
    requires IsRun(ws, es) && PacedRun(ws) && i <= j < |ws| && b in ws[j].bullets && b in ws[j].born && ws[j].born[b] <= ws[i].count
    ensures b in ws[i].bullets && FliesTo(ws[i].bullets[b], ws[j].bullets[b], TickCount(es, i, j))
  {
    RunIsRecorded(ws, es);
    FlightSoFar(ws, es, i, j, b);
  }

  /** A bullet's time to live counts the ticks: it is one bullet from its first world to its last. */
  lemma BulletsCountTicks(ws: seq<World>, es: seq<Event>, i: nat, j: nat, b: EntityId)
    requires IsRun(ws, es) && PacedRun(ws) && i <= j < |ws| && b in ws[j].bullets && b in ws[j].born && ws[j].born[b] <= ws[i].count
    ensures b in ws[i].bullets && ws[i].bullets[b].owner == ws[j].bullets[b].owner
    ensures ws[i].bullets[b].ttl == ws[j].bullets[b].ttl + TickCount(es, i, j)
  {
    RunIsRecorded(ws, es);
    BulletClock(ws, es, i, j, b);
  }

  /** After 119 ticks no bullet is left that was there before: each was fired since. */
  lemma BulletsExpire(ws: seq<World>, es: seq<Event>, i: nat, j: nat, b: EntityId)
    requires IsRun(ws, es) && PacedRun(ws) && i <= j < |ws| && TickCount(es, i, j) >= 119 && b in ws[j].bullets
    ensures b in ws[j].born && ws[j].born[b] > ws[i].count
  {
    EveryRunIsSound(ws, es, j);
    BirthsAreKnown(ws[j]);
    EveryRunIsSound(ws, es, i);
    if ws[j].born[b] <= ws[i].count {
      BulletsCountTicks(ws, es, i, j, b);
    }
  }

  ghost predicate WaitingFor(w: World, a: EntityId, k: int)
  {
    a in w.actors && !Alive(w.actors[a].life) && Respawning(w.actors[a].life) && w.actors[a].hp == 0 && w.actors[a].timer == Some(k)
  }

  /** In all stages of a tick behind its start. */
  ghost predicate WaitingThrough(s: Stages, a: EntityId, k: int)
  {
    && WaitingFor(s.revived, a, k) && WaitingFor(s.moved, a, k) && WaitingFor(s.fired, a, k)
    && WaitingFor(s.flown, a, k) && WaitingFor(s.struck, a, k) && WaitingFor(s.end, a, k)
  }

  ghost predicate BackAlive(w: World, a: EntityId)
  {
    && a in w.actors && Alive(w.actors[a].life) && w.actors[a].hp == 100
    && 5.0 <= w.actors[a].pos.x <= 95.0 && 5.0 <= w.actors[a].pos.y <= 95.0
  }

  /** Through a tick a waiting actor keeps waiting, until the tick that finds its timer at 1. */
  lemma TickOfWaiting(s: Stages, a: EntityId, k: int)
    requires Played(s) && WaitingFor(s.start, a, k)
    ensures k > 1 ==> WaitingThrough(s, a, k - 1)
    ensures k == 1 ==> BackAlive(s.revived, a)
  {
    TickActor(s, a);
    LifeBits(s.start.actors[a].life);
  }

  /** One event of the wait. */
  lemma WaitStep(e: Event, w: World, v: World, a: EntityId, k: int)
    requires Occurs(e, w, v) && a in v.actors && a in v.born && v.born[a] <= w.count && WaitingFor(w, a, k)
    ensures !e.Tick? ==> WaitingFor(v, a, k)
    ensures e.Tick? && k > 1 ==> WaitingFor(v, a, k - 1)
  {
    if e.Tick? {
      TickOfWaiting(e.stages, a, k);
    } else {
      ActorStep(e, w, v, a);
    }
  }

  lemma {:induction false} WaitsOut(ws: seq<World>, es: seq<Event>, i: nat, j: nat, a: EntityId, k: int)
    requires Recorded(ws, es) && i <= j < |ws| && WaitingFor(ws[i], a, k) && TickCount(es, i, j) < k
    requires a in ws[j].actors && a in ws[j].born && ws[j].born[a] <= ws[i].count
    ensures WaitingFor(ws[j], a, k - TickCount(es, i, j))
  {
    if i < j {
      CountGrows(ws, es, i, j - 1);
      assert Step(j - 1);
      SameEntity(es[j - 1], ws[j - 1], ws[j], a);
      WaitsOut(ws, es, i, j - 1, a, k);
      WaitStep(es[j - 1], ws[j - 1], ws[j], a, k - TickCount(es, i, j - 1));
    }
  }

  lemma {:induction false} KindKept(ws: seq<World>, es: seq<Event>, i: nat, j: nat, a: EntityId)
    requires Recorded(ws, es) && i <= j < |ws| && a in ws[j].actors && a in ws[j].born && ws[j].born[a] <= ws[i].count
    ensures a in ws[i].actors && Kind(ws[i].actors[a].life) == Kind(ws[j].actors[a].life)
    ensures ws[i].actors[a].tag == ws[j].actors[a].tag && ws[i].actors[a].session == ws[j].actors[a].session
  {
    if i < j {
      CountGrows(ws, es, i, j - 1);
      assert Step(j - 1);
      SameEntity(es[j - 1], ws[j - 1], ws[j], a);
      ActorStep(es[j - 1], ws[j - 1], ws[j], a);
      KindKept(ws, es, i, j - 1, a);
    }
  }

  /** An actor keeps its kind bits, its tag and its session for as long as it is there. */
  lemma KindNeverChanges(ws: seq<World>, es: seq<Event>, i: nat, j: nat, a: EntityId)
    requires IsRun(ws, es) && PacedRun(ws) && i <= j < |ws| && a in ws[j].actors && a in ws[j].born && ws[j].born[a] <= ws[i].count
    ensures a in ws[i].actors && Kind(ws[i].actors[a].life) == Kind(ws[j].actors[a].life)
    ensures ws[i].actors[a].tag == ws[j].actors[a].tag && ws[i].actors[a].session == ws[j].actors[a].session
  {
    RunIsRecorded(ws, es);
    KindKept(ws, es, i, j, a);
  }

  /** An actor is struck down in the collision stage of a tick. */
  ghost predicate KilledIn(s: Stages, a: EntityId)
  {
    a in s.flown.actors && Alive(s.flown.actors[a].life) && a in s.struck.actors && !Alive(s.struck.actors[a].life)
  }

  lemma KilledWaits(s: Stages, a: EntityId)
    requires Played(s) && KilledIn(s, a)
    ensures WaitingFor(s.end, a, RESPAWN_TICKS)
  {
    Plays(s);
    TickBirths(s);
    assert a in s.start.actors;
    TickActor(s, a);
  }

  lemma KilledAtEnd(ws: seq<World>, es: seq<Event>, t: nat, a: EntityId)
    requires Recorded(ws, es) && t < |es| && es[t].Tick? && KilledIn(es[t].stages, a)
    ensures WaitingFor(ws[t + 1], a, RESPAWN_TICKS) && ws[t].count <= ws[t + 1].count
  {
    assert Step(t);
    assert Occurs(es[t], ws[t], ws[t + 1]);
    KilledWaits(es[t].stages, a);
    CountStep(es[t], ws[t], ws[t + 1]);
  }

  lemma KilledStillWaits(ws: seq<World>, es: seq<Event>, t: nat, j: nat, a: EntityId)
    requires Recorded(ws, es) && t < j < |es| && es[t].Tick? && KilledIn(es[t].stages, a)
    requires a in ws[j].actors && a in ws[j].born && ws[j].born[a] <= ws[t].count
    ensures TickCount(es, t + 1, j) < RESPAWN_TICKS ==> WaitingFor(ws[j], a, RESPAWN_TICKS - TickCount(es, t + 1, j))
  {
    KilledAtEnd(ws, es, t, a);
    if TickCount(es, t + 1, j) < RESPAWN_TICKS {
      WaitsOut(ws, es, t + 1, j, a, RESPAWN_TICKS);
    }
  }

  lemma TickIsPlayed(ws: seq<World>, es: seq<Event>, j: nat)
    requires Recorded(ws, es) && j < |es| && es[j].Tick?
    ensures Played(es[j].stages) && es[j].stages.start == ws[j]
  {
    assert Step(j);
    assert Occurs(es[j], ws[j], ws[j + 1]);
  }

  lemma KilledRevives(ws: seq<World>, es: seq<Event>, t: nat, j: nat, a: EntityId)
    requires Recorded(ws, es) && t < j < |es| && es[t].Tick? && es[j].Tick? && KilledIn(es[t].stages, a)
    requires a in ws[j].actors && a in ws[j].born && ws[j].born[a] <= ws[t].count
    ensures RevivesAt(es[j].stages, a, TickCount(es, t + 1, j) + 1)
  {
    KilledStillWaits(ws, es, t, j, a);
    TickIsPlayed(ws, es, j);
    if TickCount(es, t + 1, j) < RESPAWN_TICKS {
      TickOfWaiting(es[j].stages, a, RESPAWN_TICKS - TickCount(es, t + 1, j));
    }
  }

  /** The n-th tick behind the kill: dead throughout before the 180th, alive again in it. */
  ghost predicate RevivesAt(s: Stages, a: EntityId, n: nat)
  {
    && (n < 180 ==> WaitingThrough(s, a, 180 - n))
    && (n == 180 ==> BackAlive(s.revived, a))
  }

  /** An actor killed in tick t that stays is dead through all stages of the next 179 ticks, and revives in the 180th. */
  lemma KilledRevivesOnTime(ws: seq<World>, es: seq<Event>, t: nat, j: nat, a: EntityId)
    requires IsRun(ws, es) && PacedRun(ws) && t < j < |es| && es[t].Tick? && es[j].Tick? && KilledIn(es[t].stages, a)
    requires a in ws[j].actors && a in ws[j].born && ws[j].born[a] <= ws[t].count
    ensures RevivesAt(es[j].stages, a, TickCount(es, t + 1, j) + 1)
  {
    RunIsRecorded(ws, es);
    KilledRevives(ws, es, t, j, a);
  }
}
