/** The component maps of the game world, and the entities they stand for. */
module Components {
  import opened Ids
  import opened GameWorld

  /** One map per component, as the program keeps them, with the history of the issued ids. */
  datatype Components = Components(
    entities: set<EntityId>,
    position: map<EntityId, Vec>,
    health: map<EntityId, Byte>,
    life: map<EntityId, bv8>,
    velocity: map<EntityId, Vec>,
    ttl: map<EntityId, EntityId>,
    owner: map<EntityId, EntityId>,
    tag: map<EntityId, Byte>,
    cooldown: map<EntityId, int>,
    timer: map<EntityId, int>,
    sessionToEntity: map<nat, EntityId>,
    entityToSession: map<EntityId, nat>,
    inputs: seq<Input>,
    next: EntityId,
    count: nat,
    born: map<EntityId, nat>)

  lemma SameMaps(c: Components, d: Components)
    requires c.entities == d.entities && c.position == d.position && c.health == d.health && c.life == d.life && c.velocity == d.velocity
    requires c.ttl == d.ttl && c.owner == d.owner && c.tag == d.tag && c.cooldown == d.cooldown && c.timer == d.timer
    requires c.sessionToEntity == d.sessionToEntity && c.entityToSession == d.entityToSession && c.inputs == d.inputs
    requires c.next == d.next && c.count == d.count && c.born == d.born
    ensures c == d
  {
  }

  predicate IsActorTag(t: Byte)
  {
    t == PLAYER || t == BOT
  }

  /** A missing key reads as the zero value. */
  function Get<T>(m: map<EntityId, T>, id: EntityId, zero: T): T
  {
    if id in m then m[id] else zero
  }

  /** The component maps that hold an id are exactly those of one kind, or none. */
  ghost predicate ShapeAt(c: Components, x: EntityId)
  {
    && (x in c.entities <==> x in c.health || x in c.ttl) && !(x in c.health && x in c.ttl)
    && (x in c.tag <==> x in c.entities) && (x in c.position <==> x in c.entities)
    && (x in c.life <==> x in c.health) && (x in c.cooldown <==> x in c.health) && (x in c.entityToSession <==> x in c.health)
    && (x in c.velocity <==> x in c.ttl) && (x in c.owner <==> x in c.ttl)
    && (x in c.health ==> IsActorTag(c.tag[x])) && (x in c.ttl ==> c.tag[x] == BULLET)
    && (x in c.timer ==> x in c.health)
  }

  ghost predicate Shape(c: Components)
  {
    c.next == IdOf(c.count) && forall x {:trigger ShapeAt(c, x)} :: ShapeAt(c, x)
  }

  /** Each component map holds exactly the entities of its kind. */
  lemma ShapeIsKeySets(c: Components)
    requires Shape(c)
    ensures c.entities == c.tag.Keys == c.position.Keys == c.health.Keys + c.ttl.Keys
    ensures c.health.Keys == c.life.Keys == c.cooldown.Keys == c.entityToSession.Keys
    ensures c.velocity.Keys == c.ttl.Keys == c.owner.Keys && c.timer.Keys <= c.health.Keys
    ensures forall x :: x in c.tag ==> (x in c.health <==> IsActorTag(c.tag[x])) && (x in c.ttl <==> c.tag[x] == BULLET)
  {
    assert forall x :: x in c.entities ==> ShapeAt(c, x);
    assert forall x :: x in c.tag || x in c.position || x in c.health || x in c.ttl ==> ShapeAt(c, x);
    assert forall x :: x in c.life || x in c.cooldown || x in c.entityToSession || x in c.timer ==> ShapeAt(c, x);
    assert forall x :: x in c.velocity || x in c.owner ==> ShapeAt(c, x);
  }

  const ORIGIN := Vec(0.0, 0.0)

  function ActorAt(c: Components, id: EntityId): Actor
  {
    Actor(Get(c.position, id, ORIGIN), Get(c.health, id, 0), Get(c.life, id, 0), Get(c.tag, id, 0), Get(c.cooldown, id, 0),
      if id in c.timer then Some(c.timer[id]) else None, Get(c.entityToSession, id, 0))
  }

  function BulletAt(c: Components, id: EntityId): Bullet
  {
    Bullet(Get(c.position, id, ORIGIN), Get(c.velocity, id, ORIGIN), Get(c.ttl, id, 0), Get(c.owner, id, 0))
  }

  /** The entities the component maps stand for. */
  function Records(c: Components): World
  {
    World(map id | id in c.health :: ActorAt(c, id), map id | id in c.ttl :: BulletAt(c, id),
      c.sessionToEntity, c.inputs, c.count, c.born)
  }

  // ---------- Single changes ----------

  predicate UpdatedAt<T(==)>(m: map<EntityId, T>, n: map<EntityId, T>, id: EntityId)
  {
    n == m || (id in n && n == m[id := n[id]])
  }

  /** The maps of an actor changed at one id at most. */
  ghost predicate OneActor(c: Components, d: Components, id: EntityId)
  {
    && d == c.(position := d.position, health := d.health, life := d.life, cooldown := d.cooldown, timer := d.timer)
    && id in c.health && UpdatedAt(c.position, d.position, id) && UpdatedAt(c.health, d.health, id)
    && UpdatedAt(c.life, d.life, id) && UpdatedAt(c.cooldown, d.cooldown, id)
    && (d.timer == c.timer - {id} || UpdatedAt(c.timer, d.timer, id))
  }

  predicate SameActorAt(c: Components, d: Components, x: EntityId)
  {
    (x in d.health <==> x in c.health) && (x in c.health ==> ActorAt(d, x) == ActorAt(c, x))
  }

  predicate SameBulletAt(c: Components, d: Components, x: EntityId)
  {
    (x in d.ttl <==> x in c.ttl) && (x in c.ttl ==> BulletAt(d, x) == BulletAt(c, x))
  }

  lemma ActorsAgree(c: Components, d: Components, id: EntityId)
    requires id in d.health && forall x {:trigger SameActorAt(c, d, x)} :: x != id ==> SameActorAt(c, d, x)
    ensures Records(d).actors == Records(c).actors[id := ActorAt(d, id)]
  {
    var r := Records(c).actors[id := ActorAt(d, id)];
    forall x: EntityId
      ensures (x in d.health <==> x in r) && (x in r ==> ActorAt(d, x) == r[x])
    {
      assert x != id ==> SameActorAt(c, d, x);
    }
    assert Records(d).actors == r;
  }

  lemma ActorsSame(c: Components, d: Components)
    requires forall x {:trigger SameActorAt(c, d, x)} :: SameActorAt(c, d, x)
    ensures Records(d).actors == Records(c).actors
  {
    forall x: EntityId
      ensures (x in d.health <==> x in c.health) && (x in c.health ==> ActorAt(d, x) == ActorAt(c, x))
    {
      assert SameActorAt(c, d, x);
    }
    assert Records(d).actors == Records(c).actors;
  }

  lemma BulletsAgree(c: Components, d: Components, id: EntityId)
    requires id in d.ttl && forall x {:trigger SameBulletAt(c, d, x)} :: x != id ==> SameBulletAt(c, d, x)
    ensures Records(d).bullets == Records(c).bullets[id := BulletAt(d, id)]
  {
    var r := Records(c).bullets[id := BulletAt(d, id)];
    forall x: EntityId
      ensures (x in d.ttl <==> x in r) && (x in r ==> BulletAt(d, x) == r[x])
    {
      assert x != id ==> SameBulletAt(c, d, x);
    }
    assert Records(d).bullets == r;
  }

  lemma BulletsSame(c: Components, d: Components)
    requires forall x {:trigger SameBulletAt(c, d, x)} :: SameBulletAt(c, d, x)
    ensures Records(d).bullets == Records(c).bullets
  {
    forall x: EntityId
      ensures (x in d.ttl <==> x in c.ttl) && (x in c.ttl ==> BulletAt(d, x) == BulletAt(c, x))
    {
      assert SameBulletAt(c, d, x);
    }
    assert Records(d).bullets == Records(c).bullets;
  }

  lemma ActorChangesAt(c: Components, d: Components, id: EntityId, x: EntityId)
    requires ShapeAt(c, x) && ShapeAt(c, id) && OneActor(c, d, id)
    ensures ShapeAt(d, x) && SameBulletAt(c, d, x) && (x != id ==> SameActorAt(c, d, x))
  {
  }

  lemma ActorChanges(c: Components, d: Components, id: EntityId)
    requires Shape(c) && OneActor(c, d, id)
    ensures Shape(d) && Records(d) == Records(c).(actors := Records(c).actors[id := ActorAt(d, id)])
  {
    assert ShapeAt(c, id);
    forall x: EntityId
      ensures ShapeAt(d, x) && SameBulletAt(c, d, x) && (x != id ==> SameActorAt(c, d, x))
    {
      assert ShapeAt(c, x);
      ActorChangesAt(c, d, id, x);
    }
    ActorsAgree(c, d, id);
    BulletsSame(c, d);
  }

  lemma BulletChangesAt(c: Components, d: Components, id: EntityId, pos: Vec, ttl: EntityId, x: EntityId)
    requires ShapeAt(c, x) && ShapeAt(c, id) && id in c.ttl && d == c.(position := c.position[id := pos], ttl := c.ttl[id := ttl])
    ensures ShapeAt(d, x) && SameActorAt(c, d, x) && (x != id ==> SameBulletAt(c, d, x))
    ensures BulletAt(d, id) == BulletAt(c, id).(pos := pos, ttl := ttl)
  {
  }

  lemma BulletChanges(c: Components, d: Components, id: EntityId, pos: Vec, ttl: EntityId)
    requires Shape(c) && id in c.ttl && d == c.(position := c.position[id := pos], ttl := c.ttl[id := ttl])
    ensures Shape(d) && Records(d) == Records(c).(bullets := Records(c).bullets[id := BulletAt(c, id).(pos := pos, ttl := ttl)])
  {
    assert ShapeAt(c, id);
    BulletChangesAt(c, d, id, pos, ttl, id);
    forall x: EntityId
      ensures ShapeAt(d, x) && SameActorAt(c, d, x) && (x != id ==> SameBulletAt(c, d, x))
    {
      assert ShapeAt(c, x);
      BulletChangesAt(c, d, id, pos, ttl, x);
    }
    ActorsSame(c, d);
    BulletsAgree(c, d, id);
  }

  function Allocated(c: Components): Components
  {
    var id := (c.next + 1) % 65536;
    c.(next := id, entities := c.entities + {id}, count := c.count + 1, born := c.born[id := c.count + 1])
  }

  lemma NextIsNext(c: Components)
    requires c.next == IdOf(c.count)
    ensures Allocated(c).next == NextId(Records(c)) == IdOf(c.count + 1)
  {
  }

  /** The next id still stands for an entity, or owns a bullet. */
  ghost predicate Taken(c: Components, id: EntityId)
  {
    id in c.entities || exists b :: b in c.owner && c.owner[b] == id
  }

  lemma TakenIsInUse(c: Components, id: EntityId)
    requires Shape(c)
    ensures Taken(c, id) <==> InUse(Records(c), id)
  {
    assert ShapeAt(c, id);
    if b :| b in c.owner && c.owner[b] == id {
      assert ShapeAt(c, b);
      assert b in Records(c).bullets && Records(c).bullets[b].owner == id;
    }
    if b :| b in Records(c).bullets && Records(c).bullets[b].owner == id {
      assert ShapeAt(c, b);
    }
  }

  function WithActor(c: Components, session: nat, tag: Byte, pos: Vec): Components
  {
    var id := Allocated(c).next;
    Allocated(c).(
      position := c.position[id := pos], health := c.health[id := FULL_HEALTH], life := c.life[id := 0x01], tag := c.tag[id := tag],
      cooldown := c.cooldown[id := 0], sessionToEntity := c.sessionToEntity[session := id], entityToSession := c.entityToSession[id := session])
  }

  lemma ActorSpawnsAt(c: Components, session: nat, tag: Byte, pos: Vec, x: EntityId)
    requires ShapeAt(c, x) && ShapeAt(c, Allocated(c).next) && IsActorTag(tag) && Allocated(c).next !in c.entities
    ensures var d := WithActor(c, session, tag, pos); ShapeAt(d, x) && SameBulletAt(c, d, x) && (x != d.next ==> SameActorAt(c, d, x))
    ensures var d := WithActor(c, session, tag, pos); ActorAt(d, d.next) == Actor(pos, FULL_HEALTH, 0x01, tag, 0, None, session)
  {
  }

  lemma ActorSpawns(c: Components, session: nat, tag: Byte, pos: Vec)
    requires Shape(c) && IsActorTag(tag) && Allocated(c).next !in c.entities
    ensures var d := WithActor(c, session, tag, pos); Shape(d) && Records(d) == SpawnActor(Records(c), session, tag, pos)
  {
    var d := WithActor(c, session, tag, pos);
    NextIsNext(c);
    assert ShapeAt(c, d.next);
    ActorSpawnsAt(c, session, tag, pos, d.next);
    forall x: EntityId
      ensures ShapeAt(d, x) && SameBulletAt(c, d, x) && (x != d.next ==> SameActorAt(c, d, x))
    {
      assert ShapeAt(c, x);
      ActorSpawnsAt(c, session, tag, pos, x);
    }
    BulletsSame(c, d);
    ActorsAgree(c, d, d.next);
  }

  function WithBullet(c: Components, shooter: EntityId, pos: Vec, vel: Vec): Components
  {
    var id := Allocated(c).next;
    Allocated(c).(
      position := c.position[id := pos], velocity := c.velocity[id := vel], ttl := c.ttl[id := BULLET_TTL],
      owner := c.owner[id := shooter], tag := c.tag[id := BULLET])
  }

  lemma BulletSpawnsAt(c: Components, shooter: EntityId, pos: Vec, vel: Vec, x: EntityId)
    requires ShapeAt(c, x) && ShapeAt(c, Allocated(c).next) && Allocated(c).next !in c.entities
    ensures var d := WithBullet(c, shooter, pos, vel); ShapeAt(d, x) && SameActorAt(c, d, x) && (x != d.next ==> SameBulletAt(c, d, x))
    ensures var d := WithBullet(c, shooter, pos, vel); BulletAt(d, d.next) == Bullet(pos, vel, BULLET_TTL, shooter)
  {
  }

  lemma BulletSpawns(c: Components, shooter: EntityId, pos: Vec, vel: Vec)
    requires Shape(c) && Allocated(c).next !in c.entities
    ensures var d := WithBullet(c, shooter, pos, vel); Shape(d) && Records(d) == SpawnBullet(Records(c), shooter, pos, vel)
  {
    var d := WithBullet(c, shooter, pos, vel);
    NextIsNext(c);
    assert ShapeAt(c, d.next);
    BulletSpawnsAt(c, shooter, pos, vel, d.next);
    forall x: EntityId
      ensures ShapeAt(d, x) && SameActorAt(c, d, x) && (x != d.next ==> SameBulletAt(c, d, x))
    {
      assert ShapeAt(c, x);
      BulletSpawnsAt(c, shooter, pos, vel, x);
    }
    ActorsSame(c, d);
    BulletsAgree(c, d, d.next);
  }

  lemma OverwriteAt(c: Components, d: Components, shooter: EntityId, pos: Vec, vel: Vec, x: EntityId)
    requires ShapeAt(c, x) && d == WithBullet(c, shooter, pos, vel)
    ensures ShapeAt(d, x) <==> !(x == d.next && x in c.health)
  {
  }

  /** A bullet that is given the id of a living actor spoils the shape, and only that does. */
  lemma ReissueSpoilsShape(c: Components, shooter: EntityId, pos: Vec, vel: Vec)
    requires Shape(c)
    ensures Shape(WithBullet(c, shooter, pos, vel)) <==> Allocated(c).next !in c.health
  {
    var d := WithBullet(c, shooter, pos, vel);
    NextIsNext(c);
    forall x: EntityId
      ensures ShapeAt(d, x) <==> !(x == d.next && x in c.health)
    {
      assert ShapeAt(c, x);
      OverwriteAt(c, d, shooter, pos, vel, x);
    }
    assert ShapeAt(d, d.next) <==> d.next !in c.health;
  }

  function StrippedOfBody(c: Components, id: EntityId): Components
  {
    c.(entities := c.entities - {id}, position := c.position - {id}, health := c.health - {id}, life := c.life - {id},
       velocity := c.velocity - {id})
  }

  function Stripped(c: Components, id: EntityId): Components
  {
    StrippedOfBody(c, id).(ttl := c.ttl - {id}, owner := c.owner - {id}, tag := c.tag - {id},
       cooldown := c.cooldown - {id}, timer := c.timer - {id})
  }

  function Without(c: Components, id: EntityId): Components
  {
    var d := Stripped(c, id);
    if id in d.entityToSession then
      d.(sessionToEntity := d.sessionToEntity - {d.entityToSession[id]}, entityToSession := d.entityToSession - {id})
    else d
  }

  lemma WithoutAt(c: Components, d: Components, id: EntityId, x: EntityId)
    requires ShapeAt(c, x) && d == Without(c, id)
    ensures ShapeAt(d, x)
  {
    var keep := x != id;
    assert (x in d.entities <==> x in c.entities && keep) && (x in d.position <==> x in c.position && keep);
    assert (x in d.health <==> x in c.health && keep) && (x in d.life <==> x in c.life && keep);
    assert (x in d.velocity <==> x in c.velocity && keep) && (x in d.ttl <==> x in c.ttl && keep);
    assert (x in d.owner <==> x in c.owner && keep) && (x in d.tag <==> x in c.tag && keep) && (x in d.tag ==> d.tag[x] == c.tag[x]);
    assert (x in d.cooldown <==> x in c.cooldown && keep) && (x in d.timer <==> x in c.timer && keep);
    assert x in d.entityToSession <==> x in c.entityToSession && keep;
  }

  lemma WithoutActorAt(c: Components, d: Components, id: EntityId, x: EntityId)
    requires ShapeAt(c, x) && d == Without(c, id) && (x != id || x in c.ttl)
    ensures SameActorAt(c, d, x)
  {
  }

  lemma WithoutBulletAt(c: Components, d: Components, id: EntityId, x: EntityId)
    requires ShapeAt(c, x) && d == Without(c, id) && (x != id || x in c.health)
    ensures SameBulletAt(c, d, x)
  {
  }

  lemma WithoutKeepsShape(c: Components, id: EntityId)
    requires Shape(c)
    ensures Shape(Without(c, id))
    ensures forall x {:trigger SameActorAt(c, Without(c, id), x)} :: x != id || x in c.ttl ==> SameActorAt(c, Without(c, id), x)
    ensures forall x {:trigger SameBulletAt(c, Without(c, id), x)} :: x != id || x in c.health ==> SameBulletAt(c, Without(c, id), x)
  {
    forall x: EntityId
      ensures ShapeAt(Without(c, id), x)
      ensures x != id || x in c.ttl ==> SameActorAt(c, Without(c, id), x)
      ensures x != id || x in c.health ==> SameBulletAt(c, Without(c, id), x)
    {
      assert ShapeAt(c, x);
      WithoutAt(c, Without(c, id), id, x);
      if x != id || x in c.ttl {
        WithoutActorAt(c, Without(c, id), id, x);
      }
      if x != id || x in c.health {
        WithoutBulletAt(c, Without(c, id), id, x);
      }
    }
  }

  lemma ActorLeaves(c: Components, id: EntityId)
    requires Shape(c) && id in c.health
    ensures Shape(Without(c, id)) && Records(Without(c, id)) == RemoveActor(Records(c), id)
  {
    var d := Without(c, id);
    WithoutKeepsShape(c, id);
    assert ShapeAt(c, id);
    BulletsSame(c, d);
    ActorsLess(c, d, id);
  }

  lemma ActorsLess(c: Components, d: Components, id: EntityId)
    requires id !in d.health && forall x {:trigger SameActorAt(c, d, x)} :: x != id ==> SameActorAt(c, d, x)
    ensures Records(d).actors == Records(c).actors - {id}
  {
    var r := Records(c).actors - {id};
    forall x: EntityId
      ensures (x in d.health <==> x in r) && (x in r ==> ActorAt(d, x) == r[x])
    {
      assert x != id ==> SameActorAt(c, d, x);
    }
    assert Records(d).actors == r;
  }

  lemma BulletLeaves(c: Components, id: EntityId)
    requires Shape(c) && id in c.ttl
    ensures Shape(Without(c, id)) && Records(Without(c, id)) == Records(c).(bullets := Records(c).bullets - {id})
  {
    var d := Without(c, id);
    WithoutKeepsShape(c, id);
    assert ShapeAt(c, id);
    ActorsSame(c, d);
    assert forall x :: x in c.ttl && x != id ==> SameBulletAt(c, d, x);
    assert Records(d).bullets == Records(c).bullets - {id};
  }
}
