/** The world of the shooting game: its constants, its entities, and what each system does to them. */
module GameWorld {
  import opened Ids

  const BULLET_TTL := 120
  const SHOOT_COOLDOWN := 30
  const BULLET_DAMAGE := 20
  const RESPAWN_TICKS := 180
  const FULL_HEALTH := 100
  const BULLET_SPEED := 1.5
  const BULLET_RADIUS := 0.3
  const ACTOR_RADIUS := 0.5
  const PLAYER_SPEED := 1.0
  const SPAWN_MARGIN := 5.0
  const MAP_SIZE := 100.0
  /** The square of the distance below which two actors count as being on one spot. */
  const TOUCHING := 0.000001
  /** The largest 32-bit float, the start value of the search for the nearest rival. */
  const MAX_FLOAT := 340282346638528859811704183484516925440.0

  const IDS: nat := 65536

  type EntityId = x: int | 0 <= x < 65536
  type Byte = x: int | 0 <= x < 256

  const PLAYER: Byte := 1
  const BOT: Byte := 2
  const BULLET: Byte := 3

  datatype Vec = Vec(x: real, y: real)
  datatype Input = Input(entity: EntityId, keys: bv32)

  /** An actor; `timer` is there while it waits to respawn. */
  datatype Actor = Actor(pos: Vec, hp: Byte, life: bv8, tag: Byte, cooldown: int, timer: Option<int>, session: nat)

  datatype Bullet = Bullet(pos: Vec, vel: Vec, ttl: EntityId, owner: EntityId)

  /**
   * The world between two operations. `count` is the number of ids issued so far and `born` the
   * number of the last issue of each id: the program keeps only `count % 65536`.
   */
  datatype World = World(
    actors: map<EntityId, Actor>,
    bullets: map<EntityId, Bullet>,
    sessions: map<nat, EntityId>,
    inputs: seq<Input>,
    count: nat,
    born: map<EntityId, nat>)

  const EMPTY := World(map[], map[], map[], [], 0, map[])

  // ---------- Life state bits ----------

  predicate Alive(life: bv8)
  {
    life & 0x01 != 0
  }

  predicate Respawning(life: bv8)
  {
    life & 0x02 != 0
  }

  function Kind(life: bv8): bv8
  {
    life & 0xF0
  }

  function Woken(life: bv8): bv8
  {
    (life & 0xF0) | 0x01
  }

  function Fallen(life: bv8): bv8
  {
    (life & 0xF0) | 0x02
  }

  /** Waking and falling set one state and leave the kind bits alone. */
  lemma LifeBits(life: bv8)
    ensures Alive(Woken(life)) && !Respawning(Woken(life)) && Kind(Woken(life)) == Kind(life)
    ensures Respawning(Fallen(life)) && !Alive(Fallen(life)) && Kind(Fallen(life)) == Kind(life)
  {
  }

  // ---------- Ids ----------

  /** The n-th id issued. */
  function IdOf(n: nat): EntityId
  {
    n % 65536
  }

  function NextId(w: World): EntityId
  {
    IdOf(w.count + 1)
  }

  function SpawnActor(w: World, session: nat, tag: Byte, pos: Vec): World
  {
    var id := NextId(w);
    w.(actors := w.actors[id := Actor(pos, FULL_HEALTH, 0x01, tag, 0, None, session)],
       sessions := w.sessions[session := id], count := w.count + 1, born := w.born[id := w.count + 1])
  }

  function SpawnBullet(w: World, owner: EntityId, pos: Vec, vel: Vec): World
  {
    var id := NextId(w);
    w.(bullets := w.bullets[id := Bullet(pos, vel, BULLET_TTL, owner)], count := w.count + 1, born := w.born[id := w.count + 1])
  }

  function RemoveActor(w: World, id: EntityId): World
    requires id in w.actors
  {
    w.(actors := w.actors - {id}, sessions := w.sessions - {w.actors[id].session})
  }

  // ---------- Respawn ----------

  /** Where an actor may appear. */
  predicate InSpawnArea(p: Vec)
  {
    SPAWN_MARGIN <= p.x <= MAP_SIZE - SPAWN_MARGIN && SPAWN_MARGIN <= p.y <= MAP_SIZE - SPAWN_MARGIN
  }

  predicate InMap(p: Vec)
  {
    0.0 <= p.x <= MAP_SIZE && 0.0 <= p.y <= MAP_SIZE
  }

  function Revived(a: Actor, pos: Vec): Actor
  {
    a.(pos := pos, hp := FULL_HEALTH, life := Woken(a.life), timer := None)
  }

  /** One tick of an actor's respawn timer. */
  predicate Waits(a: Actor, b: Actor)
  {
    if !Respawning(a.life) then b == a
    else if a.timer.Some? && a.timer.value > 1 then b == a.(timer := Some(a.timer.value - 1))
    else InSpawnArea(b.pos) && b == Revived(a, b.pos)
  }

  predicate RespawnRuns(w: World, v: World)
  {
    && v == w.(actors := v.actors) && v.actors.Keys == w.actors.Keys
    && forall a :: a in w.actors ==> Waits(w.actors[a], v.actors[a])
  }

  // ---------- Input ----------

  function Direction(keys: bv32): Vec
  {
    Vec((if keys & 0x08 != 0 then 1.0 else 0.0) - (if keys & 0x02 != 0 then 1.0 else 0.0),
        (if keys & 0x04 != 0 then 1.0 else 0.0) - (if keys & 0x01 != 0 then 1.0 else 0.0))
  }

  function Clamp(v: real, low: real, high: real): (r: real)
    requires low <= high
    ensures low <= r <= high && (low <= v <= high ==> r == v)
  {
    if v < low then low else if v > high then high else v
  }

  function Stepped(p: Vec, d: Vec): Vec
  {
    Vec(Clamp(p.x + d.x * PLAYER_SPEED, 0.0, MAP_SIZE), Clamp(p.y + d.y * PLAYER_SPEED, 0.0, MAP_SIZE))
  }

  function MovedBy(actors: map<EntityId, Actor>, i: Input): map<EntityId, Actor>
  {
    if i.entity !in actors || !Alive(actors[i.entity].life) || Direction(i.keys) == Vec(0.0, 0.0) then actors
    else
      var a := actors[i.entity];
      actors[i.entity := a.(pos := Stepped(a.pos, Direction(i.keys)))]
  }

  /** The actors after the queued inputs, in the order of their arrival. */
  function Moved(actors: map<EntityId, Actor>, inputs: seq<Input>): map<EntityId, Actor>
  {
    if inputs == [] then actors
    else MovedBy(Moved(actors, inputs[..|inputs| - 1]), inputs[|inputs| - 1])
  }

  predicate InputMoveRuns(w: World, v: World)
  {
    v == w.(actors := Moved(w.actors, w.inputs), inputs := [])
  }

  // ---------- Shooting ----------

  function DistSq(p: Vec, q: Vec): real
  {
    (q.x - p.x) * (q.x - p.x) + (q.y - p.y) * (q.y - p.y)
  }

  /** Whom an actor could aim at. */
  predicate Rival(actors: map<EntityId, Actor>, a: EntityId, b: EntityId)
    requires a in actors
  {
    b in actors && b != a && Alive(actors[b].life) && DistSq(actors[a].pos, actors[b].pos) < MAX_FLOAT
  }

  /** A living actor fires when its cooldown runs out, some rival is there and none is on its own spot. */
  ghost predicate Fires(actors: map<EntityId, Actor>, a: EntityId)
  {
    && a in actors && Alive(actors[a].life) && actors[a].cooldown <= 1
    && (exists b :: Rival(actors, a, b))
    && forall b :: Rival(actors, a, b) ==> DistSq(actors[a].pos, actors[b].pos) >= TOUCHING
  }

  ghost function Cooled(actors: map<EntityId, Actor>, a: EntityId): Actor
    requires a in actors
  {
    if !Alive(actors[a].life) then actors[a]
    else actors[a].(cooldown := if Fires(actors, a) then SHOOT_COOLDOWN else actors[a].cooldown - 1)
  }

  ghost predicate NearestRival(actors: map<EntityId, Actor>, a: EntityId, r: EntityId)
    requires a in actors
  {
    && Rival(actors, a, r)
    && forall b :: Rival(actors, a, b) ==> DistSq(actors[a].pos, actors[r].pos) <= DistSq(actors[a].pos, actors[b].pos)
  }

  /** A step of bullet speed on the way from p to q, which are `dist` apart. */
  predicate Heading(p: Vec, q: Vec, vel: Vec, dist: real)
  {
    && dist > 0.0 && dist * dist == DistSq(p, q)
    && vel.x * dist == BULLET_SPEED * (q.x - p.x) && vel.y * dist == BULLET_SPEED * (q.y - p.y)
  }

  ghost predicate Towards(p: Vec, q: Vec, vel: Vec)
  {
    exists dist :: Heading(p, q, vel, dist)
  }

  ghost predicate Aimed(actors: map<EntityId, Actor>, a: EntityId, vel: Vec)
  {
    a in actors && exists r :: NearestRival(actors, a, r) && Towards(actors[a].pos, actors[r].pos, vel)
  }

  ghost predicate AllAimed(actors: map<EntityId, Actor>, shot: seq<EntityId>, vels: seq<Vec>)
  {
    |vels| == |shot| && forall i :: 0 <= i < |shot| ==> Aimed(actors, shot[i], vels[i])
  }

  /** Every actor of the list fires once, in the order of the list. */
  function Volley(w: World, shot: seq<EntityId>, vels: seq<Vec>): World
    requires |vels| == |shot| && forall a :: a in shot ==> a in w.actors
  {
    if shot == [] then w
    else
      var n := |shot| - 1;
      SpawnBullet(Volley(w, shot[..n], vels[..n]), shot[n], w.actors[shot[n]].pos, vels[n])
  }

  ghost predicate Lists(shot: seq<EntityId>, actors: map<EntityId, Actor>)
  {
    && (forall i, j :: 0 <= i < j < |shot| ==> shot[i] != shot[j])
    && forall a :: a in shot <==> Fires(actors, a)
  }

  /** The actors that fire are listed in the order in which the iteration meets them. */
  ghost predicate Shoots(w: World, v: World, shot: seq<EntityId>, vels: seq<Vec>)
  {
    && Lists(shot, w.actors) && AllAimed(w.actors, shot, vels)
    && v == Volley(w, shot, vels).(actors := map a | a in w.actors :: Cooled(w.actors, a))
  }

  ghost predicate AutoShootRuns(w: World, v: World)
  {
    exists shot, vels :: Shoots(w, v, shot, vels)
  }

  // ---------- Bullets ----------

  function Plus(p: Vec, d: Vec): Vec
  {
    Vec(p.x + d.x, p.y + d.y)
  }

  /** One less; the 16-bit time to live wraps below zero. */
  function OneLess(ttl: EntityId): EntityId
  {
    if ttl == 0 then 65535 else ttl - 1
  }

  function Flown(b: Bullet): Bullet
  {
    b.(pos := Plus(b.pos, b.vel), ttl := OneLess(b.ttl))
  }

  ghost predicate BulletMoveRuns(w: World, v: World)
  {
    v == w.(bullets := map b | b in w.bullets :: Flown(w.bullets[b]))
  }

  ghost predicate CleanupRuns(w: World, v: World)
  {
    v == w.(bullets := map b | b in w.bullets && w.bullets[b].ttl != 0 :: w.bullets[b])
  }

  // ---------- Collisions ----------

  predicate InReach(b: Bullet, a: Actor)
  {
    DistSq(a.pos, b.pos) <= (BULLET_RADIUS + ACTOR_RADIUS) * (BULLET_RADIUS + ACTOR_RADIUS)
  }

  function Struck(a: Actor): Actor
  {
    if a.hp <= BULLET_DAMAGE then a.(hp := 0, life := Fallen(a.life), timer := Some(RESPAWN_TICKS))
    else a.(hp := a.hp - BULLET_DAMAGE)
  }

  function StruckTimes(a: Actor, n: nat): Actor
  {
    if n == 0 then a else Struck(StruckTimes(a, n - 1))
  }

  /** The bullets that hit an actor. */
  function HitsOn(hits: map<EntityId, EntityId>, a: EntityId): set<EntityId>
  {
    set b | b in hits && hits[b] == a
  }

  /** A bullet may hit an actor that lives and does not own it. */
  predicate MayHit(w: World, b: EntityId, a: EntityId)
  {
    && b in w.bullets && a in w.actors && a != w.bullets[b].owner
    && Alive(w.actors[a].life) && InReach(w.bullets[b], w.actors[a])
  }

  /**
   * `hits` says which actor each spent bullet struck. Every hit found its actor alive, and no
   * bullet that is left reaches an actor that is still alive.
   */
  ghost predicate Collides(w: World, v: World, hits: map<EntityId, EntityId>)
  {
    && v == w.(actors := v.actors, bullets := w.bullets - hits.Keys)
    && v.actors.Keys == w.actors.Keys
    && (forall b :: b in hits ==> MayHit(w, b, hits[b]))
    && (forall a :: a in w.actors ==> v.actors[a] == StruckTimes(w.actors[a], |HitsOn(hits, a)|))
    && (forall a :: a in w.actors && HitsOn(hits, a) != {} ==> Alive(StruckTimes(w.actors[a], |HitsOn(hits, a)| - 1).life))
    && (forall b, a :: !MayHit(v, b, a))
  }

  ghost predicate CollisionRuns(w: World, v: World)
  {
    exists hits :: Collides(w, v, hits)
  }

  // ---------- Ticks and runs ----------

  ghost predicate SystemRuns(id: string, w: World, v: World)
  {
    if id == "respawn" then RespawnRuns(w, v)
    else if id == "input_move" then InputMoveRuns(w, v)
    else if id == "auto_shoot" then AutoShootRuns(w, v)
    else if id == "bullet_move" then BulletMoveRuns(w, v)
    else if id == "collision_damage" then CollisionRuns(w, v)
    else if id == "bullet_cleanup" then CleanupRuns(w, v)
    else v == w
  }

  /** The worlds a tick goes through: before the first system and after each. */
  datatype Stages = Stages(start: World, revived: World, moved: World, fired: World, flown: World, struck: World, end: World)

  ghost predicate Ticks(s: Stages)
  {
    && RespawnRuns(s.start, s.revived) && InputMoveRuns(s.revived, s.moved) && AutoShootRuns(s.moved, s.fired)
    && BulletMoveRuns(s.fired, s.flown) && CollisionRuns(s.flown, s.struck) && CleanupRuns(s.struck, s.end)
  }

  datatype Event = Join(session: nat, at: Vec) | Leave(session: nat) | Press(session: nat, keys: bv32) | Tick(stages: Stages)

  ghost predicate Happens(e: Event, w: World, v: World)
  {
    match e
    case Join(s, p) => InSpawnArea(p) && v == SpawnActor(w, s, PLAYER, p)
    case Leave(s) =>
      if s in w.sessions && w.sessions[s] in w.actors then v == RemoveActor(w, w.sessions[s]) else v == w
    case Press(s, k) =>
      v == if s in w.sessions then w.(inputs := w.inputs + [Input(w.sessions[s], k)]) else w
    case Tick(stages) => stages.start == w && stages.end == v && Ticks(stages)
  }

  /** The worlds of a run that starts empty, one more than its events. */
  ghost predicate IsRun(ws: seq<World>, es: seq<Event>)
  {
    && |ws| == |es| + 1 && ws[0] == EMPTY
    && forall i :: 0 <= i < |es| ==> Happens(es[i], ws[i], ws[i + 1])
  }

  /** An id that is still spoken for: an entity of the world, or the owner of a bullet in flight. */
  predicate InUse(w: World, id: EntityId)
  {
    id in w.actors || id in w.bullets || exists b :: b in w.bullets && w.bullets[b].owner == id
  }

  /** By the time `count` ids have been issued, no id in use is outlived by 65,536 of them. */
  ghost predicate Paced(w: World, count: nat)
  {
    forall id :: InUse(w, id) ==> id in w.born && count - w.born[id] < IDS
  }

  ghost predicate PacedRun(ws: seq<World>)
  {
    forall i :: 0 < i < |ws| ==> Paced(ws[i - 1], ws[i].count)
  }
}
