/** The server writes snapshots of its world; the client reads them. */
module SnapshotCodec {
  import opened Ids
  import opened GameWorld
  import opened Components
  import opened GameLoops
  import opened SnapshotFormat
  import opened Folding
  import SW = ShootingWorld

  const DATA_TYPE_SNAPSHOT: Byte := 5

  // ---------- What is written ----------

  function MaskAt(c: Components, id: EntityId): Mask
  {
    Mask(id in c.position, id in c.velocity, id in c.health, id in c.life, id in c.ttl, id in c.owner, id in c.tag)
  }

  function StateByte(life: bv8): Byte
  {
    life as int
  }

  /** The components of an entity; `bits` gives the 32-bit pattern of a coordinate. */
  function EntityAt(c: Components, id: EntityId, bits: real -> U32): Entity
  {
    Entity(id, bits(Get(c.position, id, ORIGIN).x), bits(Get(c.position, id, ORIGIN).y),
      bits(Get(c.velocity, id, ORIGIN).x), bits(Get(c.velocity, id, ORIGIN).y),
      Get(c.health, id, 0), StateByte(Get(c.life, id, 0)), Get(c.ttl, id, 0), Get(c.owner, id, 0), Get(c.tag, id, 0))
  }

  function Body(c: Components, ids: seq<EntityId>, bits: real -> U32): seq<Byte>
  {
    if ids == [] then []
    else Body(c, ids[..|ids| - 1], bits) + Record(EntityAt(c, ids[|ids| - 1], bits), MaskAt(c, ids[|ids| - 1]))
  }

  /** The payload header, the number of entities in 16 bits, and the records. */
  function Snapshot(c: Components, ids: seq<EntityId>, bits: real -> U32): seq<Byte>
  {
    [DATA_TYPE_SNAPSHOT, 0] + (Put16(|ids| % IDS) + Body(c, ids, bits))
  }

  ghost predicate Ascending(ids: seq<EntityId>)
  {
    forall i, j :: 0 <= i < j < |ids| ==> ids[i] < ids[j]
  }

  /** The ids of a set in ascending order. */
  ghost predicate SortedList(ids: seq<EntityId>, s: set<EntityId>)
  {
    Ascending(ids) && forall x :: x in ids <==> x in s
  }

  /** Puts an id in its place. */
  method Place(ids: seq<EntityId>, id: EntityId) returns (r: seq<EntityId>)
    requires Ascending(ids) && id !in ids
    ensures Ascending(r) && forall x :: x in r <==> x in ids || x == id
  {
    var k := 0;
    while k < |ids| && ids[k] < id
      invariant k <= |ids| && forall i :: 0 <= i < k ==> ids[i] < id
    {
      k := k + 1;
    }
    r := ids[..k] + [id] + ids[k..];
    assert k < |ids| ==> ids[k] != id;
    assert ids == ids[..k] + ids[k..];
  }

  method SortedIds(entities: set<EntityId>) returns (ids: seq<EntityId>)
    ensures SortedList(ids, entities)
  {
    ids := [];
    var todo := entities;
    while todo != {}
      invariant todo <= entities && SortedList(ids, entities - todo)
      decreases |todo|
    {
      var id :| id in todo;
      ids := Place(ids, id);
      todo := todo - {id};
    }
  }

  /** Collects the mask bit by bit. */
  method EntityMask(w: SW.ShootingWorld, id: EntityId) returns (mask: Byte)
    ensures mask == MaskByte(MaskAt(w.Comps(), id))
  {
    mask := 0;
    if id in w.position {
      mask := mask + 1;
    }
    if id in w.velocity {
      mask := mask + 2;
    }
    if id in w.health {
      mask := mask + 4;
    }
    if id in w.lifeState {
      mask := mask + 8;
    }
    if id in w.ttl {
      mask := mask + 16;
    }
    if id in w.owner {
      mask := mask + 32;
    }
    if id in w.tag {
      mask := mask + 64;
    }
  }

  method EncodeEntity(w: SW.ShootingWorld, id: EntityId, buf: seq<Byte>, bits: real -> U32) returns (out: seq<Byte>)
    ensures out == buf + Record(EntityAt(w.Comps(), id, bits), MaskAt(w.Comps(), id))
  {
    var mask := EntityMask(w, id);
    ghost var m := MaskAt(w.Comps(), id);
    ghost var e := EntityAt(w.Comps(), id, bits);
    MaskReads(m);
    var head := EncodeHead(w, id, mask, bits);
    var record := EncodeTail(w, id, head, mask, bits);
    RecordSplits(e, m);
    out := buf + record;
  }

  method EncodeHead(w: SW.ShootingWorld, id: EntityId, mask: Byte, bits: real -> U32) returns (out: seq<Byte>)
    requires MaskOf(mask) == MaskAt(w.Comps(), id)
    ensures out == HeadOf(EntityAt(w.Comps(), id, bits), MaskAt(w.Comps(), id), mask)
  {
    out := Put16(id) + [mask];
    if Has(mask, 1) {
      var p := w.position[id];
      out := out + (Put32(bits(p.x)) + Put32(bits(p.y)));
    }
    if Has(mask, 2) {
      var v := w.velocity[id];
      out := out + (Put32(bits(v.x)) + Put32(bits(v.y)));
    }
  }

  /** The health and the life state. */
  method EncodeLife(w: SW.ShootingWorld, id: EntityId, buf: seq<Byte>, mask: Byte) returns (out: seq<Byte>)
    requires Has(mask, 4) == (id in w.health) && Has(mask, 8) == (id in w.lifeState)
    ensures out == buf + If(id in w.health, [Get(w.health, id, 0)]) + If(id in w.lifeState, [StateByte(Get(w.lifeState, id, 0))])
  {
    out := buf;
    if Has(mask, 4) {
      out := out + [w.health[id]];
    }
    if Has(mask, 8) {
      out := out + [StateByte(w.lifeState[id])];
    }
  }

  /** The time to live, the owner and the tag. */
  method EncodeRest(w: SW.ShootingWorld, id: EntityId, buf: seq<Byte>, mask: Byte) returns (out: seq<Byte>)
    requires Has(mask, 16) == (id in w.ttl) && Has(mask, 32) == (id in w.owner) && Has(mask, 64) == (id in w.tag)
    ensures out == buf + If(id in w.ttl, Put16(Get(w.ttl, id, 0))) + If(id in w.owner, Put16(Get(w.owner, id, 0))) + If(id in w.tag, [Get(w.tag, id, 0)])
  {
    out := buf;
    if Has(mask, 16) {
      out := out + Put16(w.ttl[id]);
    }
    if Has(mask, 32) {
      out := out + Put16(w.owner[id]);
    }
    if Has(mask, 64) {
      out := out + [w.tag[id]];
    }
  }

  /** The fields of a record behind the velocity. */
  method EncodeTail(w: SW.ShootingWorld, id: EntityId, buf: seq<Byte>, mask: Byte, ghost bits: real -> U32) returns (out: seq<Byte>)
    requires MaskOf(mask) == MaskAt(w.Comps(), id)
    ensures out == WithTail(buf, EntityAt(w.Comps(), id, bits), MaskAt(w.Comps(), id))
  {
    out := EncodeLife(w, id, buf, mask);
    out := EncodeRest(w, id, out, mask);
  }

  function HeadOf(e: Entity, m: Mask, mask: Byte): seq<Byte>
  {
    Put16(e.id) + [mask] + If(m.pos, Put32(e.x) + Put32(e.y)) + If(m.vel, Put32(e.vx) + Put32(e.vy))
  }

  function WithTail(buf: seq<Byte>, e: Entity, m: Mask): seq<Byte>
  {
    buf + If(m.hp, [e.hp]) + If(m.life, [e.state]) + If(m.ttl, Put16(e.ttl)) + If(m.own, Put16(e.owner)) + If(m.tag, [e.tag])
  }

  lemma RecordSplits(e: Entity, m: Mask)
    ensures Record(e, m) == WithTail(HeadOf(e, m, MaskByte(m)), e, m)
  {
  }

  method EncodeSnapshot(w: SW.ShootingWorld, bits: real -> U32) returns (out: seq<Byte>)
    ensures exists ids :: SortedList(ids, w.entities) && out == Snapshot(w.Comps(), ids, bits)
  {
    var list := SortedIds(w.entities);
    ghost var c := w.Comps();
    var prefix := Put16(|list| % IDS);
    var body: seq<Byte> := [];
    var k := 0;
    while k < |list|
      invariant k <= |list| && body == Body(c, list[..k], bits)
    {
      body := EncodeEntity(w, list[k], body, bits);
      BodyGrows(c, list, k, bits);
      k := k + 1;
    }
    assert list[..k] == list;
    out := [DATA_TYPE_SNAPSHOT, 0] + (prefix + body);
  }

  lemma BodyGrows(c: Components, ids: seq<EntityId>, k: nat, bits: real -> U32)
    requires k < |ids|
    ensures Body(c, ids[..k + 1], bits) == Body(c, ids[..k], bits) + Record(EntityAt(c, ids[k], bits), MaskAt(c, ids[k]))
  {
    assert ids[..k + 1][..k] == ids[..k];
  }

  // ---------- What is read ----------

  datatype ClientActor = ClientActor(entityId: EntityId, x: U32, y: U32, hp: Byte, state: Byte, tag: Byte)
  datatype ClientBullet = ClientBullet(entityId: EntityId, ownerId: EntityId, x: U32, y: U32, vx: U32, vy: U32)
  datatype GameState = GameState(actors: seq<ClientActor>, bullets: seq<ClientBullet>)

  /** A record goes to the actors or the bullets by its tag; any other is dropped. */
  function Push(g: GameState, e: Entity): GameState
  {
    if e.tag == PLAYER || e.tag == BOT then g.(actors := g.actors + [ClientActor(e.id, e.x, e.y, e.hp, e.state, e.tag)])
    else if e.tag == BULLET then g.(bullets := g.bullets + [ClientBullet(e.id, e.owner, e.x, e.y, e.vx, e.vy)])
    else g
  }

  function TakeAll(g: GameState, s: seq<Byte>, n: nat): Taken<GameState>
    decreases n
  {
    if n == 0 then Taken(g, s)
    else
      var e := TakeEntity(s);
      if e.RangeError? then RangeError else TakeAll(Push(g, e.value), e.rest, n - 1)
  }

  /** The state of the game in a snapshot, and the bytes that were not looked at. */
  function Decode(payload: seq<Byte>): Taken<GameState>
  {
    if |payload| < 4 then RangeError
    else
      var count := Take16(payload[2..]);
      TakeAll(GameState([], []), count.rest, count.value)
  }

  // ---------- Reading with a cursor ----------

  datatype Cursor<T> = At(value: T, pos: nat) | OutOfRange

  function GetUint8(p: seq<Byte>, pos: nat): Cursor<Byte>
  {
    if pos + 1 > |p| then OutOfRange else At(p[pos], pos + 1)
  }

  function GetUint16(p: seq<Byte>, pos: nat): Cursor<EntityId>
  {
    if pos + 2 > |p| then OutOfRange else At(p[pos] as int + p[pos + 1] as int * 0x100, pos + 2)
  }

  function GetFloat32(p: seq<Byte>, pos: nat): Cursor<U32>
  {
    if pos + 4 > |p| then OutOfRange
    else At(p[pos] as int + p[pos + 1] as int * 0x100 + p[pos + 2] as int * 0x1_0000 + p[pos + 3] as int * 0x100_0000, pos + 4)
  }

  /** A cursor into the payload and the rest of the payload say the same. */
  predicate Agree<T(==)>(p: seq<Byte>, c: Cursor<T>, t: Taken<T>)
  {
    match c
    case OutOfRange => t.RangeError?
    case At(v, pos) => pos <= |p| && t == Taken(v, p[pos..])
  }

  lemma GetsAgree(p: seq<Byte>, pos: nat)
    requires pos <= |p|
    ensures Agree(p, GetUint8(p, pos), Take8(p[pos..])) && Agree(p, GetUint16(p, pos), Take16(p[pos..])) && Agree(p, GetFloat32(p, pos), Take32(p[pos..]))
  {
  }

  method ReadPair(p: seq<Byte>, pos: nat, present: bool) returns (r: Cursor<Pair>)
    requires pos <= |p|
    ensures Agree(p, r, TakePair(present, p[pos..]))
  {
    if !present {
      return At(Pair(0, 0), pos);
    }
    GetsAgree(p, pos);
    var x := GetFloat32(p, pos);
    if x.OutOfRange? {
      return OutOfRange;
    }
    GetsAgree(p, x.pos);
    var y := GetFloat32(p, x.pos);
    if y.OutOfRange? {
      return OutOfRange;
    }
    return At(Pair(x.value, y.value), y.pos);
  }

  method ReadByte(p: seq<Byte>, pos: nat, present: bool) returns (r: Cursor<Byte>)
    requires pos <= |p|
    ensures Agree(p, r, TakeByte(present, p[pos..]))
  {
    GetsAgree(p, pos);
    r := if present then GetUint8(p, pos) else At(0, pos);
  }

  method ReadShort(p: seq<Byte>, pos: nat, present: bool) returns (r: Cursor<EntityId>)
    requires pos <= |p|
    ensures Agree(p, r, TakeShort(present, p[pos..]))
  {
    GetsAgree(p, pos);
    r := if present then GetUint16(p, pos) else At(0, pos);
  }

  method ReadLife(p: seq<Byte>, pos: nat, m: Mask, e: Entity) returns (r: Cursor<Entity>)
    requires pos <= |p|
    ensures Agree(p, r, TakeLife(m, e, p[pos..]))
  {
    var hp := ReadByte(p, pos, m.hp);
    if hp.OutOfRange? {
      return OutOfRange;
    }
    var state := ReadByte(p, hp.pos, m.life);
    if state.OutOfRange? {
      return OutOfRange;
    }
    return At(e.(hp := hp.value, state := state.value), state.pos);
  }

  method ReadRest(p: seq<Byte>, pos: nat, m: Mask, e: Entity) returns (r: Cursor<Entity>)
    requires pos <= |p|
    ensures Agree(p, r, TakeRest(m, e, p[pos..]))
  {
    var ttl := ReadShort(p, pos, m.ttl);
    if ttl.OutOfRange? {
      return OutOfRange;
    }
    var owner := ReadShort(p, ttl.pos, m.own);
    if owner.OutOfRange? {
      return OutOfRange;
    }
    var tag := ReadByte(p, owner.pos, m.tag);
    if tag.OutOfRange? {
      return OutOfRange;
    }
    return At(e.(ttl := ttl.value, owner := owner.value, tag := tag.value), tag.pos);
  }

  method ReadTail(p: seq<Byte>, pos: nat, m: Mask, e: Entity) returns (r: Cursor<Entity>)
    requires pos <= |p|
    ensures Agree(p, r, TakeTail(m, e, p[pos..]))
  {
    var f := ReadLife(p, pos, m, e);
    if f.OutOfRange? {
      return OutOfRange;
    }
    r := ReadRest(p, f.pos, m, f.value);
  }

  method ReadEntity(p: seq<Byte>, pos: nat) returns (r: Cursor<Entity>)
    requires pos <= |p|
    ensures Agree(p, r, TakeEntity(p[pos..]))
  {
    GetsAgree(p, pos);
    var id := GetUint16(p, pos);
    if id.OutOfRange? {
      return OutOfRange;
    }
    GetsAgree(p, id.pos);
    var mask := GetUint8(p, id.pos);
    if mask.OutOfRange? {
      return OutOfRange;
    }
    var m := MaskOf(mask.value);
    var at := ReadPair(p, mask.pos, m.pos);
    if at.OutOfRange? {
      return OutOfRange;
    }
    var vel := ReadPair(p, at.pos, m.vel);
    if vel.OutOfRange? {
      return OutOfRange;
    }
    r := ReadTail(p, vel.pos, m, Entity(id.value, at.value.x, at.value.y, vel.value.x, vel.value.y, 0, 0, 0, 0, 0));
  }

  /** `f` says what reading on from a state and a position of the payload leads to, folded. */
  ghost predicate Foretells(f: (GameState, nat, nat) -> Taken<GameState>, p: seq<Byte>)
  {
    forall key :: Unfold(key) ==> forall g: GameState, pos: nat, n: nat :: pos <= |p| ==> f(g, pos, n) == TakeAll(g, p[pos..], n)
  }

  ghost predicate EntityRead(p: seq<Byte>, pos: nat, e: Cursor<Entity>)
  {
    pos <= |p| && forall key :: Unfold(key) ==> Agree(p, e, TakeEntity(p[pos..]))
  }

  lemma Foretelling(p: seq<Byte>) returns (f: (GameState, nat, nat) -> Taken<GameState>)
    ensures Foretells(f, p)
  {
    f := (g: GameState, pos: nat, n: nat) => if pos <= |p| then TakeAll(g, p[pos..], n) else RangeError;
  }

  lemma DecodeRound(f: (GameState, nat, nat) -> Taken<GameState>, p: seq<Byte>, g: GameState, pos: nat, n: nat, e: Cursor<Entity>)
    requires n > 0 && Foretells(f, p) && EntityRead(p, pos, e)
    ensures e.OutOfRange? ==> f(g, pos, n).RangeError?
    ensures e.At? ==> e.pos <= |p| && f(g, pos, n) == f(Push(g, e.value), e.pos, n - 1)
  {
    assert Unfold(0);
  }

  lemma DecodeEnds(f: (GameState, nat, nat) -> Taken<GameState>, p: seq<Byte>, g: GameState, pos: nat)
    requires Foretells(f, p) && pos <= |p|
    ensures Agree(p, At(g, pos), f(g, pos, 0))
  {
    assert Unfold(0);
  }

  method NextEntity(p: seq<Byte>, pos: nat) returns (e: Cursor<Entity>)
    requires pos <= |p|
    ensures EntityRead(p, pos, e)
  {
    e := ReadEntity(p, pos);
  }

  /** Reads n records at the cursor. */
  method ReadAll(p: seq<Byte>, start: nat, n: nat, ghost f: (GameState, nat, nat) -> Taken<GameState>) returns (r: Cursor<GameState>)
    requires Foretells(f, p) && start <= |p|
    ensures Agree(p, r, f(GameState([], []), start, n))
  {
    var pos: nat := start;
    var g := GameState([], []);
    ghost var goal := f(g, start, n);
    var i: nat := 0;
    ghost var left := n;
    while i < n
      invariant i + left == n && pos <= |p| && f(g, pos, left) == goal
    {
      var e := NextEntity(p, pos);
      DecodeRound(f, p, g, pos, left, e);
      if e.OutOfRange? {
        return OutOfRange;
      }
      g := Push(g, e.value);
      pos := e.pos;
      i := i + 1;
      left := left - 1;
    }
    DecodeEnds(f, p, g, pos);
    return At(g, pos);
  }

  lemma DecodeLeads(payload: seq<Byte>, f: (GameState, nat, nat) -> Taken<GameState>)
    requires |payload| >= 4 && Foretells(f, payload)
    ensures var count := GetUint16(payload, 2);
      count.At? && count.pos == 4 && f(GameState([], []), 4, count.value) == Decode(payload)
  {
    assert Unfold(0);
    GetsAgree(payload, 2);
  }

  method DecodeSnapshot(payload: seq<Byte>) returns (r: Cursor<GameState>)
    ensures Agree(payload, r, Decode(payload))
  {
    var count := GetUint16(payload, 2);
    if count.OutOfRange? {
      return OutOfRange;
    }
    ghost var f := Foretelling(payload);
    DecodeLeads(payload, f);
    r := ReadAll(payload, count.pos, count.value, f);
  }

  // ---------- Round trip ----------

  lemma {:induction false} TakeMore(g: GameState, s: seq<Byte>, n: nat)
    requires TakeAll(g, s, n).Taken?
    ensures TakeAll(g, s, n + 1) == TakeAll(TakeAll(g, s, n).value, TakeAll(g, s, n).rest, 1)
    decreases n
  {
    if n > 0 {
      TakeMore(Push(g, TakeEntity(s).value), TakeEntity(s).rest, n - 1);
    }
  }

  lemma TakeOne(g: GameState, e: Entity, m: Mask, rest: seq<Byte>)
    ensures TakeAll(g, Record(e, m) + rest, 1) == Taken(Push(g, Masked(e, m)), rest)
  {
    EntityReads(e, m, rest);
    assert TakeAll(Push(g, Masked(e, m)), rest, 0) == Taken(Push(g, Masked(e, m)), rest);
  }

  function PushAll(c: Components, ids: seq<EntityId>, bits: real -> U32): GameState
  {
    if ids == [] then GameState([], [])
    else Push(PushAll(c, ids[..|ids| - 1], bits), Masked(EntityAt(c, ids[|ids| - 1], bits), MaskAt(c, ids[|ids| - 1])))
  }

  /** Reading n records gives a state and a rest, folded. */
  ghost predicate Gives(s: seq<Byte>, n: nat, g: GameState, rest: seq<Byte>)
  {
    forall key :: Unfold(key) ==> TakeAll(GameState([], []), s, n) == Taken(g, rest)
  }

  lemma GivesNothing(rest: seq<Byte>)
    ensures Gives(rest, 0, GameState([], []), rest)
  {
  }

  lemma GivesOneMore(s: seq<Byte>, n: nat, g: GameState, e: Entity, m: Mask, rest: seq<Byte>)
    requires Gives(s, n, g, Record(e, m) + rest)
    ensures Gives(s, n + 1, Push(g, Masked(e, m)), rest)
  {
    assert Unfold(0);
    TakeMore(GameState([], []), s, n);
    TakeOne(g, e, m, rest);
  }

  lemma {:induction false} BodyReads(c: Components, ids: seq<EntityId>, bits: real -> U32, rest: seq<Byte>)
    ensures Gives(Body(c, ids, bits) + rest, |ids|, PushAll(c, ids, bits), rest)
  {
    if ids == [] {
      assert Body(c, ids, bits) + rest == rest;
      GivesNothing(rest);
    } else {
      var n := |ids| - 1;
      var front := Body(c, ids[..n], bits);
      var e, m := EntityAt(c, ids[n], bits), MaskAt(c, ids[n]);
      BodyReads(c, ids[..n], bits, Record(e, m) + rest);
      assert front + Record(e, m) + rest == front + (Record(e, m) + rest);
      GivesOneMore(front + (Record(e, m) + rest), n, PushAll(c, ids[..n], bits), e, m, rest);
    }
  }

  function ActorView(id: EntityId, a: Actor, bits: real -> U32): ClientActor
  {
    ClientActor(id, bits(a.pos.x), bits(a.pos.y), a.hp, StateByte(a.life), a.tag)
  }

  function BulletView(id: EntityId, b: Bullet, bits: real -> U32): ClientBullet
  {
    ClientBullet(id, b.owner, bits(b.pos.x), bits(b.pos.y), bits(b.vel.x), bits(b.vel.y))
  }

  /** The actors among the ids, in their order. */
  function ActorsOf(w: World, ids: seq<EntityId>, bits: real -> U32): seq<ClientActor>
  {
    if ids == [] then []
    else
      var id := ids[|ids| - 1];
      ActorsOf(w, ids[..|ids| - 1], bits) + if id in w.actors then [ActorView(id, w.actors[id], bits)] else []
  }

  function BulletsOf(w: World, ids: seq<EntityId>, bits: real -> U32): seq<ClientBullet>
  {
    if ids == [] then []
    else
      var id := ids[|ids| - 1];
      BulletsOf(w, ids[..|ids| - 1], bits) + if id in w.bullets then [BulletView(id, w.bullets[id], bits)] else []
  }

  lemma PushActor(c: Components, id: EntityId, bits: real -> U32, g: GameState)
    requires ShapeAt(c, id) && id in c.health
    ensures Push(g, Masked(EntityAt(c, id, bits), MaskAt(c, id))) == g.(actors := g.actors + [ActorView(id, ActorAt(c, id), bits)])
  {
  }

  lemma PushBullet(c: Components, id: EntityId, bits: real -> U32, g: GameState)
    requires ShapeAt(c, id) && id in c.ttl
    ensures Push(g, Masked(EntityAt(c, id, bits), MaskAt(c, id))) == g.(bullets := g.bullets + [BulletView(id, BulletAt(c, id), bits)])
  {
  }

  lemma {:induction false} PushedAre(c: Components, ids: seq<EntityId>, bits: real -> U32)
    requires Shape(c) && forall x :: x in ids ==> x in c.entities
    ensures PushAll(c, ids, bits) == GameState(ActorsOf(Records(c), ids, bits), BulletsOf(Records(c), ids, bits))
  {
    if ids != [] {
      var n := |ids| - 1;
      var id := ids[n];
      PushedAre(c, ids[..n], bits);
      assert ids[n] in ids && ShapeAt(c, id);
      if id in c.health {
        PushActor(c, id, bits, PushAll(c, ids[..n], bits));
      } else {
        PushBullet(c, id, bits, PushAll(c, ids[..n], bits));
      }
    }
  }

  ghost predicate SnapshotGives(s: seq<Byte>, g: GameState)
  {
    forall key :: Unfold(key) ==> Decode(s) == Taken(g, [])
  }

  lemma WholeBodyReads(c: Components, ids: seq<EntityId>, bits: real -> U32)
    ensures Gives(Body(c, ids, bits), |ids|, PushAll(c, ids, bits), [])
  {
    BodyReads(c, ids, bits, []);
    assert Body(c, ids, bits) + [] == Body(c, ids, bits);
  }

  lemma HeaderReads(n: EntityId, body: seq<Byte>)
    ensures Decode([DATA_TYPE_SNAPSHOT, 0] + (Put16(n) + body)) == TakeAll(GameState([], []), body, n)
  {
    var s := [DATA_TYPE_SNAPSHOT, 0] + (Put16(n) + body);
    assert s[2..] == Put16(n) + body;
    Take16Puts(n, body);
  }

  lemma FrameGives(n: EntityId, body: seq<Byte>, g: GameState)
    requires Gives(body, n, g, [])
    ensures SnapshotGives([DATA_TYPE_SNAPSHOT, 0] + (Put16(n) + body), g)
  {
    assert Unfold(0);
    HeaderReads(n, body);
  }

  lemma SnapshotIs(c: Components, ids: seq<EntityId>, bits: real -> U32)
    requires |ids| < IDS
    ensures Snapshot(c, ids, bits) == [DATA_TYPE_SNAPSHOT, 0] + (Put16(|ids|) + Body(c, ids, bits))
  {
    var n: EntityId := |ids|;
    assert n % IDS == n;
  }

  lemma SnapshotHolds(c: Components, ids: seq<EntityId>, bits: real -> U32, body: seq<Byte>, g: GameState)
    requires |ids| < IDS && body == Body(c, ids, bits) && Gives(body, |ids|, g, [])
    ensures SnapshotGives(Snapshot(c, ids, bits), g)
  {
    SnapshotIs(c, ids, bits);
    FrameGives(|ids|, body, g);
  }

  lemma SnapshotReads(c: Components, ids: seq<EntityId>, bits: real -> U32)
    requires Shape(c) && (forall x :: x in ids ==> x in c.entities) && |ids| < IDS
    ensures SnapshotGives(Snapshot(c, ids, bits), GameState(ActorsOf(Records(c), ids, bits), BulletsOf(Records(c), ids, bits)))
  {
    WholeBodyReads(c, ids, bits);
    PushedAre(c, ids, bits);
    SnapshotHolds(c, ids, bits, Body(c, ids, bits), GameState(ActorsOf(Records(c), ids, bits), BulletsOf(Records(c), ids, bits)));
  }

  lemma {:induction false} SortedIsBounded(ids: seq<EntityId>, i: nat)
    requires Ascending(ids) && i < |ids|
    ensures i <= ids[i]
  {
    if i > 0 {
      SortedIsBounded(ids, i - 1);
    }
  }

  lemma FullSnapshotIsLost(c: Components, ids: seq<EntityId>, bits: real -> U32)
    requires |ids| == IDS
    ensures Decode(Snapshot(c, ids, bits)) == Taken(GameState([], []), Body(c, ids, bits)) && Body(c, ids, bits) != []
  {
    HeaderReads(0, Body(c, ids, bits));
  }

  /**
   * The client reads back exactly the actors and the bullets, in ascending order of their ids,
   * and every byte, for a world of fewer than 65,536 entities; for a full one it reads nothing.
   */
  lemma SnapshotRoundTrip(c: Components, ids: seq<EntityId>, bits: real -> U32)
    requires Shape(c) && SortedList(ids, c.entities)
    ensures Decode(Snapshot(c, ids, bits)) == Taken(GameState(ActorsOf(Records(c), ids, bits), BulletsOf(Records(c), ids, bits)), [])
      <==> |ids| < IDS
  {
    if |ids| < IDS {
      SnapshotReads(c, ids, bits);
      assert Unfold(0);
    } else {
      SortedIsBounded(ids, |ids| - 1);
      FullSnapshotIsLost(c, ids, bits);
    }
  }

  /** The actors the client gets are those of the world, each once, in ascending order of their ids. */
  lemma {:induction false} ActorsInOrder(w: World, ids: seq<EntityId>, bits: real -> U32)
    requires Ascending(ids)
    ensures var r := ActorsOf(w, ids, bits);
      && (forall i, j :: 0 <= i < j < |r| ==> r[i].entityId < r[j].entityId)
      && forall v :: v in r <==> v.entityId in ids && v.entityId in w.actors && v == ActorView(v.entityId, w.actors[v.entityId], bits)
  {
    if ids != [] {
      ActorsInOrder(w, ids[..|ids| - 1], bits);
      assert ids == ids[..|ids| - 1] + [ids[|ids| - 1]];
    }
  }

  lemma {:induction false} BulletsInOrder(w: World, ids: seq<EntityId>, bits: real -> U32)
    requires Ascending(ids)
    ensures var r := BulletsOf(w, ids, bits);
      && (forall i, j :: 0 <= i < j < |r| ==> r[i].entityId < r[j].entityId)
      && forall v :: v in r <==> v.entityId in ids && v.entityId in w.bullets && v == BulletView(v.entityId, w.bullets[v.entityId], bits)
  {
    if ids != [] {
      BulletsInOrder(w, ids[..|ids| - 1], bits);
      assert ids == ids[..|ids| - 1] + [ids[|ids| - 1]];
    }
  }

  // ---------- What the client gets, field by field ----------

  /** A decoded actor shows the components of its entity. */
  ghost predicate ShowsActor(c: Components, v: ClientActor, bits: real -> U32)
  {
    && v.entityId in c.health && v.entityId in c.position && v.entityId in c.life && v.entityId in c.tag
    && v.x == bits(c.position[v.entityId].x) && v.y == bits(c.position[v.entityId].y)
    && v.hp == c.health[v.entityId] && v.state as bv8 == c.life[v.entityId] && v.tag == c.tag[v.entityId]
  }

  /** A decoded bullet shows the components of its entity, but for the time to live. */
  ghost predicate ShowsBullet(c: Components, v: ClientBullet, bits: real -> U32)
  {
    && v.entityId in c.ttl && v.entityId in c.position && v.entityId in c.velocity && v.entityId in c.owner
    && v.x == bits(c.position[v.entityId].x) && v.y == bits(c.position[v.entityId].y)
    && v.vx == bits(c.velocity[v.entityId].x) && v.vy == bits(c.velocity[v.entityId].y)
    && v.ownerId == c.owner[v.entityId]
  }

  lemma StateIsWhole(life: bv8)
    ensures StateByte(life) as bv8 == life
  {
  }

  /** The decoded actors are exactly those of the component maps, each once, in ascending order. */
  lemma ActorsAsTheyAre(c: Components, ids: seq<EntityId>, bits: real -> U32)
    requires Shape(c) && SortedList(ids, c.entities)
    ensures var r := ActorsOf(Records(c), ids, bits);
      && (forall i, j :: 0 <= i < j < |r| ==> r[i].entityId < r[j].entityId)
      && (forall v :: v in r ==> ShowsActor(c, v, bits))
      && forall id :: id in c.health ==> exists v :: v in r && v.entityId == id
  {
    ActorsInOrder(Records(c), ids, bits);
    var r := ActorsOf(Records(c), ids, bits);
    forall v | v in r
      ensures ShowsActor(c, v, bits)
    {
      assert ShapeAt(c, v.entityId);
      StateIsWhole(c.life[v.entityId]);
    }
    forall id | id in c.health
      ensures exists v :: v in r && v.entityId == id
    {
      assert ShapeAt(c, id);
      assert ActorView(id, Records(c).actors[id], bits) in r;
    }
  }

  lemma BulletsAsTheyAre(c: Components, ids: seq<EntityId>, bits: real -> U32)
    requires Shape(c) && SortedList(ids, c.entities)
    ensures var r := BulletsOf(Records(c), ids, bits);
      && (forall i, j :: 0 <= i < j < |r| ==> r[i].entityId < r[j].entityId)
      && (forall v :: v in r ==> ShowsBullet(c, v, bits))
      && forall id :: id in c.ttl ==> exists v :: v in r && v.entityId == id
  {
    BulletsInOrder(Records(c), ids, bits);
    var r := BulletsOf(Records(c), ids, bits);
    forall v | v in r
      ensures ShowsBullet(c, v, bits)
    {
      assert ShapeAt(c, v.entityId);
    }
    forall id | id in c.ttl
      ensures exists v :: v in r && v.entityId == id
    {
      assert ShapeAt(c, id);
      assert BulletView(id, Records(c).bullets[id], bits) in r;
    }
  }

  /** What the client gets of a world that is not full: every actor and every bullet with its
      components, in ascending order of the ids, and nothing else; and it reads every byte. */
  lemma ClientGetsTheWorld(c: Components, ids: seq<EntityId>, bits: real -> U32)
    requires Shape(c) && SortedList(ids, c.entities) && |ids| < 65536
    ensures var d := Decode(Snapshot(c, ids, bits));
      && d.Taken? && d.rest == []
      && (forall v :: v in d.value.actors ==> ShowsActor(c, v, bits)) && (forall v :: v in d.value.bullets ==> ShowsBullet(c, v, bits))
      && (forall id :: id in c.health ==> exists v :: v in d.value.actors && v.entityId == id)
      && (forall id :: id in c.ttl ==> exists v :: v in d.value.bullets && v.entityId == id)
      && (forall i, j :: 0 <= i < j < |d.value.actors| ==> d.value.actors[i].entityId < d.value.actors[j].entityId)
      && (forall i, j :: 0 <= i < j < |d.value.bullets| ==> d.value.bullets[i].entityId < d.value.bullets[j].entityId)
  {
    SnapshotRoundTrip(c, ids, bits);
    ActorsAsTheyAre(c, ids, bits);
    BulletsAsTheyAre(c, ids, bits);
  }

  /** The client's test of a state byte. */
  predicate ClientIsAlive(state: Byte)
  {
    state as bv8 & 0x01 != 0
  }

  /** The client sees an actor alive exactly when the server does. */
  lemma AliveForBoth(c: Components, v: ClientActor, bits: real -> U32)
    requires ShowsActor(c, v, bits)
    ensures ClientIsAlive(v.state) <==> c.life[v.entityId] % 2 == 1
  {
    assert v.state as bv8 & 0x01 != 0 <==> (v.state as bv8) % 2 == 1;
  }

  /** The first bytes of a snapshot: data type 5, sub type 0, the number of entities. */
  lemma SnapshotStarts(c: Components, ids: seq<EntityId>, bits: real -> U32)
    ensures var s := Snapshot(c, ids, bits);
      |s| >= 4 && s[0] == 5 && s[1] == 0 && s[2] as int + 0x100 * s[3] as int == |ids| % 65536
  {
    BytesOf16(|ids| % IDS);
  }
}
