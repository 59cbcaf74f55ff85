/** The snapshot of the world on the wire: one record per entity, with the components its mask names. */
module SnapshotFormat {
  import opened Ids
  import opened GameWorld
  import opened Components
  import Varint

  type U32 = x: int | 0 <= x < 0x1_0000_0000

  /** What a record says; a component that is missing reads as 0. Positions and velocities are 32-bit patterns. */
  datatype Entity = Entity(
    id: EntityId, x: U32, y: U32, vx: U32, vy: U32, hp: Byte, state: Byte, ttl: EntityId, owner: EntityId, tag: Byte)

  /** Which components a record has. */
  datatype Mask = Mask(pos: bool, vel: bool, hp: bool, life: bool, ttl: bool, own: bool, tag: bool)

  // ---------- Numbers ----------

  function Put16(v: EntityId): seq<Byte>
  {
    [v % 0x100, v / 0x100]
  }

  function Put32(v: U32): seq<Byte>
  {
    [v % 0x100, v / 0x100 % 0x100, v / 0x1_0000 % 0x100, v / 0x100_0000]
  }

  /** What is read off the front, and what is behind it; reading past the end raises a RangeError. */
  datatype Taken<T> = Taken(value: T, rest: seq<Byte>) | RangeError

  function Take8(s: seq<Byte>): Taken<Byte>
  {
    if |s| < 1 then RangeError else Taken(s[0], s[1..])
  }

  function Take16(s: seq<Byte>): Taken<EntityId>
  {
    if |s| < 2 then RangeError else Taken(s[0] as int + s[1] as int * 0x100, s[2..])
  }

  function Take32(s: seq<Byte>): Taken<U32>
  {
    if |s| < 4 then RangeError
    else Taken(s[0] as int + s[1] as int * 0x100 + s[2] as int * 0x1_0000 + s[3] as int * 0x100_0000, s[4..])
  }

  lemma Take16Puts(v: EntityId, rest: seq<Byte>)
    ensures Take16(Put16(v) + rest) == Taken(v, rest)
  {
    assert (Put16(v) + rest)[2..] == rest;
  }

  lemma Take32Puts(v: U32, rest: seq<Byte>)
    ensures Take32(Put32(v) + rest) == Taken(v, rest)
  {
    assert (Put32(v) + rest)[4..] == rest;
    assert v / 0x100 / 0x100 == v / 0x1_0000 && v / 0x1_0000 / 0x100 == v / 0x100_0000;
  }

  // ---------- The mask byte ----------

  function Bit(b: bool, weight: Byte): Byte
  {
    if b then weight else 0
  }

  function MaskByte(m: Mask): Byte
  {
    Bit(m.pos, 1) + Bit(m.vel, 2) + Bit(m.hp, 4) + Bit(m.life, 8) + Bit(m.ttl, 16) + Bit(m.own, 32) + Bit(m.tag, 64)
  }

  predicate Has(byte: Byte, weight: Byte)
    requires weight > 0
  {
    byte / weight % 2 == 1
  }

  function MaskOf(byte: Byte): Mask
  {
    Mask(Has(byte, 1), Has(byte, 2), Has(byte, 4), Has(byte, 8), Has(byte, 16), Has(byte, 32), Has(byte, 64))
  }

  lemma BitReads(byte: Byte, weight: Byte, high: nat, b: bool, low: nat)
    requires weight > 0 && low < weight && byte == high * (2 * weight) + Bit(b, weight) + low
    ensures Has(byte, weight) == b
  {
    var q := 2 * high + if b then 1 else 0;
    assert q * weight == high * (2 * weight) + Bit(b, weight);
    Varint.DivUnique(byte, weight, q, low);
  }

  function One(b: bool): nat
  {
    if b then 1 else 0
  }

  lemma PosBit(m: Mask)
    ensures Has(MaskByte(m), 1) == m.pos
  {
    BitReads(MaskByte(m), 1, One(m.vel) + 2 * One(m.hp) + 4 * One(m.life) + 8 * One(m.ttl) + 16 * One(m.own) + 32 * One(m.tag), m.pos, 0);
  }

  lemma VelBit(m: Mask)
    ensures Has(MaskByte(m), 2) == m.vel
  {
    BitReads(MaskByte(m), 2, One(m.hp) + 2 * One(m.life) + 4 * One(m.ttl) + 8 * One(m.own) + 16 * One(m.tag), m.vel, One(m.pos));
  }

  lemma HpBit(m: Mask)
    ensures Has(MaskByte(m), 4) == m.hp
  {
    BitReads(MaskByte(m), 4, One(m.life) + 2 * One(m.ttl) + 4 * One(m.own) + 8 * One(m.tag), m.hp, One(m.pos) + 2 * One(m.vel));
  }

  lemma LifeBit(m: Mask)
    ensures Has(MaskByte(m), 8) == m.life
  {
    BitReads(MaskByte(m), 8, One(m.ttl) + 2 * One(m.own) + 4 * One(m.tag), m.life, One(m.pos) + 2 * One(m.vel) + 4 * One(m.hp));
  }

  lemma TtlBit(m: Mask)
    ensures Has(MaskByte(m), 16) == m.ttl
  {
    BitReads(MaskByte(m), 16, One(m.own) + 2 * One(m.tag), m.ttl, One(m.pos) + 2 * One(m.vel) + 4 * One(m.hp) + 8 * One(m.life));
  }

  lemma OwnBit(m: Mask)
    ensures Has(MaskByte(m), 32) == m.own
  {
    BitReads(MaskByte(m), 32, One(m.tag), m.own, One(m.pos) + 2 * One(m.vel) + 4 * One(m.hp) + 8 * One(m.life) + 16 * One(m.ttl));
  }

  lemma TagBit(m: Mask)
    ensures Has(MaskByte(m), 64) == m.tag
  {
    BitReads(MaskByte(m), 64, 0, m.tag, One(m.pos) + 2 * One(m.vel) + 4 * One(m.hp) + 8 * One(m.life) + 16 * One(m.ttl) + 32 * One(m.own));
  }

  /** Setting the bits of a mask and reading them back are inverse. */
  lemma MaskReads(m: Mask)
    ensures MaskOf(MaskByte(m)) == m
  {
    PosBit(m);
    VelBit(m);
    HpBit(m);
    LifeBit(m);
    TtlBit(m);
    OwnBit(m);
    TagBit(m);
  }

  // ---------- Records ----------

  function If(present: bool, bytes: seq<Byte>): seq<Byte>
  {
    if present then bytes else []
  }

  /** The record of an entity. */
  function Record(e: Entity, m: Mask): seq<Byte>
  {
    Put16(e.id) + [MaskByte(m)] + If(m.pos, Put32(e.x) + Put32(e.y)) + If(m.vel, Put32(e.vx) + Put32(e.vy)) + If(m.hp, [e.hp])
      + If(m.life, [e.state]) + If(m.ttl, Put16(e.ttl)) + If(m.own, Put16(e.owner)) + If(m.tag, [e.tag])
  }

  datatype Pair = Pair(x: U32, y: U32)

  function TakePair(present: bool, s: seq<Byte>): Taken<Pair>
  {
    if !present then Taken(Pair(0, 0), s)
    else
      var x := Take32(s);
      if x.RangeError? then RangeError
      else
        var y := Take32(x.rest);
        if y.RangeError? then RangeError else Taken(Pair(x.value, y.value), y.rest)
  }

  function TakeByte(present: bool, s: seq<Byte>): Taken<Byte>
  {
    if present then Take8(s) else Taken(0, s)
  }

  function TakeShort(present: bool, s: seq<Byte>): Taken<EntityId>
  {
    if present then Take16(s) else Taken(0, s)
  }

  /** The health and the life state of a record. */
  function TakeLife(m: Mask, e: Entity, s: seq<Byte>): Taken<Entity>
  {
    var hp := TakeByte(m.hp, s);
    if hp.RangeError? then RangeError else
    var state := TakeByte(m.life, hp.rest);
    if state.RangeError? then RangeError else
    Taken(e.(hp := hp.value, state := state.value), state.rest)
  }

  /** The time to live, the owner and the tag of a record. */
  function TakeRest(m: Mask, e: Entity, s: seq<Byte>): Taken<Entity>
  {
    var ttl := TakeShort(m.ttl, s);
    if ttl.RangeError? then RangeError else
    var owner := TakeShort(m.own, ttl.rest);
    if owner.RangeError? then RangeError else
    var tag := TakeByte(m.tag, owner.rest);
    if tag.RangeError? then RangeError else
    Taken(e.(ttl := ttl.value, owner := owner.value, tag := tag.value), tag.rest)
  }

  /** The components of a record behind its velocity. */
  function TakeTail(m: Mask, e: Entity, s: seq<Byte>): Taken<Entity>
  {
    var f := TakeLife(m, e, s);
    if f.RangeError? then RangeError else TakeRest(m, f.value, f.rest)
  }

  /** Reads a record off the front. */
  function TakeEntity(s: seq<Byte>): Taken<Entity>
  {
    var id := Take16(s);
    if id.RangeError? then RangeError else
    var mask := Take8(id.rest);
    if mask.RangeError? then RangeError else
    var m := MaskOf(mask.value);
    var pos := TakePair(m.pos, mask.rest);
    if pos.RangeError? then RangeError else
    var vel := TakePair(m.vel, pos.rest);
    if vel.RangeError? then RangeError else
    TakeTail(m, Entity(id.value, pos.value.x, pos.value.y, vel.value.x, vel.value.y, 0, 0, 0, 0, 0), vel.rest)
  }

  /** The entity with only the components its mask names. */
  function Masked(e: Entity, m: Mask): Entity
  {
    Entity(e.id, if m.pos then e.x else 0, if m.pos then e.y else 0, if m.vel then e.vx else 0, if m.vel then e.vy else 0,
      if m.hp then e.hp else 0, if m.life then e.state else 0, if m.ttl then e.ttl else 0, if m.own then e.owner else 0, if m.tag then e.tag else 0)
  }

  lemma TakePairPuts(present: bool, x: U32, y: U32, rest: seq<Byte>)
    ensures TakePair(present, If(present, Put32(x) + Put32(y)) + rest) == Taken(if present then Pair(x, y) else Pair(0, 0), rest)
  {
    if present {
      assert Put32(x) + Put32(y) + rest == Put32(x) + (Put32(y) + rest);
      Take32Puts(x, Put32(y) + rest);
      Take32Puts(y, rest);
    }
  }

  lemma TakeBytePuts(present: bool, v: Byte, rest: seq<Byte>)
    ensures TakeByte(present, If(present, [v]) + rest) == Taken(if present then v else 0, rest)
  {
  }

  lemma TakeShortPuts(present: bool, v: EntityId, rest: seq<Byte>)
    ensures TakeShort(present, If(present, Put16(v)) + rest) == Taken(if present then v else 0, rest)
  {
    if present {
      Take16Puts(v, rest);
    }
  }

  /** The components behind the velocity, in reading order. */
  function Tail(e: Entity, m: Mask, rest: seq<Byte>): seq<Byte>
  {
    If(m.hp, [e.hp]) + (If(m.life, [e.state]) + (If(m.ttl, Put16(e.ttl)) + (If(m.own, Put16(e.owner)) + (If(m.tag, [e.tag]) + rest))))
  }

  lemma LifeReads(e: Entity, f: Entity, m: Mask, rest: seq<Byte>)
    ensures TakeLife(m, f, If(m.hp, [e.hp]) + (If(m.life, [e.state]) + rest))
      == Taken(f.(hp := Masked(e, m).hp, state := Masked(e, m).state), rest)
  {
    TakeBytePuts(m.hp, e.hp, If(m.life, [e.state]) + rest);
    TakeBytePuts(m.life, e.state, rest);
  }

  lemma RestReads(e: Entity, f: Entity, m: Mask, rest: seq<Byte>)
    ensures TakeRest(m, f, If(m.ttl, Put16(e.ttl)) + (If(m.own, Put16(e.owner)) + (If(m.tag, [e.tag]) + rest)))
      == Taken(f.(ttl := Masked(e, m).ttl, owner := Masked(e, m).owner, tag := Masked(e, m).tag), rest)
  {
    TakeShortPuts(m.ttl, e.ttl, If(m.own, Put16(e.owner)) + (If(m.tag, [e.tag]) + rest));
    TakeShortPuts(m.own, e.owner, If(m.tag, [e.tag]) + rest);
    TakeBytePuts(m.tag, e.tag, rest);
  }

  lemma TailReads(e: Entity, f: Entity, m: Mask, rest: seq<Byte>)
    ensures TakeTail(m, f, Tail(e, m, rest))
      == Taken(Masked(e, m).(id := f.id, x := f.x, y := f.y, vx := f.vx, vy := f.vy), rest)
  {
    var back := If(m.ttl, Put16(e.ttl)) + (If(m.own, Put16(e.owner)) + (If(m.tag, [e.tag]) + rest));
    LifeReads(e, f, m, back);
    RestReads(e, f.(hp := Masked(e, m).hp, state := Masked(e, m).state), m, rest);
  }

  lemma RecordNests(e: Entity, m: Mask, rest: seq<Byte>)
    ensures Record(e, m) + rest
      == Put16(e.id) + ([MaskByte(m)] + (If(m.pos, Put32(e.x) + Put32(e.y)) + (If(m.vel, Put32(e.vx) + Put32(e.vy)) + Tail(e, m, rest))))
  {
    var p, v := If(m.pos, Put32(e.x) + Put32(e.y)), If(m.vel, Put32(e.vx) + Put32(e.vy));
    var h := Put16(e.id) + [MaskByte(m)] + p + v;
    TailNests(h, e, m, rest);
    var t := Tail(e, m, rest);
    assert Record(e, m) + rest == h + t;
    assert h + t == Put16(e.id) + ([MaskByte(m)] + (p + (v + t)));
  }

  lemma TailNests(h: seq<Byte>, e: Entity, m: Mask, rest: seq<Byte>)
    ensures h + If(m.hp, [e.hp]) + If(m.life, [e.state]) + If(m.ttl, Put16(e.ttl)) + If(m.own, Put16(e.owner)) + If(m.tag, [e.tag]) + rest
      == h + Tail(e, m, rest)
  {
    Nest6(h, If(m.hp, [e.hp]), If(m.life, [e.state]), If(m.ttl, Put16(e.ttl)), If(m.own, Put16(e.owner)), If(m.tag, [e.tag]), rest);
  }

  lemma Nest6(h: seq<Byte>, a: seq<Byte>, b: seq<Byte>, c: seq<Byte>, d: seq<Byte>, e: seq<Byte>, r: seq<Byte>)
    ensures h + a + b + c + d + e + r == h + (a + (b + (c + (d + (e + r)))))
  {
    assert h + a + b + c + d + e + r == h + a + b + c + d + (e + r);
    assert h + a + b + c + d + (e + r) == h + a + b + c + (d + (e + r));
    assert h + a + b + c + (d + (e + r)) == h + a + b + (c + (d + (e + r)));
    assert h + a + b + (c + (d + (e + r))) == h + a + (b + (c + (d + (e + r))));
  }

  /** Reading a record gives exactly the components its mask names, and leaves what is behind it. */
  lemma EntityReads(e: Entity, m: Mask, rest: seq<Byte>)
    ensures TakeEntity(Record(e, m) + rest) == Taken(Masked(e, m), rest)
  {
    RecordNests(e, m, rest);
    var t := Tail(e, m, rest);
    var s3 := If(m.vel, Put32(e.vx) + Put32(e.vy)) + t;
    var s2 := If(m.pos, Put32(e.x) + Put32(e.y)) + s3;
    Take16Puts(e.id, [MaskByte(m)] + s2);
    assert Take8([MaskByte(m)] + s2) == Taken(MaskByte(m), s2);
    MaskReads(m);
    TakePairPuts(m.pos, e.x, e.y, s3);
    TakePairPuts(m.vel, e.vx, e.vy, t);
    TailReads(e, Entity(e.id, Masked(e, m).x, Masked(e, m).y, Masked(e, m).vx, Masked(e, m).vy, 0, 0, 0, 0, 0), m, rest);
  }

  // ---------- The bytes themselves ----------

  /** Little-endian: the low byte comes first. */
  lemma BytesOf16(v: EntityId)
    ensures |Put16(v)| == 2 && v == Put16(v)[0] as int + 0x100 * Put16(v)[1] as int
  {
  }

  lemma BytesOf32(v: U32)
    ensures |Put32(v)| == 4 && v == Put32(v)[0] as int + 0x100 * Put32(v)[1] as int + 0x1_0000 * Put32(v)[2] as int + 0x100_0000 * Put32(v)[3] as int
  {
    Varint.DivDiv(v, 0x100, 0x100);
    Varint.DivDiv(v, 0x1_0000, 0x100);
  }

  /** An actor's record: id, mask 0x4d, position, health, life state and tag. */
  lemma ActorRecord(e: Entity, m: Mask)
    requires m == Mask(true, false, true, true, false, false, true)
    ensures Record(e, m) == Put16(e.id) + [0x4d] + Put32(e.x) + Put32(e.y) + [e.hp, e.state, e.tag]
  {
    assert If(m.hp, [e.hp]) + If(m.life, [e.state]) + If(m.tag, [e.tag]) == [e.hp, e.state, e.tag];
  }

  /** A bullet's record: id, mask 0x73, position, velocity, time to live, owner and tag. */
  lemma BulletRecord(e: Entity, m: Mask)
    requires m == Mask(true, true, false, false, true, true, true)
    ensures Record(e, m)
      == Put16(e.id) + [0x73] + Put32(e.x) + Put32(e.y) + Put32(e.vx) + Put32(e.vy) + Put16(e.ttl) + Put16(e.owner) + [e.tag]
  {
  }
}
