/** Variable-length integers as in section 16 of RFC 9000: the top two bits of the first byte give the length. */
module Varint {
  type Byte = x: int | 0 <= x < 256
  type U64 = x: int | 0 <= x < 0x1_0000_0000_0000_0000

  const MAX_1: int := 63
  const MAX_2: int := 16383
  const MAX_4: int := 1073741823
  /** The first value that has no encoding. */
  const LIMIT: int := 0x4000_0000_0000_0000

  datatype Read = Value(value: U64, n: nat) | TooShort

  /** The length the first byte announces: 1, 2, 4 or 8. */
  function Announced(first: Byte): nat
  {
    if first < 64 then 1 else if first < 128 then 2 else if first < 192 then 4 else 8
  }

  /** Reads a value off the front, without ever looking behind the buffer. */
  function ReadVarint(buf: seq<Byte>): (r: Read)
    ensures r.Value? ==> 0 < r.n <= |buf| && r.value < LIMIT
    ensures r.TooShort? <==> buf == [] || |buf| < Announced(buf[0])
  {
    if buf == [] then TooShort
    else
      var length := Announced(buf[0]);
      if |buf| < length then TooShort
      else if length == 1 then Value(buf[0] % 64, 1)
      else if length == 2 then Value((buf[0] % 64) as int * 0x100 + buf[1], 2)
      else if length == 4 then Value((buf[0] % 64) as int * 0x100_0000 + buf[1] as int * 0x1_0000 + buf[2] as int * 0x100 + buf[3], 4)
      else
        Value((buf[0] % 64) as int * 0x100_0000_0000_0000 + buf[1] as int * 0x1_0000_0000_0000 + buf[2] as int * 0x100_0000_0000 + buf[3] as int * 0x1_0000_0000
          + buf[4] as int * 0x100_0000 + buf[5] as int * 0x1_0000 + buf[6] as int * 0x100 + buf[7], 8)
  }

  /** The first byte holds the length above the top bits of the value; in the last form only six of those bits remain. */
  function AppendVarint(buf: seq<Byte>, value: U64): seq<Byte>
  {
    if value <= MAX_1 then buf + [value]
    else if value <= MAX_2 then buf + [0x40 + value / 0x100, value % 0x100]
    else if value <= MAX_4 then
      buf + [0x80 + value / 0x100_0000, value / 0x1_0000 % 0x100, value / 0x100 % 0x100, value % 0x100]
    else
      buf + [0xc0 + value / 0x100_0000_0000_0000 % 64, value / 0x1_0000_0000_0000 % 0x100, value / 0x100_0000_0000 % 0x100,
        value / 0x1_0000_0000 % 0x100, value / 0x100_0000 % 0x100, value / 0x1_0000 % 0x100, value / 0x100 % 0x100, value % 0x100]
  }

  function VarintLen(value: U64): nat
  {
    if value <= MAX_1 then 1 else if value <= MAX_2 then 2 else if value <= MAX_4 then 4 else 8
  }

  // ---------- Big-endian numbers ----------

  /** The value of big-endian bytes. */
  function Joined(bytes: seq<Byte>): (v: nat)
  {
    if bytes == [] then 0 else Joined(bytes[..|bytes| - 1]) * 0x100 + bytes[|bytes| - 1]
  }

  /** The last n bytes of a value. */
  function Split(v: nat, n: nat): (bytes: seq<Byte>)
    ensures |bytes| == n
  {
    if n == 0 then [] else Split(v / 0x100, n - 1) + [v % 0x100]
  }

  function Power(n: nat): (p: nat)
    ensures p > 0
  {
    if n == 0 then 1 else 0x100 * Power(n - 1)
  }

  lemma DivUnique(v: int, d: int, q: int, r: int)
    requires d > 0 && v == q * d + r && 0 <= r < d
    ensures v / d == q && v % d == r
  {
    var k := v / d - q;
    assert v == v / d * d + v % d;
    assert k * d == v / d * d - q * d;
    assert k >= 1 ==> k * d >= d;
    assert k <= -1 ==> k * d <= -d;
  }

  lemma Regroup(q: int, b: int, r: int, a: int)
    ensures (q * b + r) * a == q * (a * b) + r * a
  {
  }

  lemma Below(r: int, b: int, a: int, low: int)
    requires 0 <= r < b && 0 <= low < a
    ensures 0 <= r * a + low < a * b
  {
    assert r * a <= (b - 1) * a;
    assert (b - 1) * a == a * b - a;
  }

  lemma DivDiv(v: nat, a: int, b: int)
    requires a > 0 && b > 0
    ensures v / a / b == v / (a * b)
  {
    var q, r := v / a / b, v / a % b;
    assert a * b > 0;
    Regroup(q, b, r, a);
    Below(r, b, a, v % a);
    DivUnique(v, a * b, q, r * a + v % a);
  }

  lemma DivStep(v: nat, p: nat)
    requires p > 0
    ensures v / 0x100 % p * 0x100 + v % 0x100 == v % (0x100 * p) && v / 0x100 / p == v / (0x100 * p)
  {
    var q, r := v / 0x100 / p, v / 0x100 % p;
    assert v / 0x100 == q * p + r;
    assert v == 0x100 * (q * p + r) + v % 0x100;
    assert 0x100 * (q * p) == q * (0x100 * p);
    DivUnique(v, 0x100 * p, q, 0x100 * r + v % 0x100);
  }

  /** Splitting and joining gives the value back, up to the bytes there is room for. */
  lemma {:induction false} SplitJoined(v: nat, n: nat)
    ensures Joined(Split(v, n)) == v % Power(n)
  {
    if n > 0 {
      SplitJoined(v / 0x100, n - 1);
      assert Split(v, n)[..n - 1] == Split(v / 0x100, n - 1);
      DivStep(v, Power(n - 1));
    }
  }

  lemma {:induction false} JoinedSplit(bytes: seq<Byte>)
    ensures Split(Joined(bytes), |bytes|) == bytes
  {
    if bytes != [] {
      JoinedSplit(bytes[..|bytes| - 1]);
    }
  }

  // ---------- The two forms agree ----------

  lemma Split2(v: nat)
    ensures Split(v, 2) == [v / 0x100 % 0x100, v % 0x100]
  {
    assert Split(v / 0x100, 1) == Split(v / 0x100 / 0x100, 0) + [v / 0x100 % 0x100];
  }

  lemma Split4(v: nat)
    ensures Split(v, 4) == [v / 0x100_0000 % 0x100, v / 0x1_0000 % 0x100, v / 0x100 % 0x100, v % 0x100]
  {
    Split2(v / 0x100 / 0x100);
    assert Split(v / 0x100, 3) == Split(v / 0x100 / 0x100, 2) + [v / 0x100 % 0x100];
    DivDiv(v, 0x100, 0x100);
    DivDiv(v, 0x1_0000, 0x100);
  }

  lemma SplitHalves(v: nat)
    ensures Split(v, 8) == Split(v / 0x1_0000_0000, 4) + Split(v, 4)
  {
    var a, b, c, d := v / 0x100, v / 0x100 / 0x100, v / 0x100 / 0x100 / 0x100, v / 0x100 / 0x100 / 0x100 / 0x100;
    DivDiv(v, 0x100, 0x100);
    DivDiv(v, 0x1_0000, 0x100);
    DivDiv(v, 0x100_0000, 0x100);
    assert d == v / 0x1_0000_0000;
    assert Split(v, 8) == Split(a, 7) + [v % 0x100] && Split(a, 7) == Split(b, 6) + [a % 0x100];
    assert Split(b, 6) == Split(c, 5) + [b % 0x100] && Split(c, 5) == Split(d, 4) + [c % 0x100];
    assert Split(v, 4) == Split(a, 3) + [v % 0x100] && Split(a, 3) == Split(b, 2) + [a % 0x100];
    assert Split(b, 2) == Split(c, 1) + [b % 0x100] && Split(c, 1) == Split(d, 0) + [c % 0x100];
  }

  lemma Split8(v: nat)
    ensures Split(v, 8) == [v / 0x100_0000_0000_0000 % 0x100, v / 0x1_0000_0000_0000 % 0x100, v / 0x100_0000_0000 % 0x100,
      v / 0x1_0000_0000 % 0x100, v / 0x100_0000 % 0x100, v / 0x1_0000 % 0x100, v / 0x100 % 0x100, v % 0x100]
  {
    SplitHalves(v);
    Split4(v);
    Split4(v / 0x1_0000_0000);
    HighPart(v);
  }

  lemma HighPart(v: nat)
    ensures v / 0x1_0000_0000 / 0x100 == v / 0x100_0000_0000
    ensures v / 0x1_0000_0000 / 0x1_0000 == v / 0x1_0000_0000_0000 && v / 0x1_0000_0000 / 0x100_0000 == v / 0x100_0000_0000_0000
  {
    DivDiv(v, 0x1_0000_0000, 0x100);
    DivDiv(v, 0x1_0000_0000, 0x1_0000);
    DivDiv(v, 0x1_0000_0000, 0x100_0000);
  }

  lemma JoinedPrefix(b: seq<Byte>, k: nat)
    requires k < |b|
    ensures Joined(b[..k + 1]) == Joined(b[..k]) * 0x100 + b[k]
  {
    assert b[..k + 1][..k] == b[..k];
  }

  lemma Joined1(b: seq<Byte>)
    requires |b| >= 1
    ensures Joined(b[..1]) == b[0]
  {
    JoinedPrefix(b, 0);
    assert b[..0] == [];
  }

  lemma Joined4(b: seq<Byte>)
    requires |b| >= 4
    ensures Joined(b[..4]) == b[0] as int * 0x100_0000 + b[1] as int * 0x1_0000 + b[2] as int * 0x100 + b[3]
  {
    Joined1(b);
    JoinedPrefix(b, 1);
    JoinedPrefix(b, 2);
    JoinedPrefix(b, 3);
  }

  lemma Joined8(b: seq<Byte>)
    requires |b| >= 8
    ensures Joined(b[..8]) == b[0] as int * 0x100_0000_0000_0000 + b[1] as int * 0x1_0000_0000_0000 + b[2] as int * 0x100_0000_0000
      + b[3] as int * 0x1_0000_0000 + b[4] as int * 0x100_0000 + b[5] as int * 0x1_0000 + b[6] as int * 0x100 + b[7]
  {
    Joined4(b);
    JoinedPrefix(b, 4);
    JoinedPrefix(b, 5);
    JoinedPrefix(b, 6);
    JoinedPrefix(b, 7);
  }

  /** The two top bits for a length, in their place. */
  function Top(n: nat): nat
  {
    if n == 1 then 0 else if n == 2 then 0x4000 else if n == 4 then 0x8000_0000 else 0xc000_0000_0000_0000
  }

  /** What the encoding is by definition: the value in as few of 1, 2, 4 or 8 bytes as it takes, its length in the top two bits. */
  function Wire(value: U64): seq<Byte>
  {
    Split(Top(VarintLen(value)) + value, VarintLen(value))
  }

  lemma AddMultiple(v: nat, m: nat, d: nat)
    requires d > 0
    ensures (m * d + v) / d == m + v / d
  {
    assert v == v / d * d + v % d;
    assert (m + v / d) * d == m * d + v / d * d;
    DivUnique(m * d + v, d, m + v / d, v % d);
  }

  /** A multiple of the next byte's weight does not show in a byte. */
  lemma ByteKept(v: nat, k: nat, d: nat)
    requires d > 0
    ensures (k * 0x100 * d + v) / d % 0x100 == v / d % 0x100
  {
    AddMultiple(v, k * 0x100, d);
    ModAdd(k, v / d);
  }

  lemma ModAdd(k: nat, x: nat)
    ensures (k * 0x100 + x) % 0x100 == x % 0x100
  {
    DivUnique(k * 0x100 + x, 0x100, k + x / 0x100, x % 0x100);
  }

  /** The mark shows in the top byte only. */
  lemma TopByte(v: nat, mark: nat, d: nat)
    requires d > 0 && v / d < 64 && mark + 64 <= 0x100
    ensures (mark * d + v) / d % 0x100 == mark + v / d
  {
    AddMultiple(v, mark, d);
  }

  lemma Marked4(value: nat)
    requires MAX_2 < value <= MAX_4
    ensures (0x8000_0000 + value) / 0x100_0000 % 0x100 == 0x80 + value / 0x100_0000
    ensures (0x8000_0000 + value) / 0x1_0000 % 0x100 == value / 0x1_0000 % 0x100
    ensures (0x8000_0000 + value) / 0x100 % 0x100 == value / 0x100 % 0x100 && (0x8000_0000 + value) % 0x100 == value % 0x100
  {
    TopByte(value, 0x80, 0x100_0000);
    ByteKept(value, 0x80, 0x1_0000);
    ByteKept(value, 0x8000, 0x100);
    ModAdd(0x80_0000, value);
  }

  lemma MarkedLow(value: nat)
    ensures (0xc000_0000_0000_0000 + value) / 0x100_0000 % 0x100 == value / 0x100_0000 % 0x100
    ensures (0xc000_0000_0000_0000 + value) / 0x1_0000 % 0x100 == value / 0x1_0000 % 0x100
    ensures (0xc000_0000_0000_0000 + value) / 0x100 % 0x100 == value / 0x100 % 0x100
    ensures (0xc000_0000_0000_0000 + value) % 0x100 == value % 0x100
  {
    ByteKept(value, 0xc000_0000, 0x100_0000);
    ByteKept(value, 0xc0_0000_0000, 0x1_0000);
    ByteKept(value, 0xc000_0000_0000, 0x100);
    ModAdd(0xc0_0000_0000_0000, value);
  }

  lemma MarkedHigh(value: nat)
    requires value < LIMIT
    ensures (0xc000_0000_0000_0000 + value) / 0x100_0000_0000_0000 % 0x100 == 0xc0 + value / 0x100_0000_0000_0000 % 64
    ensures (0xc000_0000_0000_0000 + value) / 0x1_0000_0000_0000 % 0x100 == value / 0x1_0000_0000_0000 % 0x100
    ensures (0xc000_0000_0000_0000 + value) / 0x100_0000_0000 % 0x100 == value / 0x100_0000_0000 % 0x100
    ensures (0xc000_0000_0000_0000 + value) / 0x1_0000_0000 % 0x100 == value / 0x1_0000_0000 % 0x100
  {
    TopByte(value, 0xc0, 0x100_0000_0000_0000);
    ByteKept(value, 0xc0, 0x1_0000_0000_0000);
    ByteKept(value, 0xc000, 0x100_0000_0000);
    ByteKept(value, 0xc0_0000, 0x1_0000_0000);
  }

  lemma WrittenIsWire(buf: seq<Byte>, value: U64)
    requires value < LIMIT
    ensures AppendVarint(buf, value) == buf + Wire(value)
  {
    if value <= MAX_1 {
      assert Split(value, 1) == Split(value / 0x100, 0) + [value % 0x100];
    } else if value <= MAX_2 {
      Split2(0x4000 + value);
    } else if value <= MAX_4 {
      Split4(0x8000_0000 + value);
      Marked4(value);
    } else {
      Split8(0xc000_0000_0000_0000 + value);
      MarkedLow(value);
      MarkedHigh(value);
    }
  }

  /** What reading is by definition: the announced bytes as one number, without the two top bits. */
  lemma ReadIsJoined(buf: seq<Byte>)
    requires ReadVarint(buf).Value?
    ensures var n := Announced(buf[0]);
      ReadVarint(buf).n == n && Joined(buf[..n]) == Top(n) + ReadVarint(buf).value
  {
    var n := Announced(buf[0]);
    TopBits(buf[0]);
    if n == 1 {
      Joined1(buf);
    } else if n == 2 {
      Joined1(buf);
      JoinedPrefix(buf, 1);
    } else if n == 4 {
      Joined4(buf);
    } else {
      Joined8(buf);
    }
  }

  /** What the announcement adds to the six bits of the value. */
  lemma TopBits(first: Byte)
    ensures first == first % 64 + match Announced(first) case 1 => 0 case 2 => 0x40 case 4 => 0x80 case _ => 0xc0
  {
  }

  // ---------- Round trip ----------

  lemma PowerValues()
    ensures Power(1) == 0x100 && Power(2) == 0x1_0000 && Power(4) == 0x1_0000_0000 && Power(8) == 0x1_0000_0000_0000_0000
  {
    assert Power(2) == 0x100 * Power(1);
    assert Power(3) == 0x100 * Power(2);
    assert Power(4) == 0x100 * Power(3);
    assert Power(5) == 0x100 * Power(4);
    assert Power(6) == 0x100 * Power(5);
    assert Power(7) == 0x100 * Power(6);
    assert Power(8) == 0x100 * Power(7);
  }

  /** The first byte announces the length of the encoding. */
  lemma WireAnnounces(value: U64)
    requires value < LIMIT
    ensures |Wire(value)| == VarintLen(value) && Announced(Wire(value)[0]) == VarintLen(value)
  {
    WrittenIsWire([], value);
    assert AppendVarint([], value) == Wire(value);
  }

  /** Reading gives back what was written and leaves the bytes behind it alone. */
  lemma ReadAfterAppend(value: U64, rest: seq<Byte>)
    requires value < LIMIT
    ensures ReadVarint(AppendVarint([], value) + rest) == Value(value, VarintLen(value))
  {
    var n := VarintLen(value);
    var bytes := AppendVarint([], value) + rest;
    WrittenIsWire([], value);
    WireAnnounces(value);
    assert bytes[0] == Wire(value)[0] && bytes[..n] == Wire(value);
    ReadIsJoined(bytes);
    WireJoined(value);
  }

  lemma WireJoined(value: U64)
    requires value < LIMIT
    ensures Joined(Wire(value)) == Top(VarintLen(value)) + value
  {
    PowerValues();
    SplitJoined(Top(VarintLen(value)) + value, VarintLen(value));
  }

  /** The bytes in numbers: big-endian, with the length above the value in the top two bits. */
  lemma WrittenBytes(value: U64)
    requires value < LIMIT
    ensures var w := AppendVarint([], value);
      if value < 64 then |w| == 1 && w[0] == value
      else if value < 16384 then |w| == 2 && w[0] as int * 0x100 + w[1] == 0x4000 + value
      else if value < 0x4000_0000 then
        |w| == 4 && w[0] as int * 0x100_0000 + w[1] as int * 0x1_0000 + w[2] as int * 0x100 + w[3] == 0x8000_0000 + value
      else
        && |w| == 8
        && w[0] as int * 0x100_0000_0000_0000 + w[1] as int * 0x1_0000_0000_0000 + w[2] as int * 0x100_0000_0000 + w[3] as int * 0x1_0000_0000
           + w[4] as int * 0x100_0000 + w[5] as int * 0x1_0000 + w[6] as int * 0x100 + w[7] == 0xc000_0000_0000_0000 + value
  {
    var w := AppendVarint([], value);
    WrittenIsWire([], value);
    assert w == Wire(value) == w[..|w|];
    WireJoined(value);
    if |w| == 8 {
      Joined8(w);
    } else if |w| == 4 {
      Joined4(w);
    }
  }

  /** The round trip holds for the values below 2^62, and for no other: there is no check for an overflow. */
  lemma RoundTripExactly(value: U64, rest: seq<Byte>)
    ensures ReadVarint(AppendVarint([], value) + rest) == Value(value, VarintLen(value)) <==> value < LIMIT
  {
    if value < LIMIT {
      ReadAfterAppend(value, rest);
    }
  }

  lemma AppendIsConcat(buf: seq<Byte>, value: U64)
    ensures AppendVarint(buf, value) == buf + AppendVarint([], value) && |AppendVarint([], value)| == VarintLen(value)
  {
  }

  /** No encoding of a value is shorter than the one that is written. */
  lemma WrittenIsShortest(buf: seq<Byte>)
    requires ReadVarint(buf).Value?
    ensures VarintLen(ReadVarint(buf).value) <= ReadVarint(buf).n
  {
  }

  /** Bytes that read as a value in its shortest form are the bytes that are written for it. */
  lemma ShortestIsUnique(buf: seq<Byte>)
    requires ReadVarint(buf).Value? && VarintLen(ReadVarint(buf).value) == ReadVarint(buf).n
    ensures buf[..ReadVarint(buf).n] == AppendVarint([], ReadVarint(buf).value)
  {
    var n, v := ReadVarint(buf).n, ReadVarint(buf).value;
    ReadIsJoined(buf);
    JoinedSplit(buf[..n]);
    WrittenIsWire([], v);
  }

  // ---------- The client ----------

  /** Indexing past the end of a Uint8Array gives undefined, which the bit operators take for 0. */
  function ByteAt(buf: seq<Byte>, i: nat): Byte
  {
    if i < |buf| then buf[i] else 0
  }

  datatype ClientRead = Read(value: nat, n: nat) | EightBytes

  function ClientReadVarint(buf: seq<Byte>, offset: nat): ClientRead
  {
    var b := ByteAt(buf, offset);
    if b < 64 then Read(b % 64, 1)
    else if b < 128 then Read((b % 64) as int * 0x100 + ByteAt(buf, offset + 1), 2)
    else if b < 192 then
      Read((b % 64) as int * 0x100_0000 + ByteAt(buf, offset + 1) as int * 0x1_0000 + ByteAt(buf, offset + 2) as int * 0x100 + ByteAt(buf, offset + 3), 4)
    else EightBytes
  }

  /** The client writes nothing for a value that needs eight bytes. */
  function ClientAppendVarint(buf: seq<Byte>, value: nat): seq<Byte>
  {
    if value <= MAX_1 then buf + [value]
    else if value <= MAX_2 then buf + [0x40 + value / 0x100, value % 0x100]
    else if value <= MAX_4 then
      buf + [0x80 + value / 0x100_0000, value / 0x1_0000 % 0x100, value / 0x100 % 0x100, value % 0x100]
    else buf
  }

  /** A value below 2^30 that the server writes into a message, the client reads there. */
  lemma ClientReadsServer(before: seq<Byte>, value: U64, rest: seq<Byte>)
    requires value <= MAX_4
    ensures ClientReadVarint(AppendVarint(before, value) + rest, |before|) == Read(value, VarintLen(value))
  {
    var buf := AppendVarint(before, value) + rest;
    assert buf[|before|..] == AppendVarint([], value) + rest;
    ReadAfterAppend(value, rest);
    var s := buf[|before|..];
    assert forall i :: 0 <= i < |s| ==> s[i] == ByteAt(buf, |before| + i);
  }

  /** The client and the server write the same bytes for the values below 2^30, and only for those. */
  lemma ClientWritesAlike(buf: seq<Byte>, value: U64)
    ensures ClientAppendVarint(buf, value) == AppendVarint(buf, value) <==> value <= MAX_4
  {
    if value > MAX_4 {
      assert |AppendVarint(buf, value)| == |buf| + 8;
    }
  }
}
