/** The layered messages between client and server. */
module RoomMessage {
  import opened Varint

  const ROOM_MESSAGE: U64 := 0
  const PING: U64 := 1
  const PONG: U64 := 2
  const ASSIGN: U64 := 3

  datatype Header = Header(msgType: U64, totalLen: U64, n: nat) | HeaderTooShort
  datatype RoomId = RoomId(bytes: seq<Byte>, n: nat) | RoomIdTooShort | InvalidRoomId
  datatype RoomType = RoomType(value: U64, n: nat) | RoomTypeTooShort

  // ---------- Parsers ----------

  /** Two values one behind the other, inside the buffer. */
  ghost predicate TwoValues(buf: seq<Byte>, k: nat, a: U64, b: U64, n: nat)
  {
    k <= n <= |buf| && ReadVarint(buf) == Value(a, k) && ReadVarint(buf[k..]) == Value(b, n - k)
  }

  /** The message type and the length of the payload; what is consumed is inside the buffer. */
  function ParseTransportHeader(buf: seq<Byte>): (r: Header)
    ensures r.Header? ==> 2 <= r.n <= |buf| && exists k :: TwoValues(buf, k, r.msgType, r.totalLen, r.n)
    ensures r.HeaderTooShort? ==> forall k, a, b, n :: !TwoValues(buf, k, a, b, n)
  {
    var first := ReadVarint(buf);
    if first.TooShort? then HeaderTooShort
    else
      var second := ReadVarint(buf[first.n..]);
      if second.TooShort? then HeaderTooShort
      else
        assert TwoValues(buf, first.n, first.value, second.value, first.n + second.n);
        Header(first.value, second.value, first.n + second.n)
  }

  /** A string behind its length; a length that points behind the buffer is refused. */
  function ParseRoomId(buf: seq<Byte>): (r: RoomId)
    ensures r.RoomId? ==> |r.bytes| < r.n <= |buf| && r.bytes == buf[r.n - |r.bytes|..r.n]
    ensures r.RoomId? ==> ReadVarint(buf).Value? && ReadVarint(buf).value == |r.bytes| && ReadVarint(buf).n == r.n - |r.bytes|
    ensures r.InvalidRoomId? <==> ReadVarint(buf).Value? && ReadVarint(buf).n + ReadVarint(buf).value > |buf|
  {
    var length := ReadVarint(buf);
    if length.TooShort? then RoomIdTooShort
    else
      var end := length.n + length.value;
      if |buf| < end then InvalidRoomId else RoomId(buf[length.n..end], end)
  }

  function ParseRoomHeader(buf: seq<Byte>): (r: RoomType)
    ensures r.RoomType? ==> 1 <= r.n <= |buf| && ReadVarint(buf) == Value(r.value, r.n)
    ensures r.RoomTypeTooShort? <==> buf == [] || |buf| < Announced(buf[0])
  {
    var v := ReadVarint(buf);
    if v.TooShort? then RoomTypeTooShort else RoomType(v.value, v.n)
  }

  // ---------- Encoders ----------

  function Framed(msgType: U64, payload: seq<Byte>): seq<Byte>
    requires |payload| < LIMIT
  {
    AppendVarint(AppendVarint([], msgType), |payload|) + payload
  }

  function RoomPayload(roomId: seq<Byte>, roomType: U64, app: seq<Byte>): seq<Byte>
    requires |roomId| < LIMIT
  {
    AppendVarint(AppendVarint([], |roomId|) + roomId, roomType) + app
  }

  /** Whether the lengths of a message fit into a varint, as all lengths in memory do. */
  predicate Fits(roomId: seq<Byte>, app: seq<Byte>)
  {
    |roomId| + |app| + 16 < LIMIT
  }

  lemma PayloadLength(roomId: seq<Byte>, roomType: U64, app: seq<Byte>)
    requires Fits(roomId, app)
    ensures |RoomPayload(roomId, roomType, app)| == VarintLen(|roomId|) + |roomId| + VarintLen(roomType) + |app| < LIMIT
  {
    AppendIsConcat(AppendVarint([], |roomId|) + roomId, roomType);
  }

  method EncodePing() returns (buf: seq<Byte>)
    ensures ParseTransportHeader(buf) == Header(PING, 0, |buf|) && buf == [1, 0]
  {
    buf := [];
    buf := AppendVarint(buf, PING);
    buf := AppendVarint(buf, 0);
    FrameParses(PING, []);
  }

  method EncodePong() returns (buf: seq<Byte>)
    ensures ParseTransportHeader(buf) == Header(PONG, 0, |buf|) && buf == [2, 0]
  {
    buf := [];
    buf := AppendVarint(buf, PONG);
    buf := AppendVarint(buf, 0);
    FrameParses(PONG, []);
  }

  method EncodeAssign(session: seq<Byte>) returns (buf: seq<Byte>)
    requires |session| == 16
    ensures var h := ParseTransportHeader(buf); h == Header(ASSIGN, 16, 2) && buf[h.n..] == session && buf == [3, 16] + session
  {
    buf := [];
    buf := AppendVarint(buf, ASSIGN);
    buf := AppendVarint(buf, 16);
    buf := buf + session;
    FrameParses(ASSIGN, session);
  }

  method EncodeRoomMessage(roomId: seq<Byte>, roomType: U64, app: seq<Byte>) returns (buf: seq<Byte>)
    requires Fits(roomId, app)
    ensures |RoomPayload(roomId, roomType, app)| < LIMIT && buf == Framed(ROOM_MESSAGE, RoomPayload(roomId, roomType, app)) && buf[0] == 0
  {
    PayloadLength(roomId, roomType, app);
    var payload: seq<Byte> := [];
    payload := AppendVarint(payload, |roomId|);
    payload := payload + roomId;
    payload := AppendVarint(payload, roomType);
    payload := payload + app;
    buf := [];
    buf := AppendVarint(buf, ROOM_MESSAGE);
    buf := AppendVarint(buf, |payload|);
    buf := buf + payload;
  }

  // ---------- Layout ----------

  /** The message type, the length of the payload, the payload: each number in its wire form. */
  lemma FrameLayout(msgType: U64, payload: seq<Byte>)
    requires msgType < LIMIT && |payload| < LIMIT
    ensures Framed(msgType, payload) == Wire(msgType) + Wire(|payload|) + payload
  {
    WrittenIsWire([], msgType);
    WrittenIsWire(Wire(msgType), |payload|);
    assert [] + Wire(msgType) == Wire(msgType);
  }

  /** The length of the room id, the room id, the room message type, the data. */
  lemma PayloadLayout(roomId: seq<Byte>, roomType: U64, app: seq<Byte>)
    requires |roomId| < LIMIT && roomType < LIMIT
    ensures RoomPayload(roomId, roomType, app) == Wire(|roomId|) + roomId + Wire(roomType) + app
  {
    WrittenIsWire([], |roomId|);
    assert [] + Wire(|roomId|) == Wire(|roomId|);
    WrittenIsWire(Wire(|roomId|) + roomId, roomType);
  }

  // ---------- Round trips ----------

  /** The header of a frame gives its type and length, and what follows it is the payload. */
  lemma FrameParses(msgType: U64, payload: seq<Byte>)
    requires msgType < LIMIT && |payload| < LIMIT
    ensures var h := ParseTransportHeader(Framed(msgType, payload));
      && h.Header? && h.msgType == msgType && h.totalLen == |payload| && h.n == VarintLen(msgType) + VarintLen(|payload|)
      && Framed(msgType, payload)[h.n..] == payload
  {
    var m, l := AppendVarint([], msgType), AppendVarint([], |payload|);
    AppendIsConcat(m, |payload|);
    AppendIsConcat([], msgType);
    AppendIsConcat([], |payload|);
    Associate(m, l, payload);
    TwoVarints(msgType, |payload|, payload);
  }

  lemma Associate(a: seq<Byte>, b: seq<Byte>, c: seq<Byte>)
    ensures a + b + c == a + (b + c)
  {
  }

  lemma TwoVarints(a: U64, b: U64, rest: seq<Byte>)
    requires a < LIMIT && b < LIMIT
    ensures var buf := AppendVarint([], a) + (AppendVarint([], b) + rest);
      ParseTransportHeader(buf) == Header(a, b, VarintLen(a) + VarintLen(b)) && buf[VarintLen(a) + VarintLen(b)..] == rest
  {
    var m, l := AppendVarint([], a), AppendVarint([], b);
    var buf := m + (l + rest);
    AppendIsConcat([], a);
    AppendIsConcat([], b);
    ReadAfterAppend(a, l + rest);
    ReadAfterAppend(b, rest);
    assert buf[|m|..] == l + rest;
    assert (l + rest)[|l|..] == rest;
  }

  /** The room id, the room message type and the application data come out of the payload as they went in. */
  lemma PayloadParses(roomId: seq<Byte>, roomType: U64, app: seq<Byte>)
    requires Fits(roomId, app) && roomType < LIMIT
    ensures var payload := RoomPayload(roomId, roomType, app);
      var id := ParseRoomId(payload);
      && id.RoomId? && id.bytes == roomId
      && var t := ParseRoomHeader(payload[id.n..]);
      t.RoomType? && t.value == roomType && payload[id.n..][t.n..] == app
  {
    var l, t := AppendVarint([], |roomId|), AppendVarint([], roomType);
    AppendIsConcat(l + roomId, roomType);
    assert RoomPayload(roomId, roomType, app) == l + (roomId + (t + app));
    StringParses(roomId, t + app);
    AppendIsConcat([], roomType);
    ReadAfterAppend(roomType, app);
  }

  lemma StringParses(text: seq<Byte>, rest: seq<Byte>)
    requires |text| < LIMIT
    ensures var buf := AppendVarint([], |text|) + (text + rest);
      var r := ParseRoomId(buf); r.RoomId? && r.bytes == text && buf[r.n..] == rest
  {
    AppendIsConcat([], |text|);
    ReadAfterAppend(|text|, text + rest);
  }

  /** The parsers undo the encoder of room messages, layer by layer, and nothing is left over. */
  lemma RoomMessageRoundTrip(roomId: seq<Byte>, roomType: U64, app: seq<Byte>)
    requires Fits(roomId, app) && roomType < LIMIT
    ensures |RoomPayload(roomId, roomType, app)| < LIMIT
    ensures var buf := Framed(ROOM_MESSAGE, RoomPayload(roomId, roomType, app));
      var h := ParseTransportHeader(buf);
      && h.Header? && h.msgType == ROOM_MESSAGE && h.n + h.totalLen == |buf|
      && var id := ParseRoomId(buf[h.n..]);
      && id.RoomId? && id.bytes == roomId
      && var t := ParseRoomHeader(buf[h.n..][id.n..]);
      t.RoomType? && t.value == roomType && buf[h.n..][id.n..][t.n..] == app
  {
    PayloadLength(roomId, roomType, app);
    FrameParses(ROOM_MESSAGE, RoomPayload(roomId, roomType, app));
    PayloadParses(roomId, roomType, app);
  }

  // ---------- The client ----------

  /** The client's reading of a frame: the type, and what it takes for the payload. */
  function ClientParse(data: seq<Byte>): (r: (ClientRead, ClientRead, seq<Byte>))
  {
    var t := ClientReadVarint(data, 0);
    if t.EightBytes? then (t, EightBytes, [])
    else
      var l := ClientReadVarint(data, t.n);
      if l.EightBytes? then (t, l, [])
      else
        var start := Least(t.n + l.n, |data|);
        (t, l, data[start..Least(start + l.value, |data|)])
  }

  function Least(a: nat, b: nat): nat
  {
    if a < b then a else b
  }

  /** The client finds the type and the payload in every frame of the server with fewer than 2^30 bytes. */
  lemma ClientParsesFrame(msgType: U64, payload: seq<Byte>)
    requires msgType <= MAX_4 && |payload| <= MAX_4
    ensures ClientParse(Framed(msgType, payload)) == (Read(msgType, VarintLen(msgType)), Read(|payload|, VarintLen(|payload|)), payload)
  {
    var m, l := AppendVarint([], msgType), AppendVarint([], |payload|);
    AppendIsConcat([], msgType);
    AppendIsConcat([], |payload|);
    AppendIsConcat(m, |payload|);
    var buf := Framed(msgType, payload);
    assert buf == m + (l + payload);
    ClientReadsServer([], msgType, l + payload);
    ClientReadsServer(m, |payload|, payload);
    assert buf[|m| + |l|..|m| + |l| + |payload|] == payload;
  }

  /** What the client writes: nothing for a length or a type from 2^30 on. */
  function ClientPayload(roomId: seq<Byte>, roomType: nat, app: seq<Byte>): seq<Byte>
  {
    ClientAppendVarint(ClientAppendVarint([], |roomId|) + roomId, roomType) + app
  }

  function ClientFramed(msgType: nat, payload: seq<Byte>): seq<Byte>
  {
    ClientAppendVarint(ClientAppendVarint([], msgType), |payload|) + payload
  }

  method ClientEncodeRoomMessage(roomId: seq<Byte>, roomType: nat, app: seq<Byte>) returns (buf: seq<Byte>)
    ensures buf == ClientFramed(ROOM_MESSAGE, ClientPayload(roomId, roomType, app))
  {
    var inner: seq<Byte> := [];
    inner := ClientAppendVarint(inner, |roomId|);
    inner := inner + roomId;
    inner := ClientAppendVarint(inner, roomType);
    inner := inner + app;
    var outer: seq<Byte> := [];
    outer := ClientAppendVarint(outer, ROOM_MESSAGE);
    outer := ClientAppendVarint(outer, |inner|);
    buf := outer + inner;
  }

  lemma ClientWritesLess(buf: seq<Byte>, value: U64)
    ensures |ClientAppendVarint(buf, value)| <= |AppendVarint(buf, value)| == |buf| + VarintLen(value)
    ensures |ClientAppendVarint(buf, value)| == |AppendVarint(buf, value)| <==> value <= MAX_4
  {
  }

  lemma PayloadsAgree(roomId: seq<Byte>, roomType: U64, app: seq<Byte>)
    requires Fits(roomId, app)
    ensures |ClientPayload(roomId, roomType, app)| <= |RoomPayload(roomId, roomType, app)| < LIMIT
    ensures |roomId| <= MAX_4 && roomType <= MAX_4 ==> ClientPayload(roomId, roomType, app) == RoomPayload(roomId, roomType, app)
    ensures |roomId| > MAX_4 || roomType > MAX_4 ==> |ClientPayload(roomId, roomType, app)| < |RoomPayload(roomId, roomType, app)|
  {
    PayloadLength(roomId, roomType, app);
    ClientWritesAlike([], |roomId|);
    ClientWritesLess([], |roomId|);
    ClientWritesAlike(AppendVarint([], |roomId|) + roomId, roomType);
    ClientWritesLess(ClientAppendVarint([], |roomId|) + roomId, roomType);
  }

  lemma FramesAgree(mine: seq<Byte>, theirs: seq<Byte>)
    requires |mine| <= |theirs| < LIMIT
    ensures |mine| < |theirs| || |theirs| > MAX_4 ==> |ClientFramed(ROOM_MESSAGE, mine)| < |Framed(ROOM_MESSAGE, theirs)|
    ensures mine == theirs && |theirs| <= MAX_4 ==> ClientFramed(ROOM_MESSAGE, mine) == Framed(ROOM_MESSAGE, theirs)
  {
    ClientWritesAlike([], ROOM_MESSAGE);
    ClientWritesAlike(AppendVarint([], ROOM_MESSAGE), |theirs|);
    ClientWritesLess(AppendVarint([], ROOM_MESSAGE), |mine|);
    ClientWritesLess(AppendVarint([], ROOM_MESSAGE), |theirs|);
  }

  /** The client's message is byte for byte the server's if and only if the room id, the type and
      the whole payload stay below 2^30. */
  lemma ClientMessageExactly(roomId: seq<Byte>, roomType: U64, app: seq<Byte>)
    requires Fits(roomId, app)
    ensures |RoomPayload(roomId, roomType, app)| < LIMIT
    ensures ClientFramed(ROOM_MESSAGE, ClientPayload(roomId, roomType, app)) == Framed(ROOM_MESSAGE, RoomPayload(roomId, roomType, app))
      <==> roomType <= MAX_4 && |RoomPayload(roomId, roomType, app)| <= MAX_4
  {
    PayloadLength(roomId, roomType, app);
    PayloadsAgree(roomId, roomType, app);
    FramesAgree(ClientPayload(roomId, roomType, app), RoomPayload(roomId, roomType, app));
  }
}
