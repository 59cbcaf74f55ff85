/** The sync protocol of one entry as a state machine: browsers that edit, one connection
    handler per browser, the event log, the projector, and the message queues between them.
    Handlers run concurrently, so each stage of a handler is a step of its own. */
module Protocol {
  import opened Ids
  import opened RgaModel
  import opened Projector
  import opened SyncClient

  datatype ServerMsg = Ack(requestId: string, serverSeq: int) | Sync(ops: seq<Operation>, latest: int) | AuthStatus(authenticated: bool)

  /** What the handler of a connection is doing with the message it took. */
  datatype Handler =
    | Idle
    | Syncing(last: int)                                        // subscribed, diff not yet read
    | Storing(requestId: string, op: Operation)                 // subscribed, not yet appended
    | Stored(stored: Operation, seqNo: int)                     // appended (0: duplicate), not yet acknowledged
    | Sharing(shared: Operation, number: int)                   // acknowledged, not yet projected
    | Projected(shown: Operation, place: int)                   // projected, subscribers not yet read
    | Broadcasting(cast: Operation, nr: int, rest: set<SiteId>) // still to be sent to `rest`

  /** A browser, its connection, and what a history of the run says about it: `made` maps the
      wire ids of its own edits to the operations it applied, `got` are the others' operations
      it applied, `joined` tells whether its diff has been read. */
  datatype Peer = Peer(
    client: Client, authenticated: bool, toServer: seq<ClientMsg>, toClient: seq<ServerMsg>, handler: Handler,
    made: map<string, Operation>, got: set<Operation>, joined: bool)

  datatype Sys = Sys(
    peers: map<SiteId, Peer>, log: seq<Operation>, subscribers: set<SiteId>,
    projector: Rga, projected: set<Operation>, refused: set<Operation>, usedIds: set<string>)

  const Start := Sys(map[], [], {}, Empty, {}, {}, {})

  datatype Step =
    | Connect(site: SiteId, authenticated: bool)
    | MakeEdit(site: SiteId, edit: Edit, wireId: string)
    | Take(site: SiteId)
    | ReadDiff(site: SiteId)
    | Store(site: SiteId)
    | SendAck(site: SiteId)
    | Share(site: SiteId)
    | Gather(site: SiteId)
    | Send(site: SiteId, target: SiteId)
    | Deliver(site: SiteId)

  function IdsOf(log: seq<Operation>): set<string>
  {
    set i | 0 <= i < |log| :: log[i].requestId
  }

  /** The operation as stored: under its wire id, with the rights of the connection. */
  function Stamp(op: Operation, id: string, authenticated: bool): Operation
  {
    op.(requestId := id, authenticated := authenticated)
  }

  function DiffAfter(log: seq<Operation>, last: int): seq<Operation>
  {
    if last < 0 then log else if last > |log| then [] else log[last..]
  }

  // ---------- Steps ----------

  predicate Enabled(s: Sys, step: Step)
  {
    match step
    case Connect(c, _) => c !in s.peers
    case MakeEdit(c, _, id) => c in s.peers && id !in s.usedIds && !IsLocal(id)
    case Take(c) => c in s.peers && s.peers[c].handler.Idle? && s.peers[c].toServer != []
    case ReadDiff(c) => c in s.peers && s.peers[c].handler.Syncing?
    case Store(c) => c in s.peers && s.peers[c].handler.Storing?
    case SendAck(c) => c in s.peers && s.peers[c].handler.Stored?
    case Share(c) => c in s.peers && s.peers[c].handler.Sharing?
    case Gather(c) => c in s.peers && s.peers[c].handler.Projected?
    case Send(c, t) => c in s.peers && t in s.peers && s.peers[c].handler.Broadcasting? && t in s.peers[c].handler.rest
    case Deliver(c) => c in s.peers && s.peers[c].toClient != []
  }

  /** On opening, the server tells the rights of the connection and the browser asks for a diff. */
  function NewPeer(c: SiteId, authenticated: bool): Peer
  {
    Peer(NewClient(c), authenticated, [SyncRequest(0)], [AuthStatus(authenticated)], Idle, map[], {}, false)
  }

  function EditPeer(p: Peer, e: Edit, id: string): Peer
  {
    var op := LocalOp(p.client, e);
    p.(client := Edited(p.client, e, id), toServer := p.toServer + [OpMsg(id, op)], made := p.made[id := op])
  }

  function TakePeer(p: Peer): Peer
    requires p.toServer != []
  {
    p.(toServer := p.toServer[1..],
       handler := match p.toServer[0] case SyncRequest(last) => Syncing(last) case OpMsg(id, op) => Storing(id, op))
  }

  function ReadDiffPeer(p: Peer, log: seq<Operation>): Peer
    requires p.handler.Syncing?
  {
    p.(toClient := p.toClient + [Sync(DiffAfter(log, p.handler.last), |log|)], handler := Idle, joined := true)
  }

  function AckPeer(p: Peer): Peer
    requires p.handler.Stored?
  {
    p.(toClient := p.toClient + [Ack(p.handler.stored.requestId, p.handler.seqNo)],
       handler := if p.handler.seqNo > 0 then Sharing(p.handler.stored, p.handler.seqNo) else Idle)
  }

  /** The handler after sending to `t`. */
  function SentHandler(h: Handler, t: SiteId): Handler
    requires h.Broadcasting?
  {
    if h.rest - {t} == {} then Idle else h.(rest := h.rest - {t})
  }

  function ReceivePeer(p: Peer, op: Operation, n: int): Peer
  {
    p.(toClient := p.toClient + [Sync([op], n)])
  }

  function DeliverPeer(p: Peer): Peer
    requires p.toClient != []
  {
    var q := p.(toClient := p.toClient[1..]);
    match p.toClient[0]
    case Ack(id, n) => q.(client := Acked(p.client, id, n))
    case AuthStatus(a) => q.(client := p.client.(authenticated := a))
    case Sync(ops, latest) =>
      q.(client := Synced(p.client, ops, latest),
         got := p.got + set o | o in ops && o.requestId !in p.client.pendingAcks && o.requestId !in p.client.confirmed)
  }

  function Do(s: Sys, step: Step): Sys
    requires Enabled(s, step)
  {
    match step
    case Connect(c, a) => s.(peers := s.peers[c := NewPeer(c, a)])
    case MakeEdit(c, e, id) => s.(peers := s.peers[c := EditPeer(s.peers[c], e, id)], usedIds := s.usedIds + {id})
    case Take(c) => s.(peers := s.peers[c := TakePeer(s.peers[c])], subscribers := s.subscribers + {c})
    case ReadDiff(c) => s.(peers := s.peers[c := ReadDiffPeer(s.peers[c], s.log)])
    case Store(c) =>
      var p := s.peers[c];
      var op := Stamp(p.handler.op, p.handler.requestId, p.authenticated);
      if op.requestId in IdsOf(s.log) then s.(peers := s.peers[c := p.(handler := Stored(op, 0))])
      else s.(peers := s.peers[c := p.(handler := Stored(op, |s.log| + 1))], log := s.log + [op])
    case SendAck(c) => s.(peers := s.peers[c := AckPeer(s.peers[c])])
    case Share(c) =>
      var p := s.peers[c];
      var op := p.handler.shared;
      if Refused(s.projector, op) then s.(peers := s.peers[c := p.(handler := Idle)], refused := s.refused + {op})
      else s.(peers := s.peers[c := p.(handler := Projected(op, p.handler.number))],
              projector := Apply(s.projector, op), projected := s.projected + {op})
    case Gather(c) =>
      var p := s.peers[c];
      s.(peers := s.peers[c := p.(handler := Broadcasting(p.handler.shown, p.handler.place, s.subscribers))])
    case Send(c, t) =>
      var h := s.peers[c].handler;
      var peers := s.peers[c := s.peers[c].(handler := SentHandler(h, t))];
      s.(peers := peers[t := ReceivePeer(peers[t], h.cast, h.nr)])
    case Deliver(c) => s.(peers := s.peers[c := DeliverPeer(s.peers[c])])
  }

  /** A run: every step is enabled where it is taken. */
  ghost predicate IsRun(s: Sys, steps: seq<Step>)
    decreases |steps|
  {
    steps == [] || (Enabled(s, steps[0]) && IsRun(Do(s, steps[0]), steps[1..]))
  }

  ghost function After(s: Sys, steps: seq<Step>): Sys
    requires IsRun(s, steps)
    decreases |steps|
  {
    if steps == [] then s else After(Do(s, steps[0]), steps[1..])
  }

  /** Nothing is under way: all queues are empty and all handlers idle. */
  ghost predicate Quiescent(s: Sys)
  {
    forall c :: c in s.peers ==> s.peers[c].toServer == [] && s.peers[c].toClient == [] && s.peers[c].handler.Idle?
  }
}
