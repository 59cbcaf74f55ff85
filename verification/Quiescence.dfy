/** What every run of the protocol keeps, and consistency once nothing is under way. */
module Quiescence {
  import opened Ids
  import opened RgaModel
  import opened Buffering
  import opened Convergence
  import opened Projector
  import opened SyncClient
  import opened Folding
  import opened Protocol

  // ---------- Counting echoes ----------

  /** Whether the message carries just the operation with that id. */
  predicate Hits(m: ServerMsg, id: string)
  {
    m.Sync? && |m.ops| == 1 && m.ops[0].requestId == id
  }

  function Count(q: seq<ServerMsg>, id: string): nat
  {
    if q == [] then 0 else (if Hits(q[0], id) then 1 else 0) + Count(q[1..], id)
  }

  lemma {:induction false} CountAppend(q: seq<ServerMsg>, m: ServerMsg, id: string)
    ensures Count(q + [m], id) == Count(q, id) + if Hits(m, id) then 1 else 0
  {
    if q == [] {
      assert q + [m] == [m];
    } else {
      assert (q + [m])[0] == q[0] && (q + [m])[1..] == q[1..] + [m];
      CountAppend(q[1..], m, id);
    }
  }

  lemma {:induction false} CountZero(q: seq<ServerMsg>, id: string)
    requires forall m :: m in q ==> !Hits(m, id)
    ensures Count(q, id) == 0
  {
    if q != [] {
      assert q[0] in q && forall m :: m in q[1..] ==> m in q;
      CountZero(q[1..], id);
    }
  }

  ghost predicate InFlight(q: seq<ServerMsg>, o: Operation)
  {
    exists m :: m in q && m.Sync? && o in m.ops
  }

  // ---------- What holds of each browser ----------

  ghost function OwnOps(made: map<string, Operation>): set<Operation>
  {
    set id | id in made :: made[id]
  }

  /** All a replica has received: its own operations and those of others. */
  ghost function Received(p: Peer): set<Operation>
  {
    OwnOps(p.made) + p.got
  }

  /** Own operations: wire ids outside, local ids inside, one for one. */
  ghost predicate MadeWell(c: SiteId, made: map<string, Operation>)
  {
    && (forall id :: id in made ==> !IsLocal(id) && IsLocal(made[id].requestId) && !made[id].opType.Other?)
    && (forall id :: id in made && made[id].opType.Insert? ==> made[id].nodeId.site == c)
    && (forall i, j :: i in made && j in made && made[i].requestId == made[j].requestId ==> i == j)
  }

  ghost predicate GotOk(made: map<string, Operation>, got: set<Operation>, log: seq<Operation>)
  {
    forall o :: o in got ==> o in log && o.requestId !in made
  }

  /** Operations of others come from the log, and an own id is acknowledged only once sent. */
  ghost predicate GotWell(p: Peer, log: seq<Operation>)
  {
    && GotOk(p.made, p.got, log)
    && p.client.pendingAcks.Keys <= p.made.Keys && p.client.confirmed <= p.made.Keys
  }

  ghost predicate PlacedOk(made: map<string, Operation>, toServer: seq<ClientMsg>, h: Handler, log: seq<Operation>)
  {
    && (forall id :: id in made ==> id in IdsOf(log) || OpMsg(id, made[id]) in toServer || h == Storing(id, made[id]))
    && (forall m :: m in toServer && m.OpMsg? ==> m.requestId in made && m.op == made[m.requestId])
    && (h.Storing? ==> h.requestId in made && h.op == made[h.requestId])
  }

  /** Every own operation is in the log, in the queue, or in the handler. */
  ghost predicate Placed(p: Peer, log: seq<Operation>)
  {
    PlacedOk(p.made, p.toServer, p.handler, log)
  }

  ghost predicate InboxOk(made: map<string, Operation>, toClient: seq<ServerMsg>, log: seq<Operation>)
  {
    && (forall m, o :: m in toClient && m.Sync? && o in m.ops ==> o in log)
    && (forall m, o :: m in toClient && m.Sync? && o in m.ops && o.requestId in made ==> |m.ops| == 1)
    && (forall m :: m in toClient && m.Ack? ==> m.requestId in made)
  }

  /** What is on its way to the browser comes from the log; an own echo comes alone. */
  ghost predicate InboxWell(p: Peer, log: seq<Operation>)
  {
    InboxOk(p.made, p.toClient, log)
  }

  /** The stored operation a handler works on. */
  ghost function InHand(h: Handler): Option<Operation>
  {
    match h
    case Stored(op, n) => if n > 0 then Some(op) else None
    case Sharing(op, _) => Some(op)
    case Projected(op, _) => Some(op)
    case Broadcasting(op, _, _) => Some(op)
    case _ => None
  }

  ghost predicate HandlerOk(made: map<string, Operation>, h: Handler, log: seq<Operation>)
  {
    && (InHand(h).Some? ==> InHand(h).value in log && InHand(h).value.requestId in made)
    && (h.Stored? ==> h.stored.requestId in made)
  }

  ghost predicate HandlerWell(p: Peer, log: seq<Operation>)
  {
    HandlerOk(p.made, p.handler, log)
  }

  ghost predicate AllOps(msgs: seq<ClientMsg>)
  {
    forall m :: m in msgs ==> m.OpMsg?
  }

  /** The sync request is the first message; own operations are stored only after its diff. */
  ghost predicate JoinWell(c: SiteId, p: Peer, log: seq<Operation>, subscribers: set<SiteId>)
  {
    if p.joined then
      c in subscribers && !p.handler.Syncing? && AllOps(p.toServer)
    else
      && p.made.Keys !! IdsOf(log)
      && (if p.handler.Syncing? then p.handler.last == 0 && c in subscribers && AllOps(p.toServer)
          else p.handler.Idle? && p.toServer != [] && p.toServer[0] == SyncRequest(0) && AllOps(p.toServer[1..]))
  }

  /** Whether the handler of `c` will still send the operation with that id to `t`. */
  ghost predicate Owes(h: Handler, t: SiteId, o: Operation)
  {
    match h
    case Stored(op, n) => op == o && n > 0
    case Sharing(op, _) => op == o
    case Projected(op, _) => op == o
    case Broadcasting(op, _, rest) => op == o && t in rest
    case _ => false
  }

  ghost predicate WillEcho(c: SiteId, h: Handler, id: string)
  {
    InHand(h).Some? && InHand(h).value.requestId == id && Owes(h, c, InHand(h).value)
  }

  /** An own operation is echoed at most once, and the browser is still waiting for the echo. */
  ghost predicate EchoWell(c: SiteId, p: Peer, log: seq<Operation>, id: string)
  {
    && Count(p.toClient, id) + (if WillEcho(c, p.handler, id) then 1 else 0) <= 1
    && (Count(p.toClient, id) > 0 || WillEcho(c, p.handler, id) || id !in IdsOf(log) ==>
          id in p.client.pendingAcks || id in p.client.confirmed)
  }

  ghost predicate Replicates(p: Peer)
  {
    CanEdit(p.client.rga, p.client.nextLocal, Received(p))
  }

  ghost predicate PeerWell(c: SiteId, p: Peer, log: seq<Operation>, subscribers: set<SiteId>)
  {
    && p.client.site == c && Replicates(p) && MadeWell(c, p.made)
    && GotWell(p, log) && Placed(p, log) && InboxWell(p, log) && HandlerWell(p, log)
    && JoinWell(c, p, log, subscribers)
    && (forall id :: id in p.made ==> EchoWell(c, p, log, id))
  }

  /** `PeerWell`, folded up. */
  ghost predicate PeerFine(c: SiteId, p: Peer, log: seq<Operation>, subscribers: set<SiteId>)
  {
    forall key :: Unfold(key) && key == PEER ==> PeerWell(c, p, log, subscribers)
  }

  // ---------- What holds of the whole ----------

  ghost predicate SameEdit(o: Operation, m: Operation)
  {
    o.opType == m.opType && o.nodeId == m.nodeId && o.after == m.after && o.value == m.value
  }

  /** The operation is the browser's, under the rights the server knows of its connection. */
  ghost predicate Originates(s: Sys, c: SiteId, o: Operation)
  {
    c in s.peers && o.requestId in s.peers[c].made && SameEdit(o, s.peers[c].made[o.requestId]) && o.authenticated == s.peers[c].authenticated
  }

  /** Request ids in the log are distinct, and each operation stems from a browser. */
  ghost predicate LogWell(s: Sys)
  {
    && (forall i, j :: 0 <= i < j < |s.log| ==> s.log[i].requestId != s.log[j].requestId)
    && (forall o :: o in s.log ==> exists c :: Originates(s, c, o))
    && IdsOf(s.log) <= s.usedIds
  }

  /** No wire id is used by two browsers. */
  ghost predicate Apart(s: Sys)
  {
    && (forall c :: c in s.peers ==> s.peers[c].made.Keys <= s.usedIds)
    && (forall c, d, id :: c in s.peers && d in s.peers && id in s.peers[c].made && id in s.peers[d].made ==> c == d)
  }

  /** Some handler will still send `o` to `t`. */
  ghost predicate Due(s: Sys, t: SiteId, o: Operation)
  {
    exists c :: c in s.peers && Owes(s.peers[c].handler, t, o)
  }

  /** A stored operation of another has reached a joined browser or is on its way to it. */
  ghost predicate Covered(s: Sys, t: SiteId, o: Operation)
  {
    t in s.peers && s.peers[t].joined ==>
      o.requestId in s.peers[t].made || o in s.peers[t].got || InFlight(s.peers[t].toClient, o) || Due(s, t, o)
  }

  ghost predicate Unprojected(h: Handler, o: Operation)
  {
    (h.Stored? && h.stored == o && h.seqNo > 0) || (h.Sharing? && h.shared == o)
  }

  /** A stored operation is in the projection, or a handler is about to put it there. */
  ghost predicate Shown(s: Sys, o: Operation)
  {
    o in s.projected || exists c :: c in s.peers && Unprojected(s.peers[c].handler, o)
  }

  /** What was projected and what was refused comes from the log; only deletes are refused. */
  ghost predicate Sorted(log: seq<Operation>, projected: set<Operation>, refused: set<Operation>)
  {
    && (forall o :: o in projected ==> o in log)
    && (forall o :: o in refused ==> o in log && o.opType.Delete? && o !in projected)
  }

  /** An operation on its way to the projector has been neither projected nor refused. */
  ghost predicate Undecided(s: Sys)
  {
    forall c, o :: c in s.peers && Unprojected(s.peers[c].handler, o) ==> o !in s.projected && o !in s.refused
  }

  /** Every logged operation but the refused ones is projected, and reaches every browser. */
  ghost predicate ServerWell(s: Sys)
  {
    && Holds(s.projector, s.projected) && Sorted(s.log, s.projected, s.refused) && Undecided(s)
    && (forall o :: o in s.log && o !in s.refused ==> Shown(s, o))
    && (forall t, o :: o in s.log && o !in s.refused ==> Covered(s, t, o))
  }

  ghost predicate PeerAt(s: Sys, c: SiteId)
  {
    c in s.peers ==> PeerFine(c, s.peers[c], s.log, s.subscribers)
  }

  ghost predicate Well(s: Sys)
  {
    && (forall c :: PeerAt(s, c))
    && LogWell(s) && Apart(s) && ServerWell(s)
  }

  // ---------- Consequences at quiescence ----------

  lemma SameRequest(s: Sys, o: Operation, q: Operation)
    requires LogWell(s) && o in s.log && q in s.log && o.requestId == q.requestId
    ensures o == q
  {
    var i :| 0 <= i < |s.log| && s.log[i] == o;
    var j :| 0 <= j < |s.log| && s.log[j] == q;
  }

  /** A node id names its browser, and there its insert. */
  lemma SameNodeSameRequest(s: Sys, o: Operation, q: Operation)
    requires Well(s) && o in s.log && q in s.log
    requires o.opType.Insert? && q.opType.Insert? && o.nodeId == q.nodeId
    ensures o.requestId == q.requestId
  {
    var c :| Originates(s, c, o);
    var d :| Originates(s, d, q);
    var p := s.peers[c];
    assert PeerAt(s, c) && PeerAt(s, d) && Unfold(PEER) && Unfold(REPLICA);
    assert c == o.nodeId.site == d;
    assert p.made[o.requestId] in Received(p) && p.made[q.requestId] in Received(p);
    assert p.made[o.requestId] == p.made[q.requestId];
  }

  lemma LogCoherent(s: Sys)
    requires Well(s)
    ensures Coherent(Elements(s.log))
  {
    forall o, q | o in s.log && q in s.log && o.requestId == q.requestId
      ensures o == q
    {
      SameRequest(s, o, q);
    }
    forall o, q | o in s.log && q in s.log && o.opType.Insert? && q.opType.Insert? && o.nodeId == q.nodeId
      ensures o == q
    {
      SameNodeSameRequest(s, o, q);
      SameRequest(s, o, q);
    }
  }

  /** The logged form of an own operation says the same as the local one. */
  lemma OwnInLog(s: Sys, c: SiteId, o: Operation)
    requires LogWell(s) && Apart(s) && c in s.peers && o in s.log && o.requestId in s.peers[c].made
    ensures SameEdit(o, s.peers[c].made[o.requestId])
  {
    var d :| Originates(s, d, o);
    assert d == c;
  }

  /** At rest, what a browser has received is in the log, edit for edit. */
  lemma OwnEditsLogged(s: Sys, c: SiteId, m: Operation) returns (o: Operation)
    requires Well(s) && Quiescent(s) && c in s.peers && m in Received(s.peers[c])
    ensures o in s.log && SameEdit(o, m) && Reached(s.peers[c], o)
  {
    assert PeerAt(s, c) && Unfold(PEER);
    var p := s.peers[c];
    if m in p.got {
      o := m;
    } else {
      var id :| id in p.made && p.made[id] == m;
      assert id in IdsOf(s.log);
      var i :| 0 <= i < |s.log| && s.log[i].requestId == id;
      o := s.log[i];
      OwnInLog(s, c, o);
    }
  }

  /** What reaches a browser: an operation of another it has applied, or one of its own. */
  ghost predicate Reached(p: Peer, o: Operation)
  {
    o in p.got || o.requestId in p.made
  }

  lemma ReachedIsReceived(s: Sys, c: SiteId, o: Operation) returns (m: Operation)
    requires LogWell(s) && Apart(s) && c in s.peers && o in s.log && Reached(s.peers[c], o)
    ensures m in Received(s.peers[c]) && SameEdit(o, m)
  {
    var p := s.peers[c];
    if o.requestId in p.made {
      OwnInLog(s, c, o);
      m := p.made[o.requestId];
    } else {
      m := o;
    }
  }

  lemma AllReachedAtRest(s: Sys, c: SiteId, o: Operation)
    requires Well(s) && Quiescent(s) && c in s.peers && o in s.log && o !in s.refused
    ensures Reached(s.peers[c], o)
  {
    assert PeerAt(s, c) && Unfold(PEER);
    assert Covered(s, c, o);
  }

  /** At rest, exactly the operations that were not refused are in the projection. */
  lemma AllProjectedAtRest(s: Sys)
    requires Well(s) && Quiescent(s)
    ensures s.projected == Elements(s.log) - s.refused
  {
    forall o | o in s.log && o !in s.refused
      ensures o in s.projected
    {
      assert Shown(s, o);
    }
  }

  lemma RefusalsAreDeletes(s: Sys)
    requires Well(s) && s.projected == Elements(s.log) - s.refused
    ensures Inserts(s.projected) == Inserts(Elements(s.log))
  {
    forall o | o in s.log && o.opType.Insert?
      ensures o in s.projected
    {
    }
  }

  /** At rest every browser has all inserts, all deletes of the projection, and no others
      than were refused. */
  lemma EditsAtRest(s: Sys, c: SiteId)
    requires Well(s) && Quiescent(s) && c in s.peers
    ensures Inserts(Received(s.peers[c])) == Inserts(s.projected)
    ensures Deletes(s.projected) <= Deletes(Received(s.peers[c]))
  {
    var all := Received(s.peers[c]);
    AllProjectedAtRest(s);
    RefusalsAreDeletes(s);
    forall m | m in all && m.opType.Insert?
      ensures InsertionOf(m) in Inserts(s.projected)
    {
      var o := OwnEditsLogged(s, c, m);
      assert o in Elements(s.log) && InsertionOf(o) == InsertionOf(m);
    }
    forall o | o in s.projected
      ensures o.opType.Insert? ==> InsertionOf(o) in Inserts(all)
      ensures o.opType.Delete? ==> o.nodeId in Deletes(all)
    {
      AllReachedAtRest(s, c, o);
      var m := ReachedIsReceived(s, c, o);
      assert InsertionOf(o) == InsertionOf(m);
    }
  }

  /** A visible character of the projection that a refused delete has taken from the browser. */
  ghost predicate Missing(s: Sys, c: SiteId, n: Node)
  {
    c in s.peers && n in s.projector.nodes && !n.deleted && exists r :: r in s.refused && Reached(s.peers[c], r) && r.nodeId == n.id
  }

  lemma MissingIsDeleted(s: Sys, c: SiteId, n: Node)
    requires Well(s) && Quiescent(s) && c in s.peers && n in s.projector.nodes && !n.deleted
    ensures n.id in Deletes(Received(s.peers[c])) <==> exists r :: r in s.refused && Reached(s.peers[c], r) && r.nodeId == n.id
  {
    var all := Received(s.peers[c]);
    if r :| r in s.refused && Reached(s.peers[c], r) && r.nodeId == n.id {
      var m := ReachedIsReceived(s, c, r);
      assert m.nodeId in Deletes(all);
    }
    if n.id in Deletes(all) {
      var m :| m in all && m.opType.Delete? && m.nodeId == n.id;
      var o := RefusedSource(s, c, m, n);
      assert o in s.refused && Reached(s.peers[c], o) && o.nodeId == n.id;
    }
  }

  /** The delete behind it is logged, and was not projected: the character is visible. */
  lemma RefusedSource(s: Sys, c: SiteId, m: Operation, n: Node) returns (o: Operation)
    requires Well(s) && Quiescent(s) && c in s.peers && n in s.projector.nodes && !n.deleted
    requires m in Received(s.peers[c]) && m.opType.Delete? && m.nodeId == n.id
    ensures o in s.refused && Reached(s.peers[c], o) && o.nodeId == n.id
  {
    o := OwnEditsLogged(s, c, m);
    AllProjectedAtRest(s);
    VisibleIsNotDeleted(s, n);
    assert o.nodeId !in Deletes(s.projected);
    assert o !in s.projected;
  }

  lemma VisibleIsNotDeleted(s: Sys, n: Node)
    requires Well(s) && n in s.projector.nodes && !n.deleted
    ensures n.id !in Deletes(s.projected)
  {
    LogCoherent(s);
    CoherentSubset(s.projected, Elements(s.log));
    VisibleIsKept(s.projector, s.projected, n);
  }

  /** Once nothing is under way, a browser shows the text of the projection if and only if no
      refused delete that reached it targets a character the projection shows. */
  lemma ConsistentAtRest(s: Sys, c: SiteId)
    requires Well(s) && Quiescent(s) && c in s.peers
    ensures Text(s.peers[c].client.rga.nodes) == Text(s.projector.nodes) <==> forall n :: !Missing(s, c, n)
  {
    EditsAtRest(s, c);
    LogCoherent(s);
    CoherentSubset(s.projected, Elements(s.log));
    forall n | n in s.projector.nodes && !n.deleted
      ensures n.id in Deletes(Received(s.peers[c])) <==> Missing(s, c, n)
    {
      MissingIsDeleted(s, c, n);
    }
    assert PeerAt(s, c) && Unfold(PEER) && Unfold(REPLICA);
    MoreDeletesHideMore(s.peers[c].client.rga, Received(s.peers[c]), s.projector, s.projected);
  }
}
