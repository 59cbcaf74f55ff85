/** Every step of the protocol keeps `Quiescence.Well`. */
module ProtocolSteps {
  import opened Ids
  import opened RgaModel
  import opened Buffering
  import opened Convergence
  import opened Projector
  import opened SyncClient
  import opened Folding
  import opened Protocol
  import opened Quiescence

  // ---------- The touched browser ----------

  lemma SubscribersGrow(c: SiteId, p: Peer, log: seq<Operation>, subs: set<SiteId>, more: set<SiteId>)
    requires PeerFine(c, p, log, subs) && subs <= more
    ensures PeerFine(c, p, log, more)
  {
    assert Unfold(PEER);
  }

  lemma IdsOfAppend(log: seq<Operation>, o: Operation)
    ensures IdsOf(log + [o]) == IdsOf(log) + {o.requestId}
  {
    var more := log + [o];
    assert more[|log|] == o;
    forall i | 0 <= i < |log|
      ensures log[i].requestId in IdsOf(more)
    {
      assert more[i] == log[i];
    }
  }

  /** Another browser's operation enters the log. */
  lemma LogGrows(c: SiteId, p: Peer, log: seq<Operation>, subs: set<SiteId>, o: Operation)
    requires PeerFine(c, p, log, subs) && o.requestId !in p.made
    ensures PeerFine(c, p, log + [o], subs)
  {
    assert Unfold(PEER);
    IdsOfAppend(log, o);
    forall id | id in p.made
      ensures EchoWell(c, p, log + [o], id)
    {
      assert EchoWell(c, p, log, id);
    }
  }

  /** With inbox and own operations as they were, the echoes are accounted for as before. */
  lemma EchoesStay(c: SiteId, p: Peer, q: Peer, log: seq<Operation>)
    requires forall id :: id in p.made ==> EchoWell(c, p, log, id)
    requires q.made == p.made && q.toClient == p.toClient && q.client.pendingAcks == p.client.pendingAcks && q.client.confirmed == p.client.confirmed
    requires forall id :: WillEcho(c, q.handler, id) ==> WillEcho(c, p.handler, id)
    ensures forall id :: id in q.made ==> EchoWell(c, q, log, id)
  {
    forall id | id in q.made
      ensures EchoWell(c, q, log, id)
    {
      assert EchoWell(c, p, log, id);
    }
  }

  /** A message that carries no echo enters the inbox. */
  lemma EchoesStayBehind(c: SiteId, p: Peer, q: Peer, log: seq<Operation>, m: ServerMsg)
    requires forall id :: id in p.made ==> EchoWell(c, p, log, id)
    requires q.made == p.made && q.toClient == p.toClient + [m] && q.client == p.client
    requires forall id :: id in p.made ==> !Hits(m, id)
    requires forall id :: WillEcho(c, q.handler, id) ==> WillEcho(c, p.handler, id)
    ensures forall id :: id in q.made ==> EchoWell(c, q, log, id)
  {
    forall id | id in q.made
      ensures EchoWell(c, q, log, id)
    {
      assert EchoWell(c, p, log, id);
      CountAppend(p.toClient, m, id);
    }
  }

  lemma TakeKeepsPeer(c: SiteId, p: Peer, log: seq<Operation>, subs: set<SiteId>)
    requires PeerFine(c, p, log, subs) && p.handler.Idle? && p.toServer != []
    ensures PeerFine(c, TakePeer(p), log, subs + {c})
  {
    assert Unfold(PEER);
    var q := TakePeer(p);
    TakeKeepsQueues(c, p, log, subs);
    EchoesStay(c, p, q, log);
  }

  lemma TakeKeepsQueues(c: SiteId, p: Peer, log: seq<Operation>, subs: set<SiteId>)
    requires Placed(p, log) && JoinWell(c, p, log, subs) && p.handler.Idle? && p.toServer != []
    ensures Placed(TakePeer(p), log) && JoinWell(c, TakePeer(p), log, subs + {c})
  {
    assert p.toServer == [p.toServer[0]] + p.toServer[1..];
    assert p.toServer[0] in p.toServer;
  }

  lemma LoggedId(log: seq<Operation>, o: Operation)
    requires o in log
    ensures o.requestId in IdsOf(log)
  {
    var i :| 0 <= i < |log| && log[i] == o;
    assert log[i].requestId in IdsOf(log);
  }

  lemma NotOwnInInbox(p: Peer, log: seq<Operation>, id: string)
    requires InboxWell(p, log) && id !in IdsOf(log)
    ensures Count(p.toClient, id) == 0
  {
    forall m | m in p.toClient
      ensures !Hits(m, id)
    {
      if m.Sync? && |m.ops| == 1 {
        assert m.ops[0] in m.ops;
        LoggedId(log, m.ops[0]);
      }
    }
    CountZero(p.toClient, id);
  }

  lemma DiffKeepsPeer(c: SiteId, p: Peer, log: seq<Operation>, subs: set<SiteId>)
    requires PeerFine(c, p, log, subs) && p.handler.Syncing?
    ensures PeerFine(c, ReadDiffPeer(p, log), log, subs)
    ensures forall o :: o in log ==> InFlight(ReadDiffPeer(p, log).toClient, o)
  {
    assert Unfold(PEER);
    var q := ReadDiffPeer(p, log);
    var m := Sync(log, |log|);
    assert log[0..] == log && q.toClient == p.toClient + [m];
    assert m in q.toClient;
    forall o | o in log
      ensures o.requestId in IdsOf(log) && o.requestId !in p.made
    {
      LoggedId(log, o);
    }
    EchoesStayBehind(c, p, q, log, m);
  }

  lemma AckKeepsPeer(c: SiteId, p: Peer, log: seq<Operation>, subs: set<SiteId>)
    requires PeerFine(c, p, log, subs) && p.handler.Stored?
    ensures PeerFine(c, AckPeer(p), log, subs)
  {
    assert Unfold(PEER);
    var m := Ack(p.handler.stored.requestId, p.handler.seqNo);
    AckKeepsInbox(c, p, log, subs, m);
    EchoesStayBehind(c, p, AckPeer(p), log, m);
  }

  lemma AckKeepsInbox(c: SiteId, p: Peer, log: seq<Operation>, subs: set<SiteId>, m: ServerMsg)
    requires p.handler.Stored? && InboxWell(p, log) && HandlerWell(p, log) && Placed(p, log) && JoinWell(c, p, log, subs)
    requires m == Ack(p.handler.stored.requestId, p.handler.seqNo)
    ensures InboxWell(AckPeer(p), log) && HandlerWell(AckPeer(p), log) && Placed(AckPeer(p), log) && JoinWell(c, AckPeer(p), log, subs)
    ensures AckPeer(p).toClient == p.toClient + [m]
    ensures forall id :: WillEcho(c, AckPeer(p).handler, id) ==> WillEcho(c, p.handler, id)
  {
  }

  /** The handler moves on, owing its own browser no more than before. */
  lemma HandlerKeepsPeer(c: SiteId, p: Peer, h: Handler, log: seq<Operation>, subs: set<SiteId>)
    requires PeerFine(c, p, log, subs) && !p.handler.Syncing? && !p.handler.Idle? && !p.handler.Storing?
    requires !h.Syncing? && !h.Storing? && !h.Stored?
    requires InHand(h).Some? ==> InHand(h) == InHand(p.handler)
    requires forall id :: WillEcho(c, h, id) ==> WillEcho(c, p.handler, id)
    ensures PeerFine(c, p.(handler := h), log, subs)
  {
    assert Unfold(PEER);
    EchoesStay(c, p, p.(handler := h), log);
  }

  /** Another's operation is put into the queue. */
  lemma ReceiveKeepsPeer(c: SiteId, p: Peer, o: Operation, n: int, log: seq<Operation>, subs: set<SiteId>)
    requires PeerFine(c, p, log, subs) && o in log && o.requestId !in p.made
    ensures PeerFine(c, ReceivePeer(p, o, n), log, subs)
  {
    assert Unfold(PEER);
    var q := ReceivePeer(p, o, n);
    var m := Sync([o], n);
    assert q.toClient == p.toClient + [m];
    EchoesStayBehind(c, p, q, log, m);
  }

  /** The browser and its connection once the handler has put the echo into its queue. */
  function EchoedPeer(p: Peer, c: SiteId): Peer
    requires p.handler.Broadcasting?
  {
    ReceivePeer(p.(handler := SentHandler(p.handler, c)), p.handler.cast, p.handler.nr)
  }

  lemma EchoEchoes(c: SiteId, p: Peer, log: seq<Operation>, id: string)
    requires p.handler.Broadcasting? && c in p.handler.rest && EchoWell(c, p, log, id)
    ensures EchoWell(c, EchoedPeer(p, c), log, id)
  {
    CountAppend(p.toClient, Sync([p.handler.cast], p.handler.nr), id);
  }

  lemma EchoInbox(c: SiteId, p: Peer, log: seq<Operation>, subs: set<SiteId>)
    requires p.handler.Broadcasting? && InboxWell(p, log) && HandlerWell(p, log) && Placed(p, log) && JoinWell(c, p, log, subs)
    ensures InboxWell(EchoedPeer(p, c), log) && HandlerWell(EchoedPeer(p, c), log)
    ensures Placed(EchoedPeer(p, c), log) && JoinWell(c, EchoedPeer(p, c), log, subs)
  {
  }

  /** The handler puts the echo into its own browser's queue. */
  lemma EchoKeepsPeer(c: SiteId, p: Peer, log: seq<Operation>, subs: set<SiteId>)
    requires PeerFine(c, p, log, subs) && p.handler.Broadcasting? && c in p.handler.rest
    ensures PeerFine(c, EchoedPeer(p, c), log, subs)
  {
    assert Unfold(PEER);
    EchoInbox(c, p, log, subs);
    forall id | id in p.made
      ensures EchoWell(c, EchoedPeer(p, c), log, id)
    {
      EchoEchoes(c, p, log, id);
    }
  }

  /** An own operation enters the log. */
  lemma StoreKeepsPeer(c: SiteId, p: Peer, log: seq<Operation>, subs: set<SiteId>)
    requires PeerFine(c, p, log, subs) && p.handler.Storing? && p.handler.requestId !in IdsOf(log)
    ensures var o := Stamp(p.handler.op, p.handler.requestId, p.authenticated);
            PeerFine(c, p.(handler := Stored(o, |log| + 1)), log + [o], subs)
  {
    assert Unfold(PEER);
    var o := Stamp(p.handler.op, p.handler.requestId, p.authenticated);
    var q := p.(handler := Stored(o, |log| + 1));
    IdsOfAppend(log, o);
    NotOwnInInbox(p, log, o.requestId);
    forall id | id in q.made
      ensures EchoWell(c, q, log + [o], id)
    {
      assert EchoWell(c, p, log, id);
    }
  }

  lemma StoreAgainKeepsPeer(c: SiteId, p: Peer, log: seq<Operation>, subs: set<SiteId>)
    requires PeerFine(c, p, log, subs) && p.handler.Storing? && p.handler.requestId in IdsOf(log)
    ensures PeerFine(c, p.(handler := Stored(Stamp(p.handler.op, p.handler.requestId, p.authenticated), 0)), log, subs)
  {
    assert Unfold(PEER);
    EchoesStay(c, p, p.(handler := Stored(Stamp(p.handler.op, p.handler.requestId, p.authenticated), 0)), log);
  }

  /** An edit: the operation is applied, sent, and waits to be acknowledged. */
  lemma EditKeepsPeer(c: SiteId, p: Peer, e: Edit, id: string, log: seq<Operation>, subs: set<SiteId>)
    requires PeerFine(c, p, log, subs) && id !in p.made && !IsLocal(id) && id !in IdsOf(log)
    requires forall o :: o in p.got ==> o.requestId != id
    ensures PeerFine(c, EditPeer(p, e, id), log, subs)
  {
    assert Unfold(PEER);
    var q := EditPeer(p, e, id);
    EditReplicates(p, e, id);
    EditMadeWell(c, p, e, id);
    EditQueues(c, p, e, id, log, subs);
    EditInbox(p, e, id, log);
    EditEchoes(c, p, e, id, log);
  }

  lemma EditInbox(p: Peer, e: Edit, id: string, log: seq<Operation>)
    requires GotWell(p, log) && InboxWell(p, log) && HandlerWell(p, log) && id !in IdsOf(log)
    requires forall o :: o in p.got ==> o.requestId != id
    ensures GotWell(EditPeer(p, e, id), log) && InboxWell(EditPeer(p, e, id), log) && HandlerWell(EditPeer(p, e, id), log)
  {
    NewIdNotInbox(p, log, id);
  }

  lemma EditQueues(c: SiteId, p: Peer, e: Edit, id: string, log: seq<Operation>, subs: set<SiteId>)
    requires Placed(p, log) && JoinWell(c, p, log, subs) && id !in p.made && id !in IdsOf(log)
    ensures Placed(EditPeer(p, e, id), log) && JoinWell(c, EditPeer(p, e, id), log, subs)
  {
    var q := EditPeer(p, e, id);
    var m := OpMsg(id, LocalOp(p.client, e));
    assert q.toServer == p.toServer + [m];
    assert p.toServer != [] ==> q.toServer[0] == p.toServer[0] && q.toServer[1..] == p.toServer[1..] + [m];
  }

  lemma EditEchoes(c: SiteId, p: Peer, e: Edit, id: string, log: seq<Operation>)
    requires InboxWell(p, log) && HandlerWell(p, log) && id !in p.made && id !in IdsOf(log)
    requires forall x :: x in p.made ==> EchoWell(c, p, log, x)
    ensures forall x :: x in EditPeer(p, e, id).made ==> EchoWell(c, EditPeer(p, e, id), log, x)
  {
    var q := EditPeer(p, e, id);
    NotOwnInInbox(p, log, id);
    forall x | x in q.made
      ensures EchoWell(c, q, log, x)
    {
      assert x != id ==> EchoWell(c, p, log, x);
    }
  }

  lemma NewIdNotInbox(p: Peer, log: seq<Operation>, id: string)
    requires InboxWell(p, log) && id !in IdsOf(log)
    ensures forall m, o :: m in p.toClient && m.Sync? && o in m.ops ==> o.requestId != id
  {
    forall m, o | m in p.toClient && m.Sync? && o in m.ops
      ensures o.requestId != id
    {
      assert o in log;
      LoggedId(log, o);
    }
  }

  lemma EditAdds(p: Peer, e: Edit, id: string)
    requires id !in p.made
    ensures Received(EditPeer(p, e, id)) == Received(p) + {LocalOp(p.client, e)}
  {
    var q := EditPeer(p, e, id);
    assert q.made[id] == LocalOp(p.client, e);
    assert forall x :: x in p.made ==> q.made[x] == p.made[x];
  }

  lemma EditReplicates(p: Peer, e: Edit, id: string)
    requires Replicates(p) && id !in p.made
    ensures Replicates(EditPeer(p, e, id))
    ensures LocalOp(p.client, e) !in Received(p)
  {
    EditAdds(p, e, id);
    assert Unfold(REPLICA);
    EditKeeps(p.client, Received(p), e, id);
  }

  lemma NextLocalIsNew(p: Peer, m: Operation)
    requires Replicates(p) && m in Received(p)
    ensures m.requestId != LocalId(p.client.nextLocal)
  {
    assert Unfold(REPLICA);
    assert m.requestId in RequestIds(Received(p));
  }

  lemma EditMadeWell(c: SiteId, p: Peer, e: Edit, id: string)
    requires MadeWell(c, p.made) && Replicates(p) && p.client.site == c && id !in p.made && !IsLocal(id)
    ensures MadeWell(c, EditPeer(p, e, id).made)
  {
    var op := LocalOp(p.client, e);
    assert IsLocal(op.requestId);
    forall x | x in p.made
      ensures p.made[x].requestId != op.requestId
    {
      NextLocalIsNew(p, p.made[x]);
    }
  }

  // ---------- Delivering to the browser ----------

  lemma PopCount(q: seq<ServerMsg>, id: string)
    requires q != []
    ensures Count(q, id) == (if Hits(q[0], id) then 1 else 0) + Count(q[1..], id)
    ensures forall m :: m in q[1..] ==> m in q
  {
  }

  lemma DeliverAckKeepsPeer(c: SiteId, p: Peer, log: seq<Operation>, subs: set<SiteId>)
    requires PeerFine(c, p, log, subs) && p.toClient != [] && p.toClient[0].Ack?
    ensures PeerFine(c, DeliverPeer(p), log, subs)
  {
    assert Unfold(PEER);
    var q := DeliverPeer(p);
    forall id | id in q.made
      ensures EchoWell(c, q, log, id)
    {
      assert EchoWell(c, p, log, id);
      PopCount(p.toClient, id);
    }
  }

  lemma DeliverAuthKeepsPeer(c: SiteId, p: Peer, log: seq<Operation>, subs: set<SiteId>)
    requires PeerFine(c, p, log, subs) && p.toClient != [] && p.toClient[0].AuthStatus?
    ensures PeerFine(c, DeliverPeer(p), log, subs)
  {
    assert Unfold(PEER);
    var q := DeliverPeer(p);
    forall id | id in q.made
      ensures EchoWell(c, q, log, id)
    {
      assert EchoWell(c, p, log, id);
      PopCount(p.toClient, id);
    }
  }

  /** The echo of an own operation is skipped, and no second one will come. */
  lemma DeliverEchoKeepsPeer(c: SiteId, p: Peer, log: seq<Operation>, subs: set<SiteId>, o: Operation)
    requires PeerFine(c, p, log, subs) && p.toClient != [] && p.toClient[0].Sync?
    requires o in p.toClient[0].ops && o.requestId in p.made
    ensures PeerFine(c, DeliverPeer(p), log, subs)
    ensures DeliverPeer(p).client.rga == p.client.rga && DeliverPeer(p).got == p.got
  {
    assert Unfold(PEER);
    var q := DeliverPeer(p);
    var m := p.toClient[0];
    assert m in p.toClient && |m.ops| == 1;
    assert m.ops == [o] && Hits(m, o.requestId);
    LoggedId(log, o);
    assert EchoWell(c, p, log, o.requestId);
    PopCount(p.toClient, o.requestId);
    EchoIsSkipped(p.client, o, m.latest);
    assert q.got == p.got;
    forall id | id in q.made
      ensures EchoWell(c, q, log, id)
    {
      assert EchoWell(c, p, log, id);
      SkippedEcho(c, p, log, o, id);
    }
  }

  /** The skipped echo is no longer waited for, and no other one is missed. */
  lemma SkippedEcho(c: SiteId, p: Peer, log: seq<Operation>, o: Operation, id: string)
    requires p.toClient != [] && p.toClient[0].Sync? && p.toClient[0].ops == [o] && o.requestId in p.made && o in log
    requires EchoWell(c, p, log, id) && EchoWell(c, p, log, o.requestId)
    ensures EchoWell(c, DeliverPeer(p), log, id)
  {
    LoggedId(log, o);
    PopCount(p.toClient, id);
    PopCount(p.toClient, o.requestId);
    EchoIsSkipped(p.client, o, p.toClient[0].latest);
  }

  lemma EchoIsSkipped(c: Client, o: Operation, latest: int)
    requires o.requestId in c.pendingAcks || o.requestId in c.confirmed
    ensures var d := Synced(c, [o], latest);
            && d.rga == c.rga && d.pendingAcks == c.pendingAcks && d.nextLocal == c.nextLocal && d.site == c.site
            && d.confirmed == if o.requestId in c.pendingAcks then c.confirmed else c.confirmed - {o.requestId}
  {
    var c0 := c.(lastServerSeq := if latest > c.lastServerSeq then latest else c.lastServerSeq);
    assert [o][1..] == [];
    assert SyncedOps(c0, [o]) == SyncedOps(SyncedOp(c0, o), []);
  }

  /** Operations of others are all applied. */
  lemma {:induction false} ForeignAreApplied(c: Client, ops: seq<Operation>)
    requires forall o :: o in ops ==> o.requestId !in c.pendingAcks && o.requestId !in c.confirmed
    ensures SyncedOps(c, ops) == c.(rga := ApplyAll(c.rga, ops))
    decreases |ops|
  {
    if ops != [] {
      assert ops[0] in ops && forall o :: o in ops[1..] ==> o in ops;
      ForeignAreApplied(c.(rga := Apply(c.rga, ops[0])), ops[1..]);
    }
  }

  /** What sets the operations of others apart from own ones. */
  ghost predicate Foreign(c: SiteId, p: Peer, o: Operation)
  {
    o.requestId !in p.made ==> !IsLocal(o.requestId) && (o.opType.Insert? ==> o.nodeId.site != c)
  }

  lemma ForeignCoherent(c: SiteId, p: Peer, log: seq<Operation>, ops: set<Operation>)
    requires MadeWell(c, p.made) && Coherent(OwnOps(p.made)) && Coherent(Elements(log))
    requires forall o :: o in ops ==> o in log && o.requestId !in p.made && Foreign(c, p, o)
    ensures Coherent(OwnOps(p.made) + ops)
  {
    forall o, q | o in OwnOps(p.made) + ops && q in OwnOps(p.made) + ops
      ensures o.requestId == q.requestId ==> o == q
      ensures o.opType.Insert? && q.opType.Insert? && o.nodeId == q.nodeId ==> o == q
    {
      assert o in ops ==> o in Elements(log);
      assert q in ops ==> q in Elements(log);
    }
  }

  lemma ForeignReplicates(c: SiteId, p: Peer, log: seq<Operation>, ops: seq<Operation>)
    requires Replicates(p) && MadeWell(c, p.made) && Coherent(Elements(log))
    requires forall o :: o in p.got || o in ops ==> o in log && o.requestId !in p.made && Foreign(c, p, o)
    ensures Editable(ApplyAll(p.client.rga, ops), p.client.nextLocal, OwnOps(p.made) + (p.got + Elements(ops)))
  {
    assert Unfold(REPLICA);
    var all := OwnOps(p.made) + (p.got + Elements(ops));
    CoherentSubset(OwnOps(p.made), Received(p));
    ForeignCoherent(c, p, log, p.got + Elements(ops));
    assert Received(p) + Elements(ops) == all;
    ApplyAllKeeps(p.client.rga, Received(p), ops);
    forall k | k >= p.client.nextLocal
      ensures LocalId(k) !in RequestIds(all)
    {
      assert LocalId(k) !in p.client.rga.seen && IsLocal(LocalId(k));
      assert forall o :: o in all ==> o in Received(p) || o in ops;
      assert forall o :: o in Received(p) ==> o.requestId in RequestIds(Received(p));
    }
  }

  lemma DeliverForeignReplicates(c: SiteId, p: Peer, log: seq<Operation>)
    requires Replicates(p) && MadeWell(c, p.made) && GotWell(p, log) && InboxWell(p, log)
    requires p.toClient != [] && p.toClient[0].Sync?
    requires forall o :: o in p.toClient[0].ops ==> o.requestId !in p.made
    requires Coherent(Elements(log)) && forall o :: o in log ==> Foreign(c, p, o)
    ensures Replicates(DeliverPeer(p)) && DeliverPeer(p).got == p.got + Elements(p.toClient[0].ops)
    ensures var d := DeliverPeer(p).client;
            d.site == p.client.site && d.pendingAcks == p.client.pendingAcks && d.confirmed == p.client.confirmed
  {
    var q := DeliverPeer(p);
    var m := p.toClient[0];
    assert m in p.toClient;
    var c0 := p.client.(lastServerSeq := if m.latest > p.client.lastServerSeq then m.latest else p.client.lastServerSeq);
    ForeignAreApplied(c0, m.ops);
    ForeignReplicates(c, p, log, m.ops);
    assert q.got == p.got + Elements(m.ops);
    assert Received(q) == OwnOps(p.made) + (p.got + Elements(m.ops));
  }

  lemma DeliverForeignKeepsPeer(c: SiteId, p: Peer, log: seq<Operation>, subs: set<SiteId>)
    requires PeerFine(c, p, log, subs) && p.toClient != [] && p.toClient[0].Sync?
    requires forall o :: o in p.toClient[0].ops ==> o.requestId !in p.made
    requires Coherent(Elements(log)) && forall o :: o in log ==> Foreign(c, p, o)
    ensures PeerFine(c, DeliverPeer(p), log, subs)
    ensures DeliverPeer(p).got == p.got + Elements(p.toClient[0].ops)
  {
    assert Unfold(PEER);
    var q := DeliverPeer(p);
    assert p.toClient[0] in p.toClient;
    DeliverForeignReplicates(c, p, log);
    forall id | id in q.made
      ensures EchoWell(c, q, log, id)
    {
      assert EchoWell(c, p, log, id);
      PopCount(p.toClient, id);
    }
  }
}
