/** Every run of the protocol keeps `Quiescence.Well`; consistency of every run at rest. */
module ProtocolRuns {
  import opened Ids
  import opened RgaModel
  import opened Buffering
  import opened Convergence
  import opened Projector
  import opened SyncClient
  import opened Folding
  import opened Protocol
  import opened Quiescence
  import opened ProtocolSteps

  // ---------- What the steps need to know of a browser ----------

  lemma HeldIsLogged(s: Sys, c: SiteId)
    requires Well(s) && c in s.peers
    ensures InHand(s.peers[c].handler).Some? ==>
              InHand(s.peers[c].handler).value in s.log && InHand(s.peers[c].handler).value.requestId in s.peers[c].made
  {
    assert PeerAt(s, c) && Unfold(PEER);
  }

  lemma StoringIsOwn(s: Sys, c: SiteId)
    requires Well(s) && c in s.peers && s.peers[c].handler.Storing?
    ensures s.peers[c].handler.requestId in s.peers[c].made
    ensures s.peers[c].handler.op == s.peers[c].made[s.peers[c].handler.requestId]
  {
    assert PeerAt(s, c) && Unfold(PEER);
  }

  lemma JoinedSubscribes(s: Sys, c: SiteId)
    requires Well(s) && c in s.peers && s.peers[c].joined
    ensures c in s.subscribers
  {
    assert PeerAt(s, c) && Unfold(PEER);
  }

  lemma GotIsLogged(s: Sys, c: SiteId, o: Operation)
    requires Well(s) && c in s.peers && o in s.peers[c].got
    ensures o in s.log && o.requestId !in s.peers[c].made
  {
    assert PeerAt(s, c) && Unfold(PEER);
  }

  lemma EchoComesAlone(s: Sys, c: SiteId, m: ServerMsg, o: Operation)
    requires PeerAt(s, c) && c in s.peers && m in s.peers[c].toClient && m.Sync? && o in m.ops && o.requestId in s.peers[c].made
    ensures m.ops == [o]
  {
    assert PeerAt(s, c) && Unfold(PEER);
  }

  // ---------- Steps that touch one browser ----------

  /** `t` differs from `s` in the browser `c`, and in what the server projected. */
  ghost predicate Touches(s: Sys, t: Sys, c: SiteId)
  {
    && c in s.peers && c in t.peers && t.peers == s.peers[c := t.peers[c]]
    && t.log == s.log && s.subscribers <= t.subscribers && t.usedIds == s.usedIds
    && t.peers[c].made == s.peers[c].made && t.peers[c].authenticated == s.peers[c].authenticated
    && PeerFine(c, t.peers[c], t.log, t.subscribers)
    && Holds(t.projector, t.projected) && Sorted(t.log, t.projected, t.refused) && Undecided(t)
    && s.projected <= t.projected && s.refused <= t.refused
  }

  /** What the handler of `c` owed it still owes, or has sent. */
  ghost predicate StillDue(t: Sys, p: Peer, q: Peer, x: SiteId, o: Operation)
  {
    x in t.peers && t.peers[x].joined && Owes(p.handler, x, o) ==>
      Owes(q.handler, x, o) || InFlight(t.peers[x].toClient, o)
  }

  /** What was on its way to the browser still is, or has been applied. */
  ghost predicate StillComing(p: Peer, q: Peer, o: Operation)
  {
    && (o in p.got ==> o in q.got)
    && (InFlight(p.toClient, o) ==> InFlight(q.toClient, o) || o in q.got || o.requestId in q.made)
    && (p.joined || !q.joined || InFlight(q.toClient, o))
  }

  lemma TouchKeepsOthers(s: Sys, t: Sys, c: SiteId)
    requires Well(s) && Touches(s, t, c)
    ensures forall d :: PeerAt(t, d)
    ensures LogWell(t) && Apart(t)
  {
    forall d
      ensures PeerAt(t, d)
    {
      assert PeerAt(s, d);
      if d in s.peers && d != c {
        SubscribersGrow(d, s.peers[d], s.log, s.subscribers, t.subscribers);
      }
    }
    forall o | o in t.log
      ensures exists d :: Originates(t, d, o)
    {
      var d :| Originates(s, d, o);
      assert Originates(t, d, o);
    }
  }

  lemma TouchShows(s: Sys, t: Sys, c: SiteId, o: Operation)
    requires Touches(s, t, c) && Shown(s, o)
    requires Unprojected(s.peers[c].handler, o) ==> Unprojected(t.peers[c].handler, o) || o in t.projected
    ensures Shown(t, o)
  {
    if o !in s.projected {
      var d :| d in s.peers && Unprojected(s.peers[d].handler, o);
      assert d in t.peers && (Unprojected(t.peers[d].handler, o) || o in t.projected);
    }
  }

  lemma TouchCovers(s: Sys, t: Sys, c: SiteId, x: SiteId, o: Operation)
    requires Touches(s, t, c) && Covered(s, x, o)
    requires StillDue(t, s.peers[c], t.peers[c], x, o) && StillComing(s.peers[c], t.peers[c], o)
    ensures Covered(t, x, o)
  {
    if x in t.peers && t.peers[x].joined && x in s.peers && s.peers[x].joined && Due(s, x, o) {
      var d :| d in s.peers && Owes(s.peers[d].handler, x, o);
      assert d in t.peers;
      assert Owes(t.peers[d].handler, x, o) || InFlight(t.peers[x].toClient, o);
    }
  }

  lemma Touch(s: Sys, t: Sys, c: SiteId)
    requires Well(s) && Touches(s, t, c)
    requires forall o :: o in t.log && o !in t.refused ==>
               (Unprojected(s.peers[c].handler, o) ==> Unprojected(t.peers[c].handler, o) || o in t.projected)
    requires forall o :: o in t.log && o !in t.refused ==> StillComing(s.peers[c], t.peers[c], o)
    requires forall x, o :: o in t.log && o !in t.refused ==> StillDue(t, s.peers[c], t.peers[c], x, o)
    ensures Well(t)
  {
    TouchKeepsOthers(s, t, c);
    forall o | o in t.log && o !in t.refused
      ensures Shown(t, o)
    {
      assert Shown(s, o);
      TouchShows(s, t, c, o);
    }
    forall x, o | o in t.log && o !in t.refused
      ensures Covered(t, x, o)
    {
      assert Covered(s, x, o);
      TouchCovers(s, t, c, x, o);
    }
  }

  /** The handler owes and holds what it did before. */
  lemma TouchQuiet(s: Sys, t: Sys, c: SiteId)
    requires Well(s) && Touches(s, t, c)
    requires InHand(s.peers[c].handler).None? || t.peers[c].handler == s.peers[c].handler
    requires forall o :: o in t.log ==> StillComing(s.peers[c], t.peers[c], o)
    ensures Well(t)
  {
    Touch(s, t, c);
  }

  /** No handler has taken up another operation, and none was decided. */
  lemma StaysUndecided(s: Sys, t: Sys, c: SiteId)
    requires ServerWell(s) && c in s.peers && c in t.peers && t.peers == s.peers[c := t.peers[c]]
    requires t.projected == s.projected && t.refused == s.refused
    requires forall o :: Unprojected(t.peers[c].handler, o) ==> Unprojected(s.peers[c].handler, o)
    ensures Undecided(t)
  {
    forall d, o | d in t.peers && Unprojected(t.peers[d].handler, o)
      ensures o !in t.projected && o !in t.refused
    {
      assert d in s.peers && Unprojected(s.peers[d].handler, o);
    }
  }

  lemma TakeKeeps(s: Sys, c: SiteId)
    requires Well(s) && Enabled(s, Take(c))
    ensures Well(Do(s, Take(c)))
  {
    assert PeerAt(s, c);
    TakeKeepsPeer(c, s.peers[c], s.log, s.subscribers);
    StaysUndecided(s, Do(s, Take(c)), c);
    TouchQuiet(s, Do(s, Take(c)), c);
  }

  lemma ReadDiffKeeps(s: Sys, c: SiteId)
    requires Well(s) && Enabled(s, ReadDiff(c))
    ensures Well(Do(s, ReadDiff(c)))
  {
    assert PeerAt(s, c);
    DiffKeepsPeer(c, s.peers[c], s.log, s.subscribers);
    StaysUndecided(s, Do(s, ReadDiff(c)), c);
    TouchQuiet(s, Do(s, ReadDiff(c)), c);
  }

  lemma SendAckKeeps(s: Sys, c: SiteId)
    requires Well(s) && Enabled(s, SendAck(c))
    ensures Well(Do(s, SendAck(c)))
  {
    assert PeerAt(s, c);
    var t := Do(s, SendAck(c));
    AckKeepsPeer(c, s.peers[c], s.log, s.subscribers);
    StaysUndecided(s, t, c);
    forall o
      ensures StillComing(s.peers[c], t.peers[c], o)
    {
      FlightAppend(s.peers[c].toClient, Ack(s.peers[c].handler.stored.requestId, s.peers[c].handler.seqNo), o);
    }
    Touch(s, t, c);
  }

  lemma FlightAppend(q: seq<ServerMsg>, m: ServerMsg, o: Operation)
    ensures InFlight(q, o) ==> InFlight(q + [m], o)
    ensures m.Sync? && o in m.ops ==> InFlight(q + [m], o)
  {
    if InFlight(q, o) {
      var x :| x in q && x.Sync? && o in x.ops;
      assert x in q + [m];
    }
    assert m in q + [m];
  }

  lemma FlightPop(q: seq<ServerMsg>, o: Operation)
    requires q != [] && InFlight(q, o)
    ensures InFlight(q[1..], o) || (q[0].Sync? && o in q[0].ops)
  {
    var x :| x in q && x.Sync? && o in x.ops;
    assert q == [q[0]] + q[1..];
  }

  /** Every operation of the log that is not the browser's own stems from another one. */
  lemma LogIsForeign(s: Sys, c: SiteId, o: Operation)
    requires Well(s) && c in s.peers && o in s.log
    ensures Foreign(c, s.peers[c], o)
  {
    var d :| Originates(s, d, o);
    assert PeerAt(s, d) && Unfold(PEER);
  }

  lemma DeliverKeepsPeer(s: Sys, c: SiteId)
    requires Well(s) && Enabled(s, Deliver(c))
    ensures PeerFine(c, DeliverPeer(s.peers[c]), s.log, s.subscribers)
    ensures forall o :: StillComing(s.peers[c], DeliverPeer(s.peers[c]), o)
  {
    assert PeerAt(s, c);
    var p := s.peers[c];
    var m := p.toClient[0];
    if m.Ack? {
      DeliverAckKeepsPeer(c, p, s.log, s.subscribers);
    } else if m.AuthStatus? {
      DeliverAuthKeepsPeer(c, p, s.log, s.subscribers);
    } else if o :| o in m.ops && o.requestId in p.made {
      DeliverEchoKeepsPeer(c, p, s.log, s.subscribers, o);
      EchoComesAlone(s, c, m, o);
    } else {
      LogCoherent(s);
      forall o | o in s.log
        ensures Foreign(c, p, o)
      {
        LogIsForeign(s, c, o);
      }
      DeliverForeignKeepsPeer(c, p, s.log, s.subscribers);
    }
    forall o
      ensures StillComing(p, DeliverPeer(p), o)
    {
      if InFlight(p.toClient, o) {
        FlightPop(p.toClient, o);
      }
    }
  }

  lemma DeliverKeeps(s: Sys, c: SiteId)
    requires Well(s) && Enabled(s, Deliver(c))
    ensures Well(Do(s, Deliver(c)))
  {
    DeliverKeepsPeer(s, c);
    StaysUndecided(s, Do(s, Deliver(c)), c);
    TouchQuiet(s, Do(s, Deliver(c)), c);
  }

  // ---------- Sharing ----------

  lemma ShareKeepsPeer(s: Sys, c: SiteId)
    requires PeerAt(s, c) && Enabled(s, Share(c))
    ensures PeerFine(c, Do(s, Share(c)).peers[c], s.log, s.subscribers)
  {
    HandlerKeepsPeer(c, s.peers[c], Do(s, Share(c)).peers[c].handler, s.log, s.subscribers);
  }

  lemma ShareKeepsProjection(s: Sys, op: Operation)
    requires Well(s) && op in s.log
    ensures Holds(Apply(s.projector, op), s.projected + {op})
  {
    LogCoherent(s);
    CoherentSubset(s.projected + {op}, Elements(s.log));
    ApplyKeeps(s.projector, s.projected, op);
  }

  /** Two handlers never have the same operation in hand. */
  lemma OneHandlerEach(s: Sys, c: SiteId, d: SiteId)
    requires Well(s) && c in s.peers && d in s.peers && c != d
    ensures InHand(s.peers[c].handler).None? || InHand(s.peers[d].handler) != InHand(s.peers[c].handler)
  {
    HeldIsLogged(s, c);
    HeldIsLogged(s, d);
  }

  /** No other handler is about to project the operation. */
  lemma ShareDecidesOne(s: Sys, c: SiteId)
    requires Undecided(s) && Enabled(s, Share(c))
    requires forall d :: d in s.peers && d != c ==> InHand(s.peers[d].handler) != InHand(s.peers[c].handler)
    ensures Undecided(Do(s, Share(c)))
  {
    var t := Do(s, Share(c));
    forall d, o | d in t.peers && Unprojected(t.peers[d].handler, o)
      ensures o !in t.projected && o !in t.refused
    {
      assert d in s.peers && d != c && Unprojected(s.peers[d].handler, o);
    }
  }

  lemma ShareSorts(s: Sys, c: SiteId)
    requires Sorted(s.log, s.projected, s.refused) && Undecided(s) && Enabled(s, Share(c)) && s.peers[c].handler.shared in s.log
    ensures var t := Do(s, Share(c)); Sorted(t.log, t.projected, t.refused)
  {
    assert c in s.peers && Unprojected(s.peers[c].handler, s.peers[c].handler.shared);
  }

  lemma ShareServes(s: Sys, c: SiteId)
    requires Well(s) && Enabled(s, Share(c))
    ensures var t := Do(s, Share(c)); Holds(t.projector, t.projected) && Sorted(t.log, t.projected, t.refused) && Undecided(t)
  {
    forall d | d in s.peers && d != c
      ensures InHand(s.peers[d].handler) != InHand(s.peers[c].handler)
    {
      OneHandlerEach(s, c, d);
    }
    ShareDecidesOne(s, c);
    HeldIsLogged(s, c);
    ShareSorts(s, c);
    ShareKeepsProjection(s, s.peers[c].handler.shared);
  }

  lemma ShareChanges(s: Sys, c: SiteId)
    requires Enabled(s, Share(c))
    ensures var t := Do(s, Share(c));
      && c in t.peers && t.peers == s.peers[c := t.peers[c]] && t.peers[c].made == s.peers[c].made
      && t.peers[c].authenticated == s.peers[c].authenticated
      && t.log == s.log && t.subscribers == s.subscribers && t.usedIds == s.usedIds
      && s.projected <= t.projected && s.refused <= t.refused
  {
  }

  lemma ShareTouches(s: Sys, c: SiteId)
    requires Well(s) && Enabled(s, Share(c))
    ensures Touches(s, Do(s, Share(c)), c)
  {
    assert PeerAt(s, c);
    ShareChanges(s, c);
    ShareKeepsPeer(s, c);
    ShareServes(s, c);
  }

  /** What the handler owed it still owes, unless it was refused. */
  lemma ShareStillOwes(s: Sys, c: SiteId, x: SiteId, o: Operation)
    requires Enabled(s, Share(c)) && o !in Do(s, Share(c)).refused
    ensures var t := Do(s, Share(c));
      && StillDue(t, s.peers[c], t.peers[c], x, o) && StillComing(s.peers[c], t.peers[c], o)
      && (Unprojected(s.peers[c].handler, o) ==> o in t.projected)
  {
  }

  lemma ShareKeeps(s: Sys, c: SiteId)
    requires Well(s) && Enabled(s, Share(c))
    ensures Well(Do(s, Share(c)))
  {
    var t := Do(s, Share(c));
    ShareTouches(s, c);
    forall x, o | o in t.log && o !in t.refused
      ensures StillDue(t, s.peers[c], t.peers[c], x, o) && StillComing(s.peers[c], t.peers[c], o)
      ensures Unprojected(s.peers[c].handler, o) ==> o in t.projected
    {
      ShareStillOwes(s, c, x, o);
    }
    Touch(s, t, c);
  }

  /** The list of subscribers holds every browser that has joined. */
  lemma GatherKeeps(s: Sys, c: SiteId)
    requires Well(s) && Enabled(s, Gather(c))
    ensures Well(Do(s, Gather(c)))
  {
    var t := Do(s, Gather(c));
    assert PeerAt(s, c);
    HandlerKeepsPeer(c, s.peers[c], t.peers[c].handler, s.log, s.subscribers);
    StaysUndecided(s, t, c);
    forall x, o | o in t.log
      ensures StillDue(t, s.peers[c], t.peers[c], x, o)
    {
      if x in t.peers && t.peers[x].joined {
        JoinedSubscribes(s, x);
      }
    }
    Touch(s, t, c);
  }

  // ---------- Sending ----------

  lemma SentStillOwes(h: Handler, target: SiteId, x: SiteId, o: Operation)
    requires h.Broadcasting? && Owes(h, x, o)
    ensures o == h.cast && (x == target || Owes(SentHandler(h, target), x, o))
    ensures !Unprojected(h, o)
  {
  }

  /** The handler of `c` has sent to `target`, whose queue holds the message. */
  lemma TouchSent(s: Sys, t: Sys, c: SiteId, target: SiteId)
    requires Well(s) && Touches(s, t, c) && s.peers[c].handler.Broadcasting?
    requires t.peers[c].handler == SentHandler(s.peers[c].handler, target)
    requires target in t.peers && InFlight(t.peers[target].toClient, s.peers[c].handler.cast)
    requires forall o :: StillComing(s.peers[c], t.peers[c], o)
    ensures Well(t)
  {
    var h := s.peers[c].handler;
    forall x, o | o in t.log
      ensures StillDue(t, s.peers[c], t.peers[c], x, o)
    {
      if Owes(h, x, o) {
        SentStillOwes(h, target, x, o);
      }
    }
    Touch(s, t, c);
  }

  lemma SendToSelf(s: Sys, c: SiteId)
    requires Enabled(s, Send(c, c))
    ensures Do(s, Send(c, c)) == s.(peers := s.peers[c := EchoedPeer(s.peers[c], c)])
  {
    var p := s.peers[c].(handler := SentHandler(s.peers[c].handler, c));
    assert s.peers[c := p][c := EchoedPeer(s.peers[c], c)] == s.peers[c := EchoedPeer(s.peers[c], c)];
  }

  lemma EchoedPeerComing(p: Peer, c: SiteId, o: Operation)
    requires p.handler.Broadcasting?
    ensures StillComing(p, EchoedPeer(p, c), o)
    ensures InFlight(EchoedPeer(p, c).toClient, p.handler.cast)
  {
    var m := Sync([p.handler.cast], p.handler.nr);
    FlightAppend(p.toClient, m, o);
    FlightAppend(p.toClient, m, p.handler.cast);
  }

  lemma SendToSelfKeeps(s: Sys, c: SiteId)
    requires Well(s) && Enabled(s, Send(c, c))
    ensures Well(Do(s, Send(c, c)))
  {
    SendToSelf(s, c);
    assert PeerAt(s, c);
    EchoKeepsPeer(c, s.peers[c], s.log, s.subscribers);
    var t := s.(peers := s.peers[c := EchoedPeer(s.peers[c], c)]);
    StaysUndecided(s, t, c);
    assert Touches(s, t, c);
    forall o
      ensures StillComing(s.peers[c], t.peers[c], o) && InFlight(t.peers[c].toClient, s.peers[c].handler.cast)
    {
      EchoedPeerComing(s.peers[c], c, o);
    }
    TouchSent(s, t, c, c);
  }

  /** The message first enters the target's queue. */
  ghost function Queued(s: Sys, c: SiteId, x: SiteId): Sys
    requires Enabled(s, Send(c, x))
  {
    s.(peers := s.peers[x := ReceivePeer(s.peers[x], s.peers[c].handler.cast, s.peers[c].handler.nr)])
  }

  lemma QueuedKeeps(s: Sys, c: SiteId, x: SiteId)
    requires Well(s) && Enabled(s, Send(c, x)) && c != x
    ensures Well(Queued(s, c, x)) && InFlight(Queued(s, c, x).peers[x].toClient, s.peers[c].handler.cast)
  {
    var t := Queued(s, c, x);
    var h := s.peers[c].handler;
    assert PeerAt(s, c) && PeerAt(s, x);
    HeldIsLogged(s, c);
    assert h.cast in s.log && h.cast.requestId !in s.peers[x].made;
    ReceiveKeepsPeer(x, s.peers[x], h.cast, h.nr, s.log, s.subscribers);
    forall o
      ensures StillComing(s.peers[x], t.peers[x], o)
    {
      FlightAppend(s.peers[x].toClient, Sync([h.cast], h.nr), o);
    }
    FlightAppend(s.peers[x].toClient, Sync([h.cast], h.nr), h.cast);
    StaysUndecided(s, t, x);
    Touch(s, t, x);
  }

  lemma SendToOther(s: Sys, c: SiteId, x: SiteId)
    requires Enabled(s, Send(c, x)) && c != x
    ensures var r := Queued(s, c, x);
            r.peers[c] == s.peers[c]
            && Do(s, Send(c, x)) == r.(peers := r.peers[c := r.peers[c].(handler := SentHandler(r.peers[c].handler, x))])
  {
    var p := s.peers[c].(handler := SentHandler(s.peers[c].handler, x));
    var q := ReceivePeer(s.peers[x], s.peers[c].handler.cast, s.peers[c].handler.nr);
    assert s.peers[c := p][x := q] == s.peers[x := q][c := p];
  }

  lemma HandlerSentKeeps(s: Sys, c: SiteId, x: SiteId)
    requires Well(s) && c in s.peers && x in s.peers && c != x && s.peers[c].handler.Broadcasting?
    requires InFlight(s.peers[x].toClient, s.peers[c].handler.cast)
    ensures Well(s.(peers := s.peers[c := s.peers[c].(handler := SentHandler(s.peers[c].handler, x))]))
  {
    var t := s.(peers := s.peers[c := s.peers[c].(handler := SentHandler(s.peers[c].handler, x))]);
    assert PeerAt(s, c);
    HandlerKeepsPeer(c, s.peers[c], t.peers[c].handler, s.log, s.subscribers);
    StaysUndecided(s, t, c);
    TouchSent(s, t, c, x);
  }

  lemma SendToOtherKeeps(s: Sys, c: SiteId, x: SiteId)
    requires Well(s) && Enabled(s, Send(c, x)) && c != x
    ensures Well(Do(s, Send(c, x)))
  {
    QueuedKeeps(s, c, x);
    SendToOther(s, c, x);
    HandlerSentKeeps(Queued(s, c, x), c, x);
  }

  lemma SendKeeps(s: Sys, c: SiteId, x: SiteId)
    requires Well(s) && Enabled(s, Send(c, x))
    ensures Well(Do(s, Send(c, x)))
  {
    if c == x {
      SendToSelfKeeps(s, c);
    } else {
      SendToOtherKeeps(s, c, x);
    }
  }

  // ---------- Storing ----------

  /** The log grows by an operation of `c`, which its handler now holds. */
  ghost predicate Stores(s: Sys, t: Sys, c: SiteId, op: Operation)
  {
    && c in s.peers && s.peers[c].handler.Storing?
    && op == Stamp(s.peers[c].handler.op, s.peers[c].handler.requestId, s.peers[c].authenticated)
    && op.requestId !in IdsOf(s.log)
    && t == s.(peers := s.peers[c := s.peers[c].(handler := Stored(op, |s.log| + 1))], log := s.log + [op])
  }

  lemma StoredIsOwn(s: Sys, t: Sys, c: SiteId, op: Operation, d: SiteId)
    requires Well(s) && Stores(s, t, c, op) && d in s.peers && d != c
    ensures op.requestId in s.peers[c].made && op.requestId !in s.peers[d].made
  {
    StoringIsOwn(s, c);
  }

  lemma StoreKeepsOther(s: Sys, t: Sys, c: SiteId, op: Operation, d: SiteId)
    requires Well(s) && Stores(s, t, c, op) && d != c
    ensures PeerAt(t, d)
  {
    if d in s.peers {
      assert PeerAt(s, d);
      StoredIsOwn(s, t, c, op, d);
      LogGrows(d, s.peers[d], s.log, s.subscribers, op);
      assert t.peers[d] == s.peers[d];
    }
  }

  lemma StoreKeepsSelf(s: Sys, t: Sys, c: SiteId, op: Operation)
    requires PeerAt(s, c) && Stores(s, t, c, op)
    ensures PeerAt(t, c)
  {
    StoreKeepsPeer(c, s.peers[c], s.log, s.subscribers);
    assert t.peers[c] == s.peers[c].(handler := Stored(op, |s.log| + 1));
  }

  lemma StoreKeepsLog(s: Sys, t: Sys, c: SiteId, op: Operation)
    requires Well(s) && Stores(s, t, c, op)
    ensures LogWell(t) && Apart(t)
  {
    StoringIsOwn(s, c);
    IdsOfAppend(s.log, op);
    forall i | 0 <= i < |s.log|
      ensures s.log[i].requestId != op.requestId
    {
      assert s.log[i].requestId in IdsOf(s.log);
    }
    forall o | o in t.log
      ensures exists d :: Originates(t, d, o)
    {
      if o in s.log {
        var d :| Originates(s, d, o);
        assert Originates(t, d, o);
      } else {
        assert Originates(t, c, op);
      }
    }
  }

  /** What enters the log has been neither projected nor refused. */
  lemma StoreUndecided(s: Sys, t: Sys, c: SiteId, op: Operation)
    requires ServerWell(s) && Stores(s, t, c, op)
    ensures Undecided(t)
  {
    forall o | o in s.log
      ensures o.requestId in IdsOf(s.log)
    {
      LoggedId(s.log, o);
    }
    forall d, o | d in t.peers && Unprojected(t.peers[d].handler, o)
      ensures o !in t.projected && o !in t.refused
    {
      assert d in s.peers && (o == op || Unprojected(s.peers[d].handler, o));
    }
  }

  lemma StoreShows(s: Sys, t: Sys, c: SiteId, op: Operation, o: Operation)
    requires Stores(s, t, c, op) && o in t.log && (o in s.log ==> Shown(s, o))
    ensures Shown(t, o)
  {
    if o in s.log {
      if o !in s.projected {
        var d :| d in s.peers && Unprojected(s.peers[d].handler, o);
        assert d in t.peers && Unprojected(t.peers[d].handler, o);
      }
    } else {
      assert c in t.peers && Unprojected(t.peers[c].handler, op);
    }
  }

  lemma StoreKeepsServer(s: Sys, t: Sys, c: SiteId, op: Operation)
    requires ServerWell(s) && Stores(s, t, c, op)
    ensures ServerWell(t)
  {
    StoreUndecided(s, t, c, op);
    forall o | o in t.log && o !in t.refused
      ensures Shown(t, o)
    {
      StoreShows(s, t, c, op, o);
    }
    forall x, o | o in t.log && o !in t.refused
      ensures Covered(t, x, o)
    {
      StoreCovers(s, t, c, op, x, o);
    }
  }

  lemma StoreCovers(s: Sys, t: Sys, c: SiteId, op: Operation, x: SiteId, o: Operation)
    requires Stores(s, t, c, op) && o in t.log
    requires o in s.log ==> Covered(s, x, o)
    ensures Covered(t, x, o)
  {
    if o in s.log {
      if x in s.peers && s.peers[x].joined && Due(s, x, o) {
        var d :| d in s.peers && Owes(s.peers[d].handler, x, o);
        assert d in t.peers && Owes(t.peers[d].handler, x, o);
      }
    } else {
      assert c in t.peers && Owes(t.peers[c].handler, x, op);
    }
  }

  lemma StoreKeeps(s: Sys, c: SiteId)
    requires Well(s) && Enabled(s, Store(c))
    ensures Well(Do(s, Store(c)))
  {
    var t := Do(s, Store(c));
    var p := s.peers[c];
    var op := Stamp(p.handler.op, p.handler.requestId, p.authenticated);
    if op.requestId in IdsOf(s.log) {
      assert PeerAt(s, c);
      StoreAgainKeepsPeer(c, p, s.log, s.subscribers);
      StaysUndecided(s, t, c);
      TouchQuiet(s, t, c);
    } else {
      forall d
        ensures PeerAt(t, d)
      {
        if d == c {
          assert PeerAt(s, c);
          StoreKeepsSelf(s, t, c, op);
        } else {
          StoreKeepsOther(s, t, c, op, d);
        }
      }
      StoreKeepsLog(s, t, c, op);
      StoreKeepsServer(s, t, c, op);
    }
  }

  // ---------- Editing and connecting ----------

  /** Facts about the log survive when a browser is added or makes an operation. */
  ghost predicate Extends(s: Sys, t: Sys, c: SiteId)
  {
    && t.log == s.log && t.subscribers == s.subscribers && s.usedIds <= t.usedIds
    && t.projector == s.projector && t.projected == s.projected && t.refused == s.refused
    && c in t.peers && t.peers == s.peers[c := t.peers[c]]
    && PeerFine(c, t.peers[c], t.log, t.subscribers)
    && t.peers[c].made.Keys <= t.usedIds
    && if c in s.peers then
         && (forall id :: id in s.peers[c].made ==> id in t.peers[c].made && t.peers[c].made[id] == s.peers[c].made[id])
         && (forall id :: id in t.peers[c].made ==> id in s.peers[c].made || id !in s.usedIds)
         && t.peers[c].handler == s.peers[c].handler && t.peers[c].got == s.peers[c].got && t.peers[c].authenticated == s.peers[c].authenticated
         && t.peers[c].toClient == s.peers[c].toClient && t.peers[c].joined == s.peers[c].joined
       else t.peers[c].made == map[] && !t.peers[c].joined && t.peers[c].handler.Idle?
  }

  lemma ExtendKeepsLog(s: Sys, t: Sys, c: SiteId)
    requires LogWell(s) && Apart(s) && Extends(s, t, c)
    ensures LogWell(t) && Apart(t)
  {
    forall o | o in t.log
      ensures exists d :: Originates(t, d, o)
    {
      var d :| Originates(s, d, o);
      assert Originates(t, d, o);
    }
  }

  lemma ExtendUndecided(s: Sys, t: Sys, c: SiteId)
    requires ServerWell(s) && Extends(s, t, c)
    ensures Undecided(t)
  {
    forall d, o | d in t.peers && Unprojected(t.peers[d].handler, o)
      ensures o !in t.projected && o !in t.refused
    {
      assert d in s.peers && Unprojected(s.peers[d].handler, o);
    }
  }

  lemma ExtendKeepsServer(s: Sys, t: Sys, c: SiteId)
    requires ServerWell(s) && Extends(s, t, c)
    ensures ServerWell(t)
  {
    ExtendUndecided(s, t, c);
    forall o | o in t.log && o !in t.refused
      ensures Shown(t, o)
    {
      assert Shown(s, o);
      if o !in s.projected {
        var d :| d in s.peers && Unprojected(s.peers[d].handler, o);
        assert d in t.peers && Unprojected(t.peers[d].handler, o);
      }
    }
    forall x, o | o in t.log && o !in t.refused
      ensures Covered(t, x, o)
    {
      assert Covered(s, x, o);
      ExtendCovers(s, t, c, x, o);
    }
  }

  lemma ExtendCovers(s: Sys, t: Sys, c: SiteId, x: SiteId, o: Operation)
    requires Extends(s, t, c) && Covered(s, x, o)
    ensures Covered(t, x, o)
  {
    if x in s.peers && s.peers[x].joined && Due(s, x, o) {
      var d :| d in s.peers && Owes(s.peers[d].handler, x, o);
      assert d in t.peers && Owes(t.peers[d].handler, x, o);
    }
  }

  lemma Extend(s: Sys, t: Sys, c: SiteId)
    requires Well(s) && Extends(s, t, c)
    ensures Well(t)
  {
    ExtendKeepsLog(s, t, c);
    ExtendKeepsServer(s, t, c);
    forall d
      ensures PeerAt(t, d)
    {
      assert PeerAt(s, d);
    }
  }

  lemma ConnectKeeps(s: Sys, c: SiteId, a: bool)
    requires Well(s) && Enabled(s, Connect(c, a))
    ensures Well(Do(s, Connect(c, a)))
  {
    EmptyHolds();
    var p := NewPeer(c, a);
    assert Received(p) == {};
    assert Editable(p.client.rga, p.client.nextLocal, Received(p));
    assert p.toServer[1..] == [];
    Extend(s, Do(s, Connect(c, a)), c);
  }

  lemma MakeEditKeeps(s: Sys, c: SiteId, e: Edit, id: string)
    requires Well(s) && Enabled(s, MakeEdit(c, e, id))
    ensures Well(Do(s, MakeEdit(c, e, id)))
  {
    assert PeerAt(s, c);
    var p := s.peers[c];
    forall o | o in p.got
      ensures o.requestId != id
    {
      GotIsLogged(s, c, o);
      LoggedId(s.log, o);
    }
    EditKeepsPeer(c, p, e, id, s.log, s.subscribers);
    Extend(s, Do(s, MakeEdit(c, e, id)), c);
  }

  // ---------- Whole runs ----------

  /** Every step of the protocol keeps all of `Well`. */
  lemma StepKeeps(s: Sys, step: Step)
    requires Well(s) && Enabled(s, step)
    ensures Well(Do(s, step))
  {
    match step
    case Connect(c, a) => ConnectKeeps(s, c, a);
    case MakeEdit(c, e, id) => MakeEditKeeps(s, c, e, id);
    case Take(c) => TakeKeeps(s, c);
    case ReadDiff(c) => ReadDiffKeeps(s, c);
    case Store(c) => StoreKeeps(s, c);
    case SendAck(c) => SendAckKeeps(s, c);
    case Share(c) => ShareKeeps(s, c);
    case Gather(c) => GatherKeeps(s, c);
    case Send(c, t) => SendKeeps(s, c, t);
    case Deliver(c) => DeliverKeeps(s, c);
  }

  lemma {:induction false} RunKeeps(s: Sys, steps: seq<Step>)
    requires Well(s) && IsRun(s, steps)
    ensures Well(After(s, steps))
    decreases |steps|
  {
    if steps != [] {
      StepKeeps(s, steps[0]);
      RunKeeps(Do(s, steps[0]), steps[1..]);
    }
  }

  lemma StartIsWell()
    ensures Well(Start)
  {
    EmptyHolds();
  }

  /** Quiescent consistency: after every run, once all queues are empty and all handlers idle,
      a browser shows the text of the projection if and only if no refused delete that reached
      it targets a character the projection shows. */
  lemma EveryRunIsConsistentAtRest(steps: seq<Step>, c: SiteId)
    requires IsRun(Start, steps)
    ensures var s := After(Start, steps);
            Quiescent(s) && c in s.peers ==>
              (Text(s.peers[c].client.rga.nodes) == Text(s.projector.nodes) <==> forall n :: !Missing(s, c, n))
  {
    StartIsWell();
    RunKeeps(Start, steps);
    var s := After(Start, steps);
    if Quiescent(s) && c in s.peers {
      ConsistentAtRest(s, c);
    }
  }

  /** So in every run without a refusal all browsers end with the text of the projection. */
  lemma WithoutRefusalsAllAgree(steps: seq<Step>, c: SiteId)
    requires IsRun(Start, steps)
    ensures var s := After(Start, steps);
            Quiescent(s) && s.refused == {} && c in s.peers ==>
              Text(s.peers[c].client.rga.nodes) == Text(s.projector.nodes)
  {
    EveryRunIsConsistentAtRest(steps, c);
  }

  /** In every run each logged operation is a browser's own, says what the browser did, and
      carries the rights the server gave its connection, whatever the browser claimed. */
  lemma RightsAreTheServers(steps: seq<Step>, o: Operation)
    requires IsRun(Start, steps)
    ensures var s := After(Start, steps);
            o in s.log ==> exists c :: c in s.peers && o.requestId in s.peers[c].made && o.authenticated == s.peers[c].authenticated
                                         && SameEdit(o, s.peers[c].made[o.requestId])
  {
    StartIsWell();
    RunKeeps(Start, steps);
    var s := After(Start, steps);
    if o in s.log {
      var c :| Originates(s, c, o);
    }
  }

  /** In every run, refusals or not, no browser applies the echo of an own operation: its
      wire id never enters the replica. */
  lemma NoEchoIsApplied(steps: seq<Step>, c: SiteId, id: string)
    requires IsRun(Start, steps)
    ensures var s := After(Start, steps);
            c in s.peers && id in s.peers[c].made ==> id !in s.peers[c].client.rga.seen
  {
    StartIsWell();
    RunKeeps(Start, steps);
    var s := After(Start, steps);
    if c in s.peers && id in s.peers[c].made {
      assert PeerAt(s, c) && Unfold(PEER) && Unfold(REPLICA);
      forall o | o in Received(s.peers[c])
        ensures o.requestId != id
      {
      }
    }
  }
}
