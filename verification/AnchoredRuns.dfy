/** Runs in which every insert is anchored on a character its browser holds, as the inserts of a
    text change are: in all of them every browser stays ready for exact text changes. */
module AnchoredRuns {
  import opened Ids
  import opened RgaModel
  import opened TreeOrder
  import opened Buffering
  import opened LocalIntent
  import opened TextChange
  import opened SyncClient
  import opened Folding
  import opened Protocol
  import opened Quiescence
  import opened ProtocolSteps
  import opened ProtocolRuns

  /** The anchor of an edit, if it has one, is in the browser's list. */
  predicate Anchored(c: Client, e: Edit)
  {
    e.InsertAfter? && e.after.Some? ==> Has(c.rga.nodes, e.after.value)
  }

  /** A text change anchors its inserts on visible characters, which the browser holds. */
  lemma TextChangesAreAnchored(c: Client, m: nat, ch: char)
    requires Ordered(c.rga.nodes) && m <= |Visible(c.rga.nodes)|
    ensures Anchored(c, InsertAfter(AnchorAt(Visible(c.rga.nodes), m), ch))
  {
    var after := AnchorAt(Visible(c.rga.nodes), m);
    InsertVisible(c.rga.nodes, m, Node(NodeId(c.site, 0), after, ch, false, false));
  }

  predicate AnchoredStep(s: Sys, step: Step)
  {
    step.MakeEdit? && step.site in s.peers ==> Anchored(s.peers[step.site].client, step.edit)
  }

  ghost predicate IsAnchoredRun(s: Sys, steps: seq<Step>)
    decreases |steps|
  {
    steps == [] || (Enabled(s, steps[0]) && AnchoredStep(s, steps[0]) && IsAnchoredRun(Do(s, steps[0]), steps[1..]))
  }

  /** Every insert in the log, and every one a browser received, is younger than its anchor. */
  ghost predicate Older(s: Sys)
  {
    AnchorsOlder(Elements(s.log)) && forall c :: c in s.peers ==> AnchorsOlder(Received(s.peers[c]))
  }

  lemma EditIsYounger(p: Peer, e: Edit, id: string)
    requires Replicates(p) && Anchored(p.client, e) && AnchorsOlder(Received(p)) && id !in p.made
    ensures AnchorsOlder(Received(EditPeer(p, e, id)))
  {
    var op := LocalOp(p.client, e);
    EditReplicates(p, e, id);
    assert Unfold(REPLICA);
    if e.InsertAfter? && e.after.Some? {
      NodesAreOld(p.client.rga, Received(p), Find(p.client.rga.nodes, e.after.value));
    }
    EditAdds(p, e, id);
  }

  lemma DeliveredIsOlder(p: Peer, log: seq<Operation>)
    requires p.toClient != [] && InboxWell(p, log) && AnchorsOlder(Elements(log)) && AnchorsOlder(Received(p))
    ensures AnchorsOlder(Received(DeliverPeer(p)))
  {
    var q := DeliverPeer(p);
    assert p.toClient[0] in p.toClient;
    forall o | o in Received(q)
      ensures o in Received(p) || o in Elements(log)
    {
    }
  }

  lemma StoredIsOlder(s: Sys, c: SiteId)
    requires Well(s) && Older(s) && Enabled(s, Store(c))
    ensures AnchorsOlder(Elements(Do(s, Store(c)).log))
  {
    StoringIsOwn(s, c);
    var p := s.peers[c];
    var op := Stamp(p.handler.op, p.handler.requestId, p.authenticated);
    assert p.handler.op in Received(p);
    assert Elements(s.log + [op]) == Elements(s.log) + {op};
  }

  /** What the browsers received is as it was. */
  ghost predicate SameReceived(s: Sys, t: Sys)
  {
    forall c :: c in t.peers ==>
      if c in s.peers then t.peers[c].made == s.peers[c].made && t.peers[c].got == s.peers[c].got
      else t.peers[c].made == map[] && t.peers[c].got == {}
  }

  lemma StoreReceivesNothing(s: Sys, c: SiteId)
    requires Enabled(s, Store(c))
    ensures SameReceived(s, Do(s, Store(c)))
  {
  }

  lemma SendReceivesNothing(s: Sys, c: SiteId, x: SiteId)
    requires Enabled(s, Send(c, x))
    ensures SameReceived(s, Do(s, Send(c, x))) && Do(s, Send(c, x)).log == s.log
  {
  }

  lemma OthersReceiveNothing(s: Sys, step: Step)
    requires Enabled(s, step) && !step.MakeEdit? && !step.Deliver? && !step.Store?
    ensures SameReceived(s, Do(s, step)) && Do(s, step).log == s.log
  {
    if step.Send? {
      SendReceivesNothing(s, step.site, step.target);
    }
  }

  lemma OlderStays(s: Sys, t: Sys)
    requires Older(s) && AnchorsOlder(Elements(t.log)) && SameReceived(s, t)
    ensures Older(t)
  {
    forall c | c in t.peers
      ensures AnchorsOlder(Received(t.peers[c]))
    {
      if c in s.peers {
        assert Received(t.peers[c]) == Received(s.peers[c]);
      } else {
        assert Received(t.peers[c]) == {};
      }
    }
  }

  lemma EditKeepsOlder(s: Sys, c: SiteId, e: Edit, id: string)
    requires Well(s) && Older(s) && Enabled(s, MakeEdit(c, e, id)) && Anchored(s.peers[c].client, e)
    ensures Older(Do(s, MakeEdit(c, e, id)))
  {
    assert PeerAt(s, c) && Unfold(PEER);
    assert id !in s.peers[c].made;
    EditIsYounger(s.peers[c], e, id);
  }

  lemma DeliverKeepsOlder(s: Sys, c: SiteId)
    requires Well(s) && Older(s) && Enabled(s, Deliver(c))
    ensures Older(Do(s, Deliver(c)))
  {
    assert PeerAt(s, c) && Unfold(PEER);
    DeliveredIsOlder(s.peers[c], s.log);
  }

  lemma StoreKeepsOlder(s: Sys, c: SiteId)
    requires Well(s) && Older(s) && Enabled(s, Store(c))
    ensures Older(Do(s, Store(c)))
  {
    StoredIsOlder(s, c);
    StoreReceivesNothing(s, c);
    OlderStays(s, Do(s, Store(c)));
  }

  lemma StepKeepsOlder(s: Sys, step: Step)
    requires Well(s) && Older(s) && Enabled(s, step) && AnchoredStep(s, step)
    ensures Older(Do(s, step))
  {
    if step.MakeEdit? {
      EditKeepsOlder(s, step.site, step.edit, step.wireId);
    } else if step.Deliver? {
      DeliverKeepsOlder(s, step.site);
    } else if step.Store? {
      StoreKeepsOlder(s, step.site);
    } else {
      OthersReceiveNothing(s, step);
      OlderStays(s, Do(s, step));
    }
  }

  lemma {:induction false} AnchoredRunKeeps(s: Sys, steps: seq<Step>)
    requires Well(s) && Older(s) && IsAnchoredRun(s, steps)
    ensures IsRun(s, steps) && Well(After(s, steps)) && Older(After(s, steps))
    decreases |steps|
  {
    if steps != [] {
      StepKeeps(s, steps[0]);
      StepKeepsOlder(s, steps[0]);
      AnchoredRunKeeps(Do(s, steps[0]), steps[1..]);
    }
  }

  /** In every state of such a run every browser meets the precondition of an exact text change. */
  lemma TextChangesStayExact(steps: seq<Step>, c: SiteId)
    requires IsAnchoredRun(Start, steps)
    ensures IsRun(Start, steps)
    ensures var s := After(Start, steps); c in s.peers ==> Sound(s.peers[c].client, Received(s.peers[c]))
  {
    StartIsWell();
    AnchoredRunKeeps(Start, steps);
    var s := After(Start, steps);
    assert PeerAt(s, c) && Unfold(PEER);
    assert Unfold(REPLICA);
  }

  // ---------- Rights ----------

  /** A browser has been told the rights of its connection, or the telling is on its way. */
  ghost predicate KnowsRights(p: Peer)
  {
    && (forall m :: m in p.toClient && m.AuthStatus? ==> m.authenticated == p.authenticated)
    && (p.client.authenticated == p.authenticated || AuthStatus(p.authenticated) in p.toClient)
  }

  ghost predicate AllKnowRights(s: Sys)
  {
    forall c :: c in s.peers ==> KnowsRights(s.peers[c])
  }

  lemma SyncKeepsRights(c: Client, ops: seq<Operation>, latest: int)
    ensures Synced(c, ops, latest).authenticated == c.authenticated
  {
    SyncLeaves(c.(lastServerSeq := if latest > c.lastServerSeq then latest else c.lastServerSeq), ops);
  }

  lemma DeliverKeepsRights(p: Peer)
    requires p.toClient != [] && KnowsRights(p)
    ensures KnowsRights(DeliverPeer(p))
  {
    var m := p.toClient[0];
    assert m in p.toClient && p.toClient == [m] + p.toClient[1..];
    if m.Sync? {
      SyncKeepsRights(p.client, m.ops, m.latest);
    }
  }

  /** The connection keeps its rights, the browser what it knows, and the inbox grows by no telling. */
  ghost predicate TellsNothing(p: Peer, q: Peer)
  {
    && q.authenticated == p.authenticated && q.client.authenticated == p.client.authenticated
    && (forall m :: m in q.toClient && m.AuthStatus? ==> m in p.toClient) && (forall m :: m in p.toClient ==> m in q.toClient)
  }

  lemma StepTellsNothing(s: Sys, step: Step, c: SiteId)
    requires Enabled(s, step) && !step.Deliver? && !step.Connect? && c in s.peers
    ensures c in Do(s, step).peers && TellsNothing(s.peers[c], Do(s, step).peers[c])
  {
    if step.Send? {
      SendTellsNothing(s, step.site, step.target, c);
    }
  }

  lemma SendTellsNothing(s: Sys, c: SiteId, x: SiteId, d: SiteId)
    requires Enabled(s, Send(c, x)) && d in s.peers
    ensures d in Do(s, Send(c, x)).peers && TellsNothing(s.peers[d], Do(s, Send(c, x)).peers[d])
  {
  }

  lemma StepKeepsRights(s: Sys, step: Step)
    requires Enabled(s, step) && AllKnowRights(s)
    ensures AllKnowRights(Do(s, step))
  {
    var t := Do(s, step);
    forall c | c in t.peers
      ensures KnowsRights(t.peers[c])
    {
      if step.Deliver? {
        DeliverKeepsRights(s.peers[step.site]);
      } else if !step.Connect? {
        StepTellsNothing(s, step, c);
      }
    }
  }

  lemma {:induction false} RunKeepsRights(s: Sys, steps: seq<Step>)
    requires IsRun(s, steps) && AllKnowRights(s)
    ensures AllKnowRights(After(s, steps))
    decreases |steps|
  {
    if steps != [] {
      StepKeepsRights(s, steps[0]);
      RunKeepsRights(Do(s, steps[0]), steps[1..]);
    }
  }

  /** In every run, a browser whose inbox is empty acts under the rights of its connection. */
  lemma BrowsersKnowTheirRights(steps: seq<Step>, c: SiteId)
    requires IsRun(Start, steps)
    ensures var s := After(Start, steps);
            c in s.peers && s.peers[c].toClient == [] ==> s.peers[c].client.authenticated == s.peers[c].authenticated
  {
    RunKeepsRights(Start, steps);
  }
}
