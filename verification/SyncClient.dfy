/** The browser's side of the protocol as a value: local edits, acknowledgements, and
    operations received from the server. */
module SyncClient {
  import opened Ids
  import opened NodeKeys
  import opened RgaModel
  import opened Buffering
  import opened LocalIntent
  import opened Folding

  /** What a user does to the document. */
  datatype Edit = InsertAfter(after: Option<NodeId>, value: char) | DeleteNode(id: NodeId)

  datatype ClientMsg = OpMsg(requestId: string, op: Operation) | SyncRequest(last: int)

  /** The request id the replica gives its own operations.  It never leaves the browser and
      is no UUID; the operation travels under another id. */
  function LocalId(n: nat): string
  {
    "req-" + Decimal(n)
  }

  /** Local request ids start with `req-`; UUIDs do not. */
  predicate IsLocal(id: string)
  {
    "req-" <= id
  }

  /** Local edits are recognised by the echo of their wire id: `pendingAcks` holds the ids
      sent and not yet acknowledged, `confirmed` those acknowledged and not yet echoed. */
  datatype Client = Client(
    site: SiteId, rga: Rga, nextLocal: nat,
    pendingAcks: map<string, Operation>, confirmed: set<string>, lastServerSeq: int, authenticated: bool)

  function NewClient(site: SiteId): Client
  {
    Client(site, Empty, 0, map[], {}, 0, false)
  }

  /** The operation an edit makes on the local replica. */
  function LocalOp(c: Client, e: Edit): Operation
  {
    match e
    case InsertAfter(after, value) =>
      Operation(LocalId(c.nextLocal), Insert, NodeId(c.site, c.rga.counter + 1), after, value, c.authenticated)
    case DeleteNode(id) =>
      Operation(LocalId(c.nextLocal), Delete, id, None, '\0', true)
  }

  function Edited(c: Client, e: Edit, wireId: string): Client
  {
    var op := LocalOp(c, e);
    c.(rga := Apply(c.rga, op), nextLocal := c.nextLocal + 1, pendingAcks := c.pendingAcks[wireId := op])
  }

  function Acked(c: Client, wireId: string, serverSeq: int): Client
  {
    c.(confirmed := c.confirmed + {wireId}, pendingAcks := c.pendingAcks - {wireId},
       lastServerSeq := if serverSeq > c.lastServerSeq then serverSeq else c.lastServerSeq)
  }

  /** One operation of a sync message: the echo of an own operation is skipped. */
  function SyncedOp(c: Client, op: Operation): Client
  {
    if op.requestId in c.pendingAcks then c
    else if op.requestId in c.confirmed then c.(confirmed := c.confirmed - {op.requestId})
    else c.(rga := Apply(c.rga, op))
  }

  function SyncedOps(c: Client, ops: seq<Operation>): Client
    decreases |ops|
  {
    if ops == [] then c else SyncedOps(SyncedOp(c, ops[0]), ops[1..])
  }

  function Synced(c: Client, ops: seq<Operation>, latest: int): Client
  {
    SyncedOps(c.(lastServerSeq := if latest > c.lastServerSeq then latest else c.lastServerSeq), ops)
  }

  /** Applying what the server sends changes the replica and the ids still to be echoed only. */
  lemma {:induction false} SyncLeaves(c: Client, ops: seq<Operation>)
    ensures var d := SyncedOps(c, ops); d == c.(rga := d.rga, confirmed := d.confirmed) && d.confirmed <= c.confirmed
    decreases |ops|
  {
    if ops != [] {
      SyncLeaves(SyncedOp(c, ops[0]), ops[1..]);
    }
  }

  /** One message, one operation: an own one still to be acknowledged changes nothing; an
      acknowledged one is forgotten; any other is applied. */
  lemma OneSynced(c: Client, op: Operation, latest: int)
    ensures var d := Synced(c, [op], latest);
            && (op.requestId in c.pendingAcks ==> d.rga == c.rga && d.confirmed == c.confirmed)
            && (op.requestId !in c.pendingAcks && op.requestId in c.confirmed ==> d.rga == c.rga && d.confirmed == c.confirmed - {op.requestId})
            && (op.requestId !in c.pendingAcks && op.requestId !in c.confirmed ==> d.rga == Apply(c.rga, op) && d.confirmed == c.confirmed)
  {
    var c0 := c.(lastServerSeq := if latest > c.lastServerSeq then latest else c.lastServerSeq);
    assert [op][1..] == [];
    assert SyncedOps(c0, [op]) == SyncedOps(SyncedOp(c0, op), []);
  }

  /** The operations of a list that are applied, echoes left out. */
  ghost function AppliedOf(c: Client, ops: seq<Operation>): set<Operation>
    decreases |ops|
  {
    if ops == [] then {}
    else
      (if ops[0].requestId in c.pendingAcks || ops[0].requestId in c.confirmed then {} else {ops[0]})
      + AppliedOf(SyncedOp(c, ops[0]), ops[1..])
  }

  /** What a sync message adds to the received operations. */
  ghost function Arrived(c: Client, ops: seq<Operation>, latest: int): set<Operation>
  {
    AppliedOf(c.(lastServerSeq := if latest > c.lastServerSeq then latest else c.lastServerSeq), ops)
  }

  lemma LocalIdInjective(m: nat, n: nat)
    requires LocalId(m) == LocalId(n)
    ensures m == n
  {
    assert LocalId(m)[4..] == Decimal(m) && LocalId(n)[4..] == Decimal(n);
    DecimalInjective(m, n);
  }

  /** No operation made so far carries a local id that is still to come. */
  ghost predicate LocalIdsAhead(seen: set<string>, next: nat)
  {
    forall k :: k >= next ==> LocalId(k) !in seen
  }

  /** A replica on which a user edits. */
  ghost predicate Editable(rga: Rga, nextLocal: nat, all: set<Operation>)
  {
    && Coherent(all) && Holds(rga, all)
    && LocalIdsAhead(rga.seen, nextLocal)
  }

  /** `Editable`, folded up. */
  ghost predicate CanEdit(rga: Rga, nextLocal: nat, all: set<Operation>)
  {
    forall key :: Unfold(key) && key == REPLICA ==> Editable(rga, nextLocal, all)
  }

  /** `Editable` with older anchors, folded up: the verifier looks inside only where a term
      `Unfold` is mentioned. */
  ghost predicate Sound(c: Client, all: set<Operation>)
  {
    forall key :: Unfold(key) && key == REPLICA ==> Editable(c.rga, c.nextLocal, all) && AnchorsOlder(all)
  }

  /** Making a local operation keeps the replica editable. */
  lemma EditKeeps(c: Client, all: set<Operation>, e: Edit, wireId: string)
    requires Editable(c.rga, c.nextLocal, all)
    ensures Editable(Edited(c, e, wireId).rga, c.nextLocal + 1, all + {LocalOp(c, e)})
    ensures LocalOp(c, e) !in all
  {
    var op := LocalOp(c, e);
    assert LocalId(c.nextLocal) !in c.rga.seen;
    forall o | o in all
      ensures o.requestId != op.requestId && (op.opType.Insert? ==> o.nodeId != op.nodeId)
    {
      assert o.requestId in RequestIds(all);
    }
    assert Coherent(all + {op});
    ApplyKeeps(c.rga, all, op);
    ApplyBookkeeping(c.rga, op);
    forall k | k >= c.nextLocal + 1
      ensures LocalId(k) !in c.rga.seen + {op.requestId}
    {
      if LocalId(k) == op.requestId {
        LocalIdInjective(k, c.nextLocal);
      }
    }
  }

  // ---------- Messages of the server ----------

  /** The assumptions on what the server sends: it is coherent with what was received, and its
      request ids are UUIDs. */
  ghost predicate Arrives(all: set<Operation>, more: set<Operation>)
  {
    Coherent(all + more) && forall o :: o in more ==> !IsLocal(o.requestId)
  }

  lemma AppliedKeeps(c: Client, all: set<Operation>, op: Operation)
    requires Editable(c.rga, c.nextLocal, all) && Coherent(all + {op}) && !IsLocal(op.requestId)
    ensures Editable(Apply(c.rga, op), c.nextLocal, all + {op})
  {
    ApplyKeeps(c.rga, all, op);
    if op.requestId !in c.rga.seen {
      ApplyBookkeeping(c.rga, op);
    }
    forall k | k >= c.nextLocal
      ensures LocalId(k) !in c.rga.seen + {op.requestId}
    {
      assert IsLocal(LocalId(k));
    }
  }

  lemma {:induction false} SyncedOpsKeep(c: Client, all: set<Operation>, ops: seq<Operation>)
    requires Editable(c.rga, c.nextLocal, all) && Arrives(all, AppliedOf(c, ops))
    ensures Editable(SyncedOps(c, ops).rga, SyncedOps(c, ops).nextLocal, all + AppliedOf(c, ops))
    decreases |ops|
  {
    if ops == [] {
      assert all + AppliedOf(c, ops) == all;
    } else {
      var d := SyncedOp(c, ops[0]);
      var rest := AppliedOf(d, ops[1..]);
      if ops[0].requestId in c.pendingAcks || ops[0].requestId in c.confirmed {
        assert AppliedOf(c, ops) == rest;
        SyncedOpsKeep(d, all, ops[1..]);
      } else {
        assert AppliedOf(c, ops) == {ops[0]} + rest;
        assert all + AppliedOf(c, ops) == all + {ops[0]} + rest;
        CoherentSubset(all + {ops[0]}, all + AppliedOf(c, ops));
        AppliedKeeps(c, all, ops[0]);
        SyncedOpsKeep(d, all + {ops[0]}, ops[1..]);
      }
    }
  }

  /** A sync message leaves the replica editable. */
  lemma SyncKeeps(c: Client, all: set<Operation>, ops: seq<Operation>, latest: int)
    requires CanEdit(c.rga, c.nextLocal, all) && Arrives(all, Arrived(c, ops, latest))
    ensures CanEdit(Synced(c, ops, latest).rga, Synced(c, ops, latest).nextLocal, all + Arrived(c, ops, latest))
  {
    assert Unfold(REPLICA);
    SyncedOpsKeep(c.(lastServerSeq := if latest > c.lastServerSeq then latest else c.lastServerSeq), all, ops);
  }

  /** With older anchors in the message, also sound. */
  lemma SyncKeepsSound(c: Client, all: set<Operation>, ops: seq<Operation>, latest: int)
    requires Sound(c, all) && Arrives(all, Arrived(c, ops, latest)) && AnchorsOlder(Arrived(c, ops, latest))
    ensures Sound(Synced(c, ops, latest), all + Arrived(c, ops, latest))
  {
    assert Unfold(REPLICA);
    SyncedOpsKeep(c.(lastServerSeq := if latest > c.lastServerSeq then latest else c.lastServerSeq), all, ops);
  }
}
