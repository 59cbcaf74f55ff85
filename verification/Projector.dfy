/** The server's view of an entry: the live projection of its log, which refuses some
    deletes, and the restored one, which does not. */
module Projector {
  import opened Ids
  import opened RgaModel
  import opened TreeOrder
  import opened Buffering
  import opened Convergence
  import opened Snapshots
  import opened EventLog

  // ---------- Live projection ----------

  /** Absent nodes count as authenticated. */
  predicate IsNodeAuthenticated(ns: seq<Node>, id: NodeId)
  {
    var k := Find(ns, id);
    k < |ns| ==> ns[k].authenticated
  }

  /** An unauthenticated delete of an authenticated or absent node is refused. */
  predicate Refused(s: Rga, op: Operation)
  {
    op.opType.Delete? && !op.authenticated && IsNodeAuthenticated(s.nodes, op.nodeId)
  }

  /** No two nodes carry the same id, as in every list a replica reaches. */
  ghost predicate OneNodeEach(ns: seq<Node>)
  {
    forall i, j :: 0 <= i < j < |ns| ==> ns[i].id != ns[j].id
  }

  lemma OrderedHasOneNodeEach(ns: seq<Node>)
    requires Ordered(ns)
    ensures OneNodeEach(ns)
  {
    var pm :| Tree(ns, pm);
    forall i, j | 0 <= i < j < |ns|
      ensures ns[i].id != ns[j].id
    {
      FindAt(ns, pm, i);
      FindAt(ns, pm, j);
    }
  }

  /** Refused is exactly a delete without rights whose target is absent, or has an author with rights. */
  lemma RefusedExactly(s: Rga, op: Operation)
    requires OneNodeEach(s.nodes)
    ensures Refused(s, op) <==>
              && op.opType == Delete && op.authenticated == false
              && forall n :: n in s.nodes && n.id == op.nodeId ==> n.authenticated
  {
    var k := Find(s.nodes, op.nodeId);
    if k < |s.nodes| {
      assert s.nodes[k] in s.nodes;
    }
  }

  function LiveApply(s: Rga, op: Operation): Rga
  {
    if Refused(s, op) then s else Apply(s, op)
  }

  function Live(s: Rga, ops: seq<Operation>): Rga
    decreases |ops|
  {
    if ops == [] then s else Live(LiveApply(s, ops[0]), ops[1..])
  }

  /** What a run in which every delete has rights is projected to: all of it. */
  lemma {:induction false} NothingIsRefused(s: Rga, ops: seq<Operation>)
    requires forall o :: o in ops && o.opType == Delete ==> o.authenticated
    ensures Live(s, ops) == ApplyAll(s, ops)
    decreases |ops|
  {
    if ops != [] {
      assert ops[0] in ops && forall o :: o in ops[1..] ==> o in ops;
      NothingIsRefused(Apply(s, ops[0]), ops[1..]);
    }
  }

  /** A new delete of a present node, by a user with rights or of a node without, leaves that
      node a tombstone and all others as they were. */
  lemma AcceptedDeleteHides(s: Rga, op: Operation, k: nat)
    requires OneNodeEach(s.nodes) && op.opType == Delete && op.requestId !in s.seen
    requires k < |s.nodes| && s.nodes[k].id == op.nodeId && (op.authenticated || !s.nodes[k].authenticated)
    ensures var ns := LiveApply(s, op).nodes;
            |ns| == |s.nodes| && ns[k] == s.nodes[k].(deleted := true) && forall i :: 0 <= i < |ns| && i != k ==> ns[i] == s.nodes[i]
  {
    assert Find(s.nodes, op.nodeId) == k;
  }

  /** The operation, if the live projection accepts it. */
  ghost function Accepting(s: Rga, op: Operation): set<Operation>
  {
    if Refused(s, op) then {} else {op}
  }

  /** The operations of a run that the live projection accepts. */
  ghost function AcceptedOf(s: Rga, ops: seq<Operation>): set<Operation>
    decreases |ops|
  {
    if ops == [] then {} else Accepting(s, ops[0]) + AcceptedOf(LiveApply(s, ops[0]), ops[1..])
  }

  /** The operations of a run that the live projection refuses. */
  ghost function RefusedOf(s: Rga, ops: seq<Operation>): set<Operation>
    decreases |ops|
  {
    if ops == [] then {} else ({ops[0]} - Accepting(s, ops[0])) + RefusedOf(LiveApply(s, ops[0]), ops[1..])
  }

  lemma {:induction false} LiveSplitsLog(s: Rga, ops: seq<Operation>)
    ensures AcceptedOf(s, ops) + RefusedOf(s, ops) == Elements(ops)
    ensures forall r :: r in RefusedOf(s, ops) ==> r.opType.Delete?
    decreases |ops|
  {
    if ops != [] {
      LiveSplitsLog(LiveApply(s, ops[0]), ops[1..]);
      ElementsStep(ops);
    }
  }

  lemma LiveApplyKeeps(s: Rga, all: set<Operation>, op: Operation)
    requires Holds(s, all) && Coherent(all + {op})
    ensures Holds(LiveApply(s, op), all + Accepting(s, op))
  {
    if Refused(s, op) {
      assert all + {} == all;
    } else {
      ApplyKeeps(s, all, op);
    }
  }

  /** The live projection holds exactly the operations it accepted. */
  lemma {:induction false} LiveHolds(s: Rga, all: set<Operation>, ops: seq<Operation>)
    requires Holds(s, all) && Coherent(all + Elements(ops))
    ensures Holds(Live(s, ops), all + AcceptedOf(s, ops))
    decreases |ops|
  {
    if ops == [] {
      assert all + AcceptedOf(s, ops) == all;
    } else {
      var all' := all + Accepting(s, ops[0]);
      ElementsStep(ops);
      CoherentSubset(all + {ops[0]}, all + Elements(ops));
      LiveApplyKeeps(s, all, ops[0]);
      CoherentSubset(all' + Elements(ops[1..]), all + Elements(ops));
      LiveHolds(LiveApply(s, ops[0]), all', ops[1..]);
      assert all' + AcceptedOf(LiveApply(s, ops[0]), ops[1..]) == all + AcceptedOf(s, ops);
    }
  }

  // ---------- Restoring ----------

  /** Replaying the log over any state that holds only operations of the log gives what
      replaying it from nothing gives. */
  lemma ReplayOverState(s: Rga, held: set<Operation>, ops: seq<Operation>)
    requires Coherent(Elements(ops)) && held <= Elements(ops) && Holds(s, held)
    ensures var t, u := ApplyAll(s, ops), ApplyAll(Empty, ops);
            && Holds(t, Elements(ops)) && Holds(u, Elements(ops))
            && t.nodes == u.nodes && t.seen == u.seen && t.counter == u.counter
            && multiset(t.pending) == multiset(u.pending)
  {
    assert held + Elements(ops) == Elements(ops) && {} + Elements(ops) == Elements(ops);
    EmptyHolds();
    ApplyAllKeeps(s, held, ops);
    ApplyAllKeeps(Empty, {}, ops);
    HoldsIsUnique(ApplyAll(s, ops), ApplyAll(Empty, ops), Elements(ops));
  }

  /** Restore: importing a snapshot of a live projection and replaying the whole log gives the
      same nodes, request ids, clock and buffer as replaying the log from nothing.  The
      projection may have taken any part of the log, in any order. */
  lemma RestoreIsReplay(ops: seq<Operation>, order: seq<Operation>, snap: RgaSnapshot)
    requires Coherent(Elements(ops)) && Elements(order) <= Elements(ops)
    requires Represents(snap, Live(Empty, order))
    ensures var t, u := ApplyAll(Imported(snap), ops), ApplyAll(Empty, ops);
            && t.nodes == u.nodes && t.seen == u.seen && t.counter == u.counter
            && multiset(t.pending) == multiset(u.pending)
  {
    LiveSplitsLog(Empty, order);
    CoherentSubset(Elements(order), Elements(ops));
    LiveFromEmpty(order);
    RestoredReplicaBehavesAlike(snap, Live(Empty, order), ops);
    ReplayOverState(Live(Empty, order), AcceptedOf(Empty, order), ops);
  }

  lemma LiveFromEmpty(order: seq<Operation>)
    requires Coherent(Elements(order))
    ensures Holds(Live(Empty, order), AcceptedOf(Empty, order))
  {
    EmptyHolds();
    assert {} + Elements(order) == Elements(order);
    LiveHolds(Empty, {}, order);
    assert {} + AcceptedOf(Empty, order) == AcceptedOf(Empty, order);
  }

  /** How a replica that also received the deletes `refused` differs from one that did not. */
  ghost predicate DiffersByRefusals(live: Rga, restored: Rga, accepted: set<Operation>, refused: set<Operation>)
  {
    && |restored.nodes| == |live.nodes|
    && (forall i :: 0 <= i < |live.nodes| ==>
          restored.nodes[i] == live.nodes[i].(deleted := live.nodes[i].id in Deletes(accepted + refused)))
    && (forall i :: 0 <= i < |live.nodes| ==> (live.nodes[i].deleted <==> live.nodes[i].id in Deletes(accepted)))
    && restored.seen == live.seen + RequestIds(refused)
    && live.counter <= restored.counter && (forall r :: r in refused ==> r.nodeId.timestamp <= restored.counter)
    && (restored.counter == live.counter || exists r :: r in refused && r.nodeId.timestamp == restored.counter)
    && Elements(restored.pending) == Elements(live.pending) + (set r | r in refused && !Has(live.nodes, r.nodeId))
  }

  lemma RefusalsKeepInserts(accepted: set<Operation>, refused: set<Operation>)
    requires forall r :: r in refused ==> r.opType.Delete?
    ensures Inserts(accepted) == Inserts(accepted + refused)
  {
  }

  lemma RefusedNodes(live: Rga, restored: Rga, accepted: set<Operation>, all: set<Operation>, i: nat)
    requires Coherent(all) && accepted <= all && Inserts(accepted) == Inserts(all)
    requires Holds(live, accepted) && Holds(restored, all)
    ensures |restored.nodes| == |live.nodes|
    ensures i < |live.nodes| ==>
              && restored.nodes[i] == live.nodes[i].(deleted := live.nodes[i].id in Deletes(all))
              && (live.nodes[i].deleted <==> live.nodes[i].id in Deletes(accepted))
  {
    CoherentSubset(accepted, all);
    SameIdList(live.nodes, live.pending, accepted, restored.nodes, restored.pending, all);
    if i < |live.nodes| {
      SameNode(live.nodes, live.pending, accepted, i, restored.nodes, restored.pending, all, i);
      TombstoneIsExact(live.nodes, live.pending, accepted, i);
      TombstoneIsExact(restored.nodes, restored.pending, all, i);
    }
  }

  /** What is buffered: inserts without anchor and deletes without target. */
  lemma PendingIsBlocked(s: Rga, all: set<Operation>, o: Operation)
    requires Holds(s, all)
    ensures o in s.pending <==> o in all && !o.opType.Other? && !Has(s.nodes, o.nodeId)
  {
    HasIsMember(s.nodes, o.nodeId);
    assert o in s.pending <==> o in Elements(s.pending);
    if o in all {
      assert Accounted(s.nodes, Elements(s.pending), o);
      assert Tombstoned(s.nodes, o.nodeId) ==> o.nodeId in IdSet(s.nodes);
    }
  }

  lemma RefusedPending(live: Rga, restored: Rga, accepted: set<Operation>, refused: set<Operation>)
    requires Holds(live, accepted) && Holds(restored, accepted + refused)
    requires forall r :: r in refused ==> r.opType.Delete?
    requires IdSet(live.nodes) == IdSet(restored.nodes)
    ensures Elements(restored.pending) == Elements(live.pending) + (set r | r in refused && !Has(live.nodes, r.nodeId))
  {
    forall o: Operation
      ensures o in restored.pending <==> o in live.pending || (o in refused && !Has(live.nodes, o.nodeId))
    {
      PendingIsBlocked(live, accepted, o);
      PendingIsBlocked(restored, accepted + refused, o);
      HasIsMember(live.nodes, o.nodeId);
      HasIsMember(restored.nodes, o.nodeId);
    }
  }

  lemma RefusedClock(live: nat, restored: nat, accepted: set<Operation>, refused: set<Operation>)
    requires IsLatest(live, accepted) && IsLatest(restored, accepted + refused)
    ensures live <= restored
    ensures restored == live || exists r :: r in refused && r.nodeId.timestamp == restored
  {
    if live != 0 {
      var o :| o in accepted && o.nodeId.timestamp == live;
      assert o in accepted + refused;
    }
    if restored != 0 && restored != live {
      var r :| r in accepted + refused && r.nodeId.timestamp == restored;
    }
  }

  lemma RefusalsOnly(live: Rga, restored: Rga, accepted: set<Operation>, refused: set<Operation>)
    requires Coherent(accepted + refused)
    requires forall r :: r in refused ==> r.opType.Delete?
    requires Holds(live, accepted) && Holds(restored, accepted + refused)
    ensures DiffersByRefusals(live, restored, accepted, refused)
  {
    RefusalsKeepInserts(accepted, refused);
    CoherentSubset(accepted, accepted + refused);
    SameIdSets(live.nodes, live.pending, accepted, restored.nodes, restored.pending, accepted + refused);
    RefusedPending(live, restored, accepted, refused);
    RefusedClock(live.counter, restored.counter, accepted, refused);
    assert RequestIds(accepted + refused) == RequestIds(accepted) + RequestIds(refused);
    RefusedNodes(live, restored, accepted, accepted + refused, 0);
    forall i | 0 <= i < |live.nodes|
      ensures restored.nodes[i] == live.nodes[i].(deleted := live.nodes[i].id in Deletes(accepted + refused))
      ensures live.nodes[i].deleted <==> live.nodes[i].id in Deletes(accepted)
    {
      RefusedNodes(live, restored, accepted, accepted + refused, i);
    }
  }

  /** Against the live projection, the restored one differs only in the tombstones of nodes
      whose every delete was refused, and in the request ids, timestamps and still blocked
      deletes among the refused operations.  The live projection took the log in any order. */
  lemma RestoredAgainstLive(ops: seq<Operation>, order: seq<Operation>)
    requires Coherent(Elements(ops)) && Elements(order) == Elements(ops)
    ensures DiffersByRefusals(Live(Empty, order), ApplyAll(Empty, ops), AcceptedOf(Empty, order), RefusedOf(Empty, order))
  {
    LiveSplitsLog(Empty, order);
    LiveFromEmpty(order);
    ReplayFromEmpty(ops);
    RefusalsOnly(Live(Empty, order), ApplyAll(Empty, ops), AcceptedOf(Empty, order), RefusedOf(Empty, order));
  }

  lemma ReplayFromEmpty(ops: seq<Operation>)
    requires Coherent(Elements(ops))
    ensures Holds(ApplyAll(Empty, ops), Elements(ops))
  {
    EmptyHolds();
    assert {} + Elements(ops) == Elements(ops);
    ApplyAllKeeps(Empty, {}, ops);
  }

  /** The two lists differ at a node if and only if it was deleted, but every delete of it
      was refused. */
  lemma DiffersWhereAllRefused(live: Rga, restored: Rga, accepted: set<Operation>, refused: set<Operation>, i: nat)
    requires DiffersByRefusals(live, restored, accepted, refused) && i < |live.nodes|
    ensures live.nodes[i] != restored.nodes[i] <==>
              (live.nodes[i].id in Deletes(refused) && live.nodes[i].id !in Deletes(accepted))
  {
    assert Deletes(accepted + refused) == Deletes(accepted) + Deletes(refused);
  }

  /** A restart keeps the text if and only if no refused delete targets a character that the
      live projection shows. */
  lemma RestartKeepsText(ops: seq<Operation>, order: seq<Operation>)
    requires Coherent(Elements(ops)) && Elements(order) == Elements(ops)
    ensures Text(ApplyAll(Empty, ops).nodes) == Text(Live(Empty, order).nodes) <==>
              forall n :: n in Live(Empty, order).nodes && !n.deleted ==> n.id !in Deletes(RefusedOf(Empty, order))
  {
    var accepted, refused := AcceptedOf(Empty, order), RefusedOf(Empty, order);
    LiveSplitsLog(Empty, order);
    LiveFromEmpty(order);
    ReplayFromEmpty(ops);
    RefusalsKeepInserts(accepted, refused);
    CoherentSubset(accepted, Elements(ops));
    assert Deletes(accepted + refused) == Deletes(accepted) + Deletes(refused);
    MoreDeletesHideMore(ApplyAll(Empty, ops), accepted + refused, Live(Empty, order), accepted);
    forall n | n in Live(Empty, order).nodes && !n.deleted
      ensures n.id !in Deletes(accepted)
    {
      VisibleIsKept(Live(Empty, order), accepted, n);
    }
  }

  lemma VisibleIsKept(s: Rga, all: set<Operation>, n: Node)
    requires Coherent(all) && Holds(s, all) && n in s.nodes && !n.deleted
    ensures n.id !in Deletes(all)
  {
    var i :| 0 <= i < |s.nodes| && s.nodes[i] == n;
    TombstoneIsExact(s.nodes, s.pending, all, i);
  }

  // ---------- A log on which the two differ ----------

  lemma FirstInsert(op: Operation)
    requires op.opType.Insert? && op.after.None?
    ensures Apply(Empty, op) == Rga(op.nodeId.timestamp, [NewNode(op)], {op.requestId}, [])
  {
    assert ApplyInsert([], op) == [NewNode(op)];
    assert FlushPass([NewNode(op)], []) == Pass([NewNode(op)], [], false);
  }

  lemma DeleteOnly(s: Rga, n: Node, op: Operation)
    requires s.nodes == [n] && op.opType.Delete? && op.nodeId == n.id && op.requestId !in s.seen
    ensures Apply(s, op) == s.(nodes := [n.(deleted := true)], seen := s.seen + {op.requestId}, counter := Max(s.counter, op.nodeId.timestamp))
  {
    assert Find(s.nodes, n.id) == 0;
    assert ApplyDelete(s.nodes, n.id) == [n.(deleted := true)];
  }

  lemma TextOfOne(n: Node)
    ensures Text([n]) == if n.deleted then "" else [n.value]
  {
    assert [n][1..] == [] && Visible([]) == [];
  }

  /** An authenticated character that an unauthenticated user deletes: the live projection
      refuses the delete and shows the character, a restart loses it. */
  lemma RestartLosesCharacter(x: NodeId, v: char)
    ensures var ops := [Operation("i", Insert, x, None, v, true), Operation("d", Delete, x, None, '\0', false)];
            Text(Live(Empty, ops).nodes) == [v] && Text(ApplyAll(Empty, ops).nodes) == ""
  {
    var i, d := Operation("i", Insert, x, None, v, true), Operation("d", Delete, x, None, '\0', false);
    var n := NewNode(i);
    FirstInsert(i);
    var s := Apply(Empty, i);
    assert Find([n], x) == 0;
    assert Refused(s, d);
    assert [i, d][1..] == [d] && [d][1..] == [];
    assert Live(Empty, [i, d]) == Live(s, [d]) == Live(LiveApply(s, d), []) == s;
    DeleteOnly(s, n, d);
    assert ApplyAll(Empty, [i, d]) == ApplyAll(s, [d]) == ApplyAll(Apply(s, d), []) == Apply(s, d);
    TextOfOne(n);
    TextOfOne(n.(deleted := true));
  }
}
