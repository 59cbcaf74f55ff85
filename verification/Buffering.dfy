/** What every replica keeps: the operations it received split exactly into those in the
    list and those in the buffer, whatever the order of arrival. */
module Buffering {
  import opened Ids
  import opened RgaModel
  import opened TreeOrder

  ghost function Elements<T>(q: seq<T>): set<T>
  {
    set x | x in q
  }

  lemma ElementsConcat<T>(a: seq<T>, b: seq<T>)
    ensures Elements(a + b) == Elements(a) + Elements(b)
  {
  }

  lemma ElementsStep<T>(q: seq<T>)
    requires q != []
    ensures Elements(q) == {q[0]} + Elements(q[1..])
  {
    assert q == [q[0]] + q[1..];
  }

  ghost predicate Distinct<T>(q: seq<T>)
  {
    forall i, j :: 0 <= i < j < |q| ==> q[i] != q[j]
  }

  /** One request id names one operation, and distinct inserts carry distinct node ids. */
  ghost predicate Coherent(all: set<Operation>)
  {
    && (forall o, p :: o in all && p in all && o.requestId == p.requestId ==> o == p)
    && (forall o, p :: o in all && p in all && o.opType.Insert? && p.opType.Insert? && o.nodeId == p.nodeId ==> o == p)
  }

  /** A node carries what some received insert said. */
  ghost predicate Sourced(n: Node, all: set<Operation>)
  {
    exists o :: o in all && o.opType.Insert? && NewNode(o) == n.(deleted := false)
  }

  /** Some received delete targets the id. */
  ghost predicate Condemned(id: NodeId, all: set<Operation>)
  {
    exists d :: d in all && d.opType.Delete? && d.nodeId == id
  }

  ghost predicate Tombstoned(ns: seq<Node>, id: NodeId)
  {
    exists n :: n in ns && n.id == id && n.deleted
  }

  /** Every node and every tombstone stems from a received operation. */
  ghost predicate Stems(ns: seq<Node>, all: set<Operation>)
  {
    && (forall n :: n in ns ==> Sourced(n, all))
    && (forall n :: n in ns && n.deleted ==> Condemned(n.id, all))
  }

  /** An insert is in the list exactly when it is not held back; a delete that is not held
      back has left its tombstone. */
  ghost predicate Accounted(ns: seq<Node>, held: set<Operation>, o: Operation)
  {
    && (o.opType.Insert? ==> (o.nodeId in IdSet(ns) <==> o !in held))
    && (o.opType.Delete? && o !in held ==> Tombstoned(ns, o.nodeId))
  }

  ghost predicate Covers(ns: seq<Node>, held: set<Operation>, all: set<Operation>)
  {
    && (forall o :: o in held ==> o in all && !o.opType.Other?)
    && (forall o :: o in all ==> Accounted(ns, held, o))
  }

  /** `ns` holds exactly the effects of the operations of `all` that are not in `held`. */
  ghost predicate Split(ns: seq<Node>, held: set<Operation>, all: set<Operation>)
  {
    Ordered(ns) && Stems(ns, all) && Covers(ns, held, all)
  }

  /** Every buffered operation is blocked: its anchor or target is not in the list. */
  ghost predicate Settled(ns: seq<Node>, held: seq<Operation>)
  {
    forall o :: o in held ==> !Ready(ns, o)
  }

  ghost predicate IsLatest(counter: nat, all: set<Operation>)
  {
    && (forall o :: o in all ==> o.nodeId.timestamp <= counter)
    && (counter == 0 || exists o :: o in all && o.nodeId.timestamp == counter)
  }

  ghost function RequestIds(all: set<Operation>): set<string>
  {
    set o | o in all :: o.requestId
  }

  /** The state of a replica that has received exactly the operations `all`. */
  ghost predicate Holds(s: Rga, all: set<Operation>)
  {
    && s.seen == RequestIds(all)
    && IsLatest(s.counter, all)
    && Distinct(s.pending)
    && Split(s.nodes, Elements(s.pending), all)
    && Settled(s.nodes, s.pending)
  }

  // ---------- Members of edited lists ----------

  lemma InsertAtMembers(ns: seq<Node>, k: nat, x: Node, n: Node)
    requires k <= |ns|
    ensures n in InsertAt(ns, k, x) <==> n in ns || n == x
  {
    assert ns == ns[..k] + ns[k..];
  }

  /** A delete changes the one node it targets. */
  lemma ApplyDeleteMembers(ns: seq<Node>, pm: Paths, id: NodeId) returns (k: nat)
    requires Tree(ns, pm) && id in pm
    ensures k < |ns| && ns[k].id == id && ns[k].(deleted := true) in ApplyDelete(ns, id)
    ensures forall n :: n in ApplyDelete(ns, id) ==> n in ns || n == ns[k].(deleted := true)
    ensures forall n :: n in ns && n.id != id ==> n in ApplyDelete(ns, id)
  {
    k := NodeAt(ns, pm, id);
    var ms := ApplyDelete(ns, id);
    assert ms[k] == ns[k].(deleted := true);
    forall n | n in ns && n.id != id
      ensures n in ms
    {
      var i :| 0 <= i < |ns| && ns[i] == n;
      assert ms[i] == n;
    }
  }

  // ---------- One operation leaves the buffer ----------

  lemma ReadyInsertAnchored(ns: seq<Node>, pm: Paths, op: Operation)
    requires Tree(ns, pm) && op.opType.Insert?
    ensures Ready(ns, op) <==> Anchored(pm, op.after)
  {
    if op.after.Some? {
      HasIsMember(ns, op.after.value);
    }
  }

  /** The list an insert leaves: still a walk, with one more id and one more node. */
  lemma PerformInsertList(ns: seq<Node>, op: Operation)
    requires Ordered(ns) && op.opType.Insert? && op.nodeId !in IdSet(ns) && Ready(ns, op)
    ensures Ordered(Perform(ns, op)) && IdSet(Perform(ns, op)) == IdSet(ns) + {op.nodeId}
    ensures forall n :: n in Perform(ns, op) <==> n in ns || n == NewNode(op)
  {
    var pm :| Tree(ns, pm);
    ReadyInsertAnchored(ns, pm, op);
    ApplyInsertKeepsTree(ns, pm, op);
    var k := Scan(ns, ScanStart(ns, op.after), op.after, op.nodeId);
    InsertAtIds(ns, k, NewNode(op));
    forall n
      ensures n in Perform(ns, op) <==> n in ns || n == NewNode(op)
    {
      InsertAtMembers(ns, k, NewNode(op), n);
    }
  }

  lemma PerformInsertKeeps(ns: seq<Node>, held: set<Operation>, all: set<Operation>, op: Operation)
    requires Coherent(all) && Split(ns, held, all)
    requires op in held && op.opType.Insert? && Ready(ns, op)
    ensures Split(Perform(ns, op), held - {op}, all)
    ensures IdSet(Perform(ns, op)) == IdSet(ns) + {op.nodeId}
  {
    assert Accounted(ns, held, op);
    PerformInsertList(ns, op);
    assert Stems(Perform(ns, op), all) by {
      assert Sourced(NewNode(op), all);
    }
    InsertCovers(ns, Perform(ns, op), held, all, op);
  }

  lemma InsertCovers(ns: seq<Node>, ms: seq<Node>, held: set<Operation>, all: set<Operation>, op: Operation)
    requires Coherent(all) && Covers(ns, held, all) && op in held && op.opType.Insert?
    requires IdSet(ms) == IdSet(ns) + {op.nodeId}
    requires forall n :: n in ns ==> n in ms
    ensures Covers(ms, held - {op}, all)
  {
    forall o | o in all
      ensures Accounted(ms, held - {op}, o)
    {
      assert Accounted(ns, held, o);
      if o.opType.Delete? && o !in held {
        var n :| n in ns && n.id == o.nodeId && n.deleted;
        assert n in ms;
      }
    }
  }

  lemma PerformDeleteKeeps(ns: seq<Node>, held: set<Operation>, all: set<Operation>, op: Operation)
    requires Split(ns, held, all)
    requires op in held && op.opType.Delete? && Ready(ns, op)
    ensures Split(Perform(ns, op), held - {op}, all)
    ensures IdSet(Perform(ns, op)) == IdSet(ns)
  {
    var pm :| Tree(ns, pm);
    HasIsMember(ns, op.nodeId);
    ApplyDeleteKeepsTree(ns, pm, op.nodeId);
    var k := ApplyDeleteMembers(ns, pm, op.nodeId);
    var dead := ns[k].(deleted := true);
    assert Stems(Perform(ns, op), all) by {
      assert ns[k] in ns && Sourced(ns[k], all);
      var o :| o in all && o.opType.Insert? && NewNode(o) == ns[k].(deleted := false);
      assert NewNode(o) == dead.(deleted := false);
      assert Condemned(dead.id, all);
    }
    DeleteCovers(ns, Perform(ns, op), held, all, op, dead);
  }

  lemma DeleteCovers(ns: seq<Node>, ms: seq<Node>, held: set<Operation>, all: set<Operation>, op: Operation, dead: Node)
    requires Covers(ns, held, all) && op in held && op.opType.Delete? && IdSet(ms) == IdSet(ns)
    requires dead in ms && dead.deleted && dead.id == op.nodeId
    requires forall n :: n in ns && n.id != dead.id ==> n in ms
    ensures Covers(ms, held - {op}, all)
  {
    forall o | o in all
      ensures Accounted(ms, held - {op}, o)
    {
      assert Accounted(ns, held, o);
      if o.opType.Delete? && o !in held && o.nodeId != dead.id {
        var n :| n in ns && n.id == o.nodeId && n.deleted;
        assert n in ms;
      }
    }
  }

  lemma PerformKeeps(ns: seq<Node>, held: set<Operation>, all: set<Operation>, op: Operation)
    requires Coherent(all) && Split(ns, held, all) && op in held && Ready(ns, op)
    ensures Split(Perform(ns, op), held - {op}, all)
    ensures IdSet(ns) <= IdSet(Perform(ns, op))
  {
    if op.opType.Insert? {
      PerformInsertKeeps(ns, held, all, op);
    } else {
      PerformDeleteKeeps(ns, held, all, op);
    }
  }

  // ---------- Sweeping the buffer ----------

  lemma DropFirst<T>(kept: seq<T>, ops: seq<T>)
    requires ops != [] && Distinct(kept + ops)
    ensures Distinct(kept + ops[1..])
    ensures Elements(kept + ops[1..]) == Elements(kept + ops) - {ops[0]}
  {
    var q := kept + ops;
    var r := kept + ops[1..];
    assert forall i :: 0 <= i < |r| ==> r[i] == q[if i < |kept| then i else i + 1];
    assert forall i :: 0 <= i < |q| && i != |kept| ==> q[i] == r[if i < |kept| then i else i - 1];
    assert q[|kept|] == ops[0];
  }

  /** Between sweeps: the list holds what is not in the buffer, ready or not. */
  ghost predicate Pausing(ns: seq<Node>, ops: seq<Operation>, all: set<Operation>)
  {
    Coherent(all) && Distinct(ops) && Split(ns, Elements(ops), all)
  }

  lemma PauseKeeps(ns: seq<Node>, kept: seq<Operation>, ops: seq<Operation>, all: set<Operation>)
    requires ops != [] && Pausing(ns, kept + ops, all)
    ensures !Ready(ns, ops[0]) ==> Pausing(ns, kept + [ops[0]] + ops[1..], all)
    ensures Ready(ns, ops[0]) ==> Pausing(Perform(ns, ops[0]), kept + ops[1..], all)
    ensures ops[0].opType.Insert? ==> ops[0].nodeId !in IdSet(ns)
  {
    var q := kept + ops;
    assert q[|kept|] == ops[0];
    assert ops[0] in Elements(q) && Accounted(ns, Elements(q), ops[0]);
    assert q == kept + [ops[0]] + ops[1..];
    if Ready(ns, ops[0]) {
      DropFirst(kept, ops);
      PerformKeeps(ns, Elements(q), all, ops[0]);
    }
  }

  lemma {:induction false} FlushPassKeeps(ns: seq<Node>, kept: seq<Operation>, ops: seq<Operation>, all: set<Operation>)
    requires Pausing(ns, kept + ops, all)
    ensures Pausing(FlushPass(ns, ops).nodes, kept + FlushPass(ns, ops).remaining, all)
    decreases |ops|
  {
    if ops != [] {
      PauseKeeps(ns, kept, ops, all);
      if Ready(ns, ops[0]) {
        FlushPassKeeps(Perform(ns, ops[0]), kept, ops[1..], all);
      } else {
        FlushPassKeeps(ns, kept + [ops[0]], ops[1..], all);
        var r := FlushPass(ns, ops[1..]).remaining;
        assert kept + [ops[0]] + r == kept + ([ops[0]] + r);
      }
    }
  }

  /** A sweep that applies nothing changes nothing, and finds every operation blocked. */
  lemma {:induction false} IdlePass(ns: seq<Node>, ops: seq<Operation>)
    requires forall o :: o in ops ==> !o.opType.Other?
    ensures FlushPass(ns, ops).applied || Settled(ns, ops)
    ensures Settled(ns, ops) ==> FlushPass(ns, ops) == Pass(ns, ops, false)
    decreases |ops|
  {
    if ops != [] {
      assert ops == [ops[0]] + ops[1..];
      if !Ready(ns, ops[0]) {
        IdlePass(ns, ops[1..]);
      } else {
        assert ops[0] in ops;
      }
    }
  }

  lemma {:induction false} FlushKeeps(ns: seq<Node>, ops: seq<Operation>, all: set<Operation>)
    requires Pausing(ns, ops, all)
    ensures Pausing(Flush(ns, ops).nodes, Flush(ns, ops).remaining, all)
    ensures Settled(Flush(ns, ops).nodes, Flush(ns, ops).remaining)
    decreases |ops|
  {
    assert [] + ops == ops;
    FlushPassKeeps(ns, [], ops, all);
    var p := FlushPass(ns, ops);
    assert [] + p.remaining == p.remaining;
    if p.applied {
      FlushKeeps(p.nodes, p.remaining, all);
    } else {
      assert forall o :: o in ops ==> o in Elements(ops);
      IdlePass(ns, ops);
    }
  }

  /** A sweep only ever inserts fresh nodes into a well-ordered list. */
  ghost predicate PassSound(ns: seq<Node>, ops: seq<Operation>)
    decreases |ops|
  {
    && Ordered(ns)
    && (ops != [] ==>
          if Ready(ns, ops[0]) then
            (ops[0].opType.Insert? ==> ops[0].nodeId !in IdSet(ns)) && PassSound(Perform(ns, ops[0]), ops[1..])
          else PassSound(ns, ops[1..]))
  }

  ghost predicate FlushSound(ns: seq<Node>, ops: seq<Operation>)
    decreases |ops|
  {
    PassSound(ns, ops) && (var p := FlushPass(ns, ops); p.applied ==> FlushSound(p.nodes, p.remaining))
  }

  lemma {:induction false} PassIsSound(ns: seq<Node>, kept: seq<Operation>, ops: seq<Operation>, all: set<Operation>)
    requires Pausing(ns, kept + ops, all)
    ensures PassSound(ns, ops)
    decreases |ops|
  {
    if ops != [] {
      PauseKeeps(ns, kept, ops, all);
      if Ready(ns, ops[0]) {
        PassIsSound(Perform(ns, ops[0]), kept, ops[1..], all);
      } else {
        PassIsSound(ns, kept + [ops[0]], ops[1..], all);
      }
    }
  }

  lemma {:induction false} FlushIsSound(ns: seq<Node>, ops: seq<Operation>, all: set<Operation>)
    requires Pausing(ns, ops, all)
    ensures FlushSound(ns, ops)
    decreases |ops|
  {
    assert [] + ops == ops;
    PassIsSound(ns, [], ops, all);
    FlushPassKeeps(ns, [], ops, all);
    var p := FlushPass(ns, ops);
    assert [] + p.remaining == p.remaining;
    if p.applied {
      FlushIsSound(p.nodes, p.remaining, all);
    }
  }

  // ---------- Receiving an operation ----------

  lemma StemsGrows(ns: seq<Node>, all: set<Operation>, more: set<Operation>)
    requires Stems(ns, all) && all <= more
    ensures Stems(ns, more)
  {
    forall n | n in ns
      ensures Sourced(n, more) && (n.deleted ==> Condemned(n.id, more))
    {
      assert Sourced(n, all);
      assert n.deleted ==> Condemned(n.id, all);
    }
  }

  lemma FreshInsert(ns: seq<Node>, all: set<Operation>, op: Operation)
    requires Stems(ns, all) && Coherent(all + {op}) && op !in all && op.opType.Insert?
    ensures op.nodeId !in IdSet(ns)
  {
    forall i | 0 <= i < |ns|
      ensures ns[i].id != op.nodeId
    {
      assert ns[i] in ns && Sourced(ns[i], all);
    }
  }

  /** A new operation is first held, then performed if it can be. */
  lemma ReceiveKeeps(ns: seq<Node>, held: set<Operation>, all: set<Operation>, op: Operation)
    requires Coherent(all + {op}) && op !in all && !op.opType.Other?
    requires Split(ns, held, all)
    ensures Split(ns, held + {op}, all + {op})
  {
    StemsGrows(ns, all, all + {op});
    if op.opType.Insert? {
      FreshInsert(ns, all, op);
    }
    forall o | o in all + {op}
      ensures Accounted(ns, held + {op}, o)
    {
      assert o in all ==> Accounted(ns, held, o);
    }
  }

  lemma ReceiveOtherKeeps(ns: seq<Node>, held: set<Operation>, all: set<Operation>, op: Operation)
    requires op.opType.Other? && Split(ns, held, all)
    ensures Split(ns, held, all + {op})
  {
    StemsGrows(ns, all, all + {op});
  }

  lemma AppendHeld(pending: seq<Operation>, op: Operation)
    requires Distinct(pending) && op !in pending
    ensures Distinct(pending + [op]) && Elements(pending + [op]) == Elements(pending) + {op}
  {
    assert Elements(pending + [op]) == Elements(pending) + {op};
  }

  lemma SettledDependsOnIds(ns: seq<Node>, ms: seq<Node>, ops: seq<Operation>)
    requires IdSet(ns) == IdSet(ms) && Settled(ns, ops)
    ensures Settled(ms, ops)
  {
    forall o | o in ops
      ensures !Ready(ms, o)
    {
      assert !Ready(ns, o);
      if o.after.Some? {
        HasIsMember(ns, o.after.value);
        HasIsMember(ms, o.after.value);
      }
      HasIsMember(ns, o.nodeId);
      HasIsMember(ms, o.nodeId);
    }
  }

  /** Performing a newly received insert leaves a list and buffer ready to flush. */
  lemma ReadyToFlush(ns: seq<Node>, ops: seq<Operation>, all: set<Operation>, op: Operation)
    requires Coherent(all + {op}) && op !in all && op.opType.Insert? && Ready(ns, op)
    requires Distinct(ops) && Split(ns, Elements(ops), all)
    ensures FlushSound(Perform(ns, op), ops)
  {
    ReceiveKeeps(ns, Elements(ops), all, op);
    PerformKeeps(ns, Elements(ops) + {op}, all + {op}, op);
    assert op !in Elements(ops);
    assert Elements(ops) + {op} - {op} == Elements(ops);
    FlushIsSound(Perform(ns, op), ops, all + {op});
  }

  lemma CounterKeeps(counter: nat, all: set<Operation>, op: Operation)
    requires IsLatest(counter, all)
    ensures IsLatest(Max(counter, op.nodeId.timestamp), all + {op})
  {
    if counter != 0 && op.nodeId.timestamp < counter {
      var o :| o in all && o.nodeId.timestamp == counter;
      assert o in all + {op};
    } else {
      assert op in all + {op};
    }
  }

  /** The node list and buffer after a new operation, from the same before it. */
  lemma ApplyNewSplits(s: Rga, all: set<Operation>, op: Operation)
    requires Coherent(all + {op}) && op !in all && op.requestId !in s.seen
    requires Distinct(s.pending) && Split(s.nodes, Elements(s.pending), all) && Settled(s.nodes, s.pending)
    ensures var t := Apply(s, op);
            Distinct(t.pending) && Split(t.nodes, Elements(t.pending), all + {op}) && Settled(t.nodes, t.pending)
  {
    var held := Elements(s.pending);
    if op.opType.Other? {
      ReceiveOtherKeeps(s.nodes, held, all, op);
    } else {
      ReceiveKeeps(s.nodes, held, all, op);
      assert op !in held;
      AppendHeld(s.pending, op);
      if Ready(s.nodes, op) {
        PerformKeeps(s.nodes, held + {op}, all + {op}, op);
        assert held + {op} - {op} == held;
        if op.opType.Insert? {
          FlushKeeps(Perform(s.nodes, op), s.pending, all + {op});
        } else {
          PerformDeleteKeeps(s.nodes, held + {op}, all + {op}, op);
          SettledDependsOnIds(s.nodes, Perform(s.nodes, op), s.pending);
        }
      }
    }
  }

  lemma SeenOnce(all: set<Operation>, op: Operation)
    requires Coherent(all + {op})
    ensures op.requestId in RequestIds(all) <==> op in all
  {
    forall o | o in all && o.requestId == op.requestId
      ensures o == op
    {
      assert o in all + {op} && op in all + {op};
    }
  }

  /** Buffering loses and repeats nothing: `Apply` accepts an operation exactly when it is
      new, and keeps the exact split of everything received. */
  lemma ApplyKeeps(s: Rga, all: set<Operation>, op: Operation)
    requires Holds(s, all) && Coherent(all + {op})
    ensures Holds(Apply(s, op), all + {op})
    ensures Accepts(s, op) <==> op !in all
  {
    SeenOnce(all, op);
    if op.requestId in s.seen {
      assert all + {op} == all;
    } else {
      ApplyNewKeeps(s, all, op);
    }
  }

  lemma ApplyNewKeeps(s: Rga, all: set<Operation>, op: Operation)
    requires Holds(s, all) && Coherent(all + {op}) && op.requestId !in s.seen && op !in all
    ensures Holds(Apply(s, op), all + {op})
  {
    ApplyNewSplits(s, all, op);
    CounterKeeps(s.counter, all, op);
    assert RequestIds(all + {op}) == RequestIds(all) + {op.requestId};
    ApplyBookkeeping(s, op);
  }

  lemma ApplyBookkeeping(s: Rga, op: Operation)
    requires op.requestId !in s.seen
    ensures Apply(s, op).seen == s.seen + {op.requestId}
    ensures Apply(s, op).counter == Max(s.counter, op.nodeId.timestamp)
  {
  }

  lemma CoherentSubset(small: set<Operation>, all: set<Operation>)
    requires Coherent(all) && small <= all
    ensures Coherent(small)
  {
  }

  /** The same over any run: repeats and orders do not matter to what a replica holds. */
  lemma {:induction false} ApplyAllKeeps(s: Rga, all: set<Operation>, ops: seq<Operation>)
    requires Holds(s, all) && Coherent(all + Elements(ops))
    ensures Holds(ApplyAll(s, ops), all + Elements(ops))
    decreases |ops|
  {
    if ops == [] {
      assert all + Elements(ops) == all;
    } else {
      var all' := all + {ops[0]};
      assert ops == [ops[0]] + ops[1..];
      assert all + Elements(ops) == all' + Elements(ops[1..]);
      CoherentSubset(all', all + Elements(ops));
      ApplyKeeps(s, all, ops[0]);
      ApplyAllKeeps(Apply(s, ops[0]), all', ops[1..]);
    }
  }

  lemma EmptyHolds()
    ensures Holds(Empty, {})
  {
    assert Tree([], map[]);
  }
}
