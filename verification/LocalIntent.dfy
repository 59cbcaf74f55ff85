/** What a local edit does to its own replica: a new character lands right behind its
    anchor, and nothing else moves. */
module LocalIntent {
  import opened Ids
  import opened RgaModel
  import opened TreeOrder
  import opened Buffering

  const TWO_64: nat := 0x1_0000_0000_0000_0000

  /** The next id of a replica's clock; the counter is an unsigned 64-bit number. */
  function Tick(site: SiteId, counter: nat): (id: NodeId)
  {
    NodeId(site, (counter + 1) % TWO_64)
  }

  /** Every received insert is younger than its anchor. */
  ghost predicate AnchorsOlder(all: set<Operation>)
  {
    forall o :: o in all && o.opType.Insert? && o.after.Some? ==> o.after.value.timestamp < o.nodeId.timestamp
  }

  /** The id a buffered operation waits for. */
  function Dependency(op: Operation): Option<NodeId>
  {
    if op.opType.Insert? then op.after else Some(op.nodeId)
  }

  lemma NodesAreOld(s: Rga, all: set<Operation>, i: nat)
    requires Holds(s, all) && i < |s.nodes|
    ensures s.nodes[i].id.timestamp <= s.counter
  {
    assert s.nodes[i] in s.nodes && Sourced(s.nodes[i], all);
  }

  lemma DependenciesAreOld(s: Rga, all: set<Operation>, o: Operation)
    requires Holds(s, all) && AnchorsOlder(all) && o in s.pending
    ensures Dependency(o).Some? ==> Dependency(o).value.timestamp <= s.counter
  {
    assert o in Elements(s.pending);
  }

  /** `Tick` yields an id unlike every node id, every received id and every buffered
      dependency. */
  lemma TickIsFresh(s: Rga, all: set<Operation>, site: SiteId)
    requires Holds(s, all) && AnchorsOlder(all) && s.counter + 1 < TWO_64
    ensures var x := Tick(site, s.counter);
            && x !in IdSet(s.nodes)
            && (forall o :: o in all ==> o.nodeId != x)
            && (forall o :: o in s.pending ==> Dependency(o) != Some(x))
  {
    forall i | 0 <= i < |s.nodes|
      ensures s.nodes[i].id.timestamp <= s.counter
    {
      NodesAreOld(s, all, i);
    }
    forall o | o in s.pending
      ensures Dependency(o).Some? ==> Dependency(o).value.timestamp <= s.counter
    {
      DependenciesAreOld(s, all, o);
    }
  }

  /** An operation made locally: new request id, new timestamp. */
  ghost predicate IsLocalInsert(s: Rga, op: Operation)
  {
    && op.opType.Insert? && op.requestId !in s.seen
    && op.nodeId.timestamp == s.counter + 1
    && (op.after.Some? ==> Has(s.nodes, op.after.value))
  }

  /** A newest id wins against every sibling, so the scan stops where it starts. */
  lemma NewestWins(s: Rga, all: set<Operation>, op: Operation)
    requires Holds(s, all) && IsLocalInsert(s, op)
    ensures ApplyInsert(s.nodes, op) == InsertAt(s.nodes, ScanStart(s.nodes, op.after), NewNode(op))
  {
    var k := ScanStart(s.nodes, op.after);
    if k < |s.nodes| {
      NodesAreOld(s, all, k);
    }
  }

  lemma StillSettled(s: Rga, all: set<Operation>, op: Operation)
    requires Holds(s, all) && AnchorsOlder(all) && IsLocalInsert(s, op)
    ensures Settled(ApplyInsert(s.nodes, op), s.pending)
  {
    var ms := ApplyInsert(s.nodes, op);
    InsertAtIds(s.nodes, Scan(s.nodes, ScanStart(s.nodes, op.after), op.after, op.nodeId), NewNode(op));
    forall o | o in s.pending
      ensures !Ready(ms, o)
    {
      DependenciesAreOld(s, all, o);
      assert o in Elements(s.pending) && !Ready(s.nodes, o);
      var d := Dependency(o);
      if d.Some? {
        HasIsMember(s.nodes, d.value);
        HasIsMember(ms, d.value);
      }
    }
  }

  /** Local insert: the new node is immediately behind its anchor (at the front when there
      is none), all other nodes keep their order, and the buffer is untouched. */
  lemma LocalInsertLandsBehindAnchor(s: Rga, all: set<Operation>, op: Operation)
    requires Holds(s, all) && AnchorsOlder(all) && IsLocalInsert(s, op)
    ensures Apply(s, op) == Rga(op.nodeId.timestamp, InsertAt(s.nodes, ScanStart(s.nodes, op.after), NewNode(op)),
                                s.seen + {op.requestId}, s.pending)
  {
    NewestWins(s, all, op);
    StillSettled(s, all, op);
    assert forall o :: o in s.pending ==> o in Elements(s.pending);
    IdlePass(ApplyInsert(s.nodes, op), s.pending);
  }

  /** A local insert is coherent with what was received and again younger than its anchor,
      so the next local edit starts from the same ground. */
  lemma LocalInsertKeeps(s: Rga, all: set<Operation>, op: Operation)
    requires Holds(s, all) && Coherent(all) && AnchorsOlder(all) && IsLocalInsert(s, op)
    ensures Coherent(all + {op}) && AnchorsOlder(all + {op}) && Holds(Apply(s, op), all + {op})
  {
    forall o | o in all
      ensures o.requestId != op.requestId && o.nodeId != op.nodeId
    {
      assert o.requestId in RequestIds(all);
    }
    assert Coherent(all + {op});
    if op.after.Some? {
      NodesAreOld(s, all, Find(s.nodes, op.after.value));
    }
    ApplyKeeps(s, all, op);
  }

  /** A local delete of a present node only marks that node. */
  lemma LocalDeleteKeeps(s: Rga, all: set<Operation>, op: Operation)
    requires Holds(s, all) && Coherent(all) && AnchorsOlder(all)
    requires op.opType.Delete? && op.requestId !in s.seen && Has(s.nodes, op.nodeId)
    ensures Coherent(all + {op}) && AnchorsOlder(all + {op}) && Holds(Apply(s, op), all + {op})
    ensures Apply(s, op).nodes == ApplyDelete(s.nodes, op.nodeId)
    ensures Apply(s, op).counter == s.counter
  {
    forall o | o in all
      ensures o.requestId != op.requestId
    {
      assert o.requestId in RequestIds(all);
    }
    assert Coherent(all + {op});
    NodesAreOld(s, all, Find(s.nodes, op.nodeId));
    ApplyKeeps(s, all, op);
  }

  // ---------- What it does to the text ----------

  lemma {:induction false} VisibleConcat(a: seq<Node>, b: seq<Node>)
    ensures Visible(a + b) == Visible(a) + Visible(b)
  {
    if a == [] {
      assert a + b == b;
    } else {
      assert (a + b)[0] == a[0] && (a + b)[1..] == a[1..] + b;
      VisibleConcat(a[1..], b);
    }
  }

  /** A node that is not deleted is the visible one after those before it. */
  lemma VisibleStep(ns: seq<Node>, k: nat)
    requires k < |ns|
    ensures Visible(ns[..k + 1]) == Visible(ns[..k]) + if ns[k].deleted then [] else [ns[k]]
  {
    assert ns[..k + 1] == ns[..k] + [ns[k]];
    VisibleConcat(ns[..k], [ns[k]]);
    assert [ns[k]][1..] == [];
  }

  lemma VisiblePrefix(ns: seq<Node>, k: nat)
    requires k <= |ns|
    ensures Visible(ns) == Visible(ns[..k]) + Visible(ns[k..])
  {
    assert ns == ns[..k] + ns[k..];
    VisibleConcat(ns[..k], ns[k..]);
  }

  lemma VisibleInsertAt(ns: seq<Node>, k: nat, n: Node)
    requires k <= |ns| && !n.deleted
    ensures Visible(InsertAt(ns, k, n)) == Visible(ns[..k]) + [n] + Visible(ns[k..])
  {
    VisibleConcat(ns[..k] + [n], ns[k..]);
    VisibleConcat(ns[..k], [n]);
    assert Visible([n]) == [n] + Visible([]);
  }

  lemma VisibleApplyDelete(ns: seq<Node>, id: NodeId)
    requires Has(ns, id)
    ensures var k := Find(ns, id); Visible(ApplyDelete(ns, id)) == Visible(ns[..k]) + Visible(ns[k + 1..])
  {
    var k := Find(ns, id);
    var dead := ns[k].(deleted := true);
    assert ApplyDelete(ns, id) == ns[..k] + ([dead] + ns[k + 1..]);
    VisibleConcat(ns[..k], [dead] + ns[k + 1..]);
    assert ([dead] + ns[k + 1..])[1..] == ns[k + 1..];
  }
}
