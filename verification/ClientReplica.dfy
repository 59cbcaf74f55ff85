/** The browser's replica (`rga.ts`).  Its index is keyed by text and its buffer is rebuilt
    on each sweep, yet it steps exactly like the server's. */
module ClientReplica {
  import opened Ids
  import opened NodeKeys
  import opened RgaModel
  import opened TreeOrder
  import opened Buffering
  import opened LocalIntent

  ghost function KeyAt(ns: seq<Node>, i: int): string
    requires 0 <= i < |ns|
  {
    NodeKey(ns[i].id)
  }

  ghost function KeySet(ns: seq<Node>): set<string>
  {
    set i | 0 <= i < |ns| :: KeyAt(ns, i)
  }

  /** The index holds exactly the keys of the list, each at its position. */
  ghost predicate KeyIndexes(index: map<string, nat>, ns: seq<Node>)
  {
    && index.Keys == KeySet(ns)
    && forall i :: 0 <= i < |ns| ==> KeyAt(ns, i) in index && index[KeyAt(ns, i)] == i
  }

  lemma KeyIsFind(index: map<string, nat>, ns: seq<Node>, id: NodeId)
    requires KeyIndexes(index, ns)
    ensures NodeKey(id) in index <==> Has(ns, id)
    ensures NodeKey(id) in index ==> index[NodeKey(id)] == Find(ns, id)
  {
    if NodeKey(id) in index {
      var i :| 0 <= i < |ns| && KeyAt(ns, i) == NodeKey(id);
      NodeKeyInjective(ns[i].id, id);
      assert Find(ns, id) <= i;
    }
    if Has(ns, id) {
      assert index[KeyAt(ns, Find(ns, id))] == Find(ns, id);
    }
  }

  lemma ParentKeyed(index: map<string, nat>, ns: seq<Node>, i: nat)
    requires KeyIndexes(index, ns) && Ordered(ns) && i < |ns| && ns[i].after.Some?
    ensures NodeKey(ns[i].after.value) in index
    ensures index[NodeKey(ns[i].after.value)] == Find(ns, ns[i].after.value) < i
  {
    var pm :| Tree(ns, pm);
    ParentComesFirst(ns, pm, i);
    KeyIsFind(index, ns, ns[i].after.value);
  }

  /** The index is right below position `i`, and holds no foreign key. */
  ghost predicate KeyedBelow(index: map<string, nat>, ns: seq<Node>, i: nat)
  {
    && (forall a, b :: 0 <= a < b < |ns| ==> KeyAt(ns, a) != KeyAt(ns, b))
    && (forall j :: 0 <= j < i && j < |ns| ==> KeyAt(ns, j) in index && index[KeyAt(ns, j)] == j)
    && index.Keys <= KeySet(ns)
  }

  lemma ShiftedKeys(before: seq<Node>, n: Node, k: nat)
    requires k <= |before|
    ensures var ns := InsertAt(before, k, n);
      && KeyAt(ns, k) == NodeKey(n.id)
      && forall i :: 0 <= i < |ns| && i != k ==> KeyAt(ns, i) == KeyAt(before, if i < k then i else i - 1)
  {
  }

  lemma KeysGrow(before: seq<Node>, n: Node, k: nat)
    requires k <= |before|
    ensures KeySet(before) <= KeySet(InsertAt(before, k, n))
  {
    ShiftedKeys(before, n, k);
    forall key | key in KeySet(before)
      ensures key in KeySet(InsertAt(before, k, n))
    {
      var i :| 0 <= i < |before| && KeyAt(before, i) == key;
      assert KeyAt(InsertAt(before, k, n), if i < k then i else i + 1) == key;
    }
  }

  lemma InsertKeepsKeys(index: map<string, nat>, before: seq<Node>, n: Node, k: nat)
    requires KeyIndexes(index, before) && !Has(before, n.id) && k <= |before|
    ensures KeyedBelow(index, InsertAt(before, k, n), k)
  {
    KeyIsFind(index, before, n.id);
    ShiftedKeys(before, n, k);
    KeysGrow(before, n, k);
  }

  class ClientReplica {
    const siteId: SiteId
    var counter: nat
    var nodes: seq<Node>
    var index: map<string, nat>
    var seen: set<string>
    var pending: seq<Operation>
    ghost var received: set<Operation>

    ghost predicate Valid()
      reads this
    {
      KeyIndexes(index, nodes) && Coherent(received) && Holds(State(), received)
    }

    ghost function State(): Rga
      reads this
    {
      Rga(counter, nodes, seen, pending)
    }

    constructor (siteId: SiteId)
      ensures Valid() && this.siteId == siteId && State() == Empty && received == {}
    {
      this.siteId := siteId;
      counter, nodes, index, seen, pending := 0, [], map[], {}, [];
      received := {};
      new;
      EmptyHolds();
    }

    // ---------- Placing an insert ----------

    predicate IsDescendantOf(idx: nat, parent: NodeId)
      requires idx < |nodes| && Ordered(nodes) && KeyIndexes(index, nodes)
      reads this
      ensures IsDescendantOf(idx, parent) == RgaModel.IsDescendantOf(nodes, idx, parent)
      decreases idx
    {
      if nodes[idx].after.None? then false
      else if nodes[idx].after.value == parent then true
      else
        ParentKeyed(index, nodes, idx);
        IsDescendantOf(index[NodeKey(nodes[idx].after.value)], parent)
    }

    method SkipSubtree(start: nat) returns (idx: nat)
      requires start < |nodes| && Ordered(nodes) && KeyIndexes(index, nodes)
      ensures idx == RgaModel.SkipSubtree(nodes, start)
    {
      var parent := nodes[start].id;
      idx := start + 1;
      while idx < |nodes|
        invariant idx <= |nodes|
        invariant SkipFrom(nodes, idx, parent) == SkipFrom(nodes, start + 1, parent)
      {
        if !IsDescendantOf(idx, parent) {
          break;
        }
        idx := idx + 1;
      }
    }

    method ApplyInsert(op: Operation)
      requires Ordered(nodes) && KeyIndexes(index, nodes) && !Has(nodes, op.nodeId)
      requires op.after.Some? ==> Has(nodes, op.after.value)
      modifies `nodes, `index
      ensures nodes == RgaModel.ApplyInsert(old(nodes), op)
      ensures KeyIndexes(index, nodes)
    {
      var insertIdx: nat := 0;
      if op.after.Some? {
        KeyIsFind(index, nodes, op.after.value);
        if NodeKey(op.after.value) in index {
          insertIdx := index[NodeKey(op.after.value)] + 1;
        }
      }
      assert insertIdx == ScanStart(nodes, op.after);
      while insertIdx < |nodes|
        modifies {}
        invariant insertIdx <= |nodes|
        invariant Scan(nodes, insertIdx, op.after, op.nodeId) == Scan(nodes, ScanStart(nodes, op.after), op.after, op.nodeId)
        decreases |nodes| - insertIdx
      {
        var existing := nodes[insertIdx];
        if existing.after != op.after {
          break;
        }
        if Priority(op.nodeId, existing.id) {
          break;
        }
        insertIdx := SkipSubtree(insertIdx);
      }
      InsertKeepsKeys(index, nodes, NewNode(op), insertIdx);
      nodes := InsertAt(nodes, insertIdx, NewNode(op));
      RebuildIndex(insertIdx);
    }

    method RebuildIndex(from: nat)
      requires from <= |nodes| && KeyedBelow(index, nodes, from)
      modifies `index
      ensures KeyIndexes(index, nodes)
    {
      var i := from;
      while i < |nodes|
        modifies `index
        invariant from <= i <= |nodes| && KeyedBelow(index, nodes, i)
      {
        assert KeyAt(nodes, i) in KeySet(nodes);
        index := index[NodeKey(nodes[i].id) := i];
        i := i + 1;
      }
    }

    method ApplyDelete(op: Operation)
      requires KeyIndexes(index, nodes)
      modifies `nodes
      ensures nodes == RgaModel.ApplyDelete(old(nodes), op.nodeId)
      ensures KeyIndexes(index, nodes)
    {
      KeyIsFind(index, nodes, op.nodeId);
      if NodeKey(op.nodeId) in index {
        var idx := index[NodeKey(op.nodeId)];
        ghost var before := nodes;
        nodes := nodes[idx := nodes[idx].(deleted := true)];
        assert forall i :: 0 <= i < |nodes| ==> KeyAt(nodes, i) == KeyAt(before, i);
        assert KeySet(nodes) == KeySet(before);
      }
    }

    // ---------- Buffering ----------

    predicate IsReady(op: Operation)
      requires KeyIndexes(index, nodes)
      reads this
      ensures IsReady(op) == Ready(nodes, op)
    {
      match op.opType
      case Insert =>
        (if op.after.Some? then KeyIsFind(index, nodes, op.after.value); NodeKey(op.after.value) in index else true)
      case Delete =>
        KeyIsFind(index, nodes, op.nodeId);
        NodeKey(op.nodeId) in index
      case Other(_) => true
    }

    method PerformReady(op: Operation)
      requires Ordered(nodes) && KeyIndexes(index, nodes) && Ready(nodes, op)
      requires op.opType.Insert? ==> op.nodeId !in IdSet(nodes)
      modifies `nodes, `index
      ensures nodes == Perform(old(nodes), op) && KeyIndexes(index, nodes)
    {
      if op.opType.Insert? {
        HasIsMember(nodes, op.nodeId);
        ApplyInsert(op);
      } else if op.opType.Delete? {
        ApplyDelete(op);
      }
    }

    /** One sweep over the buffer into a new list of remaining operations. */
    method SweepPending() returns (applied: bool)
      requires KeyIndexes(index, nodes) && PassSound(nodes, pending)
      modifies `nodes, `index, `pending
      ensures KeyIndexes(index, nodes)
      ensures Pass(nodes, pending, applied) == FlushPass(old(nodes), old(pending))
    {
      applied := false;
      var remaining: seq<Operation> := [];
      ghost var goal := FlushPass(nodes, pending);
      assert pending[0..] == pending && [] + goal.remaining == goal.remaining;
      var i := 0;
      while i < |pending|
        modifies `nodes, `index
        invariant i <= |pending| && KeyIndexes(index, nodes) && PassSound(nodes, pending[i..])
        invariant var p := FlushPass(nodes, pending[i..]);
                  goal == Pass(p.nodes, remaining + p.remaining, applied || p.applied)
      {
        var op := pending[i];
        assert pending[i..][0] == op && pending[i..][1..] == pending[i + 1..];
        if IsReady(op) {
          PerformReady(op);
          applied := applied || !op.opType.Other?;
        } else {
          ghost var rest := FlushPass(nodes, pending[i + 1..]).remaining;
          assert remaining + ([op] + rest) == remaining + [op] + rest;
          remaining := remaining + [op];
        }
        i := i + 1;
      }
      assert pending[i..] == [] && remaining + [] == remaining;
      pending := remaining;
    }

    method FlushPending()
      requires KeyIndexes(index, nodes) && FlushSound(nodes, pending)
      modifies `nodes, `index, `pending
      ensures KeyIndexes(index, nodes)
      ensures nodes == Flush(old(nodes), old(pending)).nodes
      ensures pending == Flush(old(nodes), old(pending)).remaining
    {
      ghost var goal := Flush(nodes, pending);
      var applied := true;
      while applied
        modifies `nodes, `index, `pending
        invariant KeyIndexes(index, nodes)
        invariant applied ==> FlushSound(nodes, pending) && Flush(nodes, pending) == goal
        invariant !applied ==> Pass(nodes, pending, false) == goal
        decreases |pending|, applied
      {
        applied := SweepPending();
      }
    }

    // ---------- Applying an operation ----------

    method Apply(op: Operation) returns (isNew: bool)
      requires Valid() && Coherent(received + {op})
      modifies this
      ensures Valid() && received == old(received) + {op}
      ensures State() == RgaModel.Apply(old(State()), op)
      ensures isNew <==> op !in old(received)
    {
      ApplyKeeps(State(), received, op);
      isNew := op.requestId !in seen;
      if isNew {
        Admit(op);
      }
      received := received + {op};
    }

    /** The part of `apply` behind the duplicate check. */
    method Admit(op: Operation)
      requires Valid() && Coherent(received + {op}) && op.requestId !in seen && op !in received
      modifies `seen, `counter, `nodes, `index, `pending
      ensures KeyIndexes(index, nodes)
      ensures State() == RgaModel.Apply(old(State()), op)
    {
      seen := seen + {op.requestId};
      if op.nodeId.timestamp > counter {
        counter := op.nodeId.timestamp;
      }
      if !IsReady(op) {
        pending := pending + [op];
      } else if op.opType.Insert? {
        FreshInsert(nodes, received, op);
        ReadyToFlush(nodes, pending, received, op);
        PerformReady(op);
        FlushPending();
      } else if op.opType.Delete? {
        ApplyDelete(op);
      }
    }

    // ---------- Reading the document ----------

    /** The id of the `pos`-th visible character, if there is one. */
    method NodeAtPosition(pos: int) returns (id: Option<NodeId>)
      ensures id == if 0 <= pos < |Visible(nodes)| then Some(Visible(nodes)[pos].id) else None
    {
      if pos < 0 {
        return None;
      }
      var i, k := 0, 0;
      while k < |nodes|
        invariant k <= |nodes| && i == |Visible(nodes[..k])| <= pos
      {
        VisibleStep(nodes, k);
        VisiblePrefix(nodes, k + 1);
        if !nodes[k].deleted {
          if i == pos {
            return Some(nodes[k].id);
          }
          i := i + 1;
        }
        k := k + 1;
      }
      assert nodes[..k] == nodes;
      return None;
    }
  }
}
