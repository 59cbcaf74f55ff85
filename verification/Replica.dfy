/** The server's replica (`crdt.go`), with its position index and its in-place buffer. */
module Replica {
  import opened Ids
  import opened RgaModel
  import opened TreeOrder
  import opened Buffering
  import opened LocalIntent
  import opened Folding
  import opened Snapshots

  // ---------- The position index ----------

  /** The index holds exactly the ids of the list, each at its position. */
  ghost predicate Indexes(index: map<NodeId, nat>, ns: seq<Node>)
  {
    && index.Keys == IdSet(ns)
    && forall i :: 0 <= i < |ns| ==> ns[i].id in index && index[ns[i].id] == i
  }

  lemma IndexIsFind(index: map<NodeId, nat>, ns: seq<Node>, id: NodeId)
    requires Indexes(index, ns)
    ensures id in index <==> Has(ns, id)
    ensures id in index ==> index[id] == Find(ns, id)
  {
    HasIsMember(ns, id);
  }

  lemma ParentIndexed(index: map<NodeId, nat>, ns: seq<Node>, i: nat)
    requires Indexes(index, ns) && Ordered(ns) && i < |ns| && ns[i].after.Some?
    ensures ns[i].after.value in index && index[ns[i].after.value] == Find(ns, ns[i].after.value) < i
  {
    var pm :| Tree(ns, pm);
    ParentComesFirst(ns, pm, i);
    IndexIsFind(index, ns, ns[i].after.value);
  }

  /** The list is a walk, and the index follows it. */
  ghost predicate Kept(index: map<NodeId, nat>, ns: seq<Node>)
  {
    Ordered(ns) && Indexes(index, ns)
  }

  class Replica {
    const site: SiteId
    var counter: nat
    var nodes: seq<Node>
    var index: map<NodeId, nat>
    var seen: set<string>
    var pending: array<Operation>
    var held: nat
    ghost var received: set<Operation>

    ghost predicate Valid()
      reads this, pending
    {
      && held <= pending.Length
      && Indexes(index, nodes)
      && Coherent(received)
      && Holds(State(), received)
    }

    ghost function State(): Rga
      requires held <= pending.Length
      reads this, pending
    {
      Rga(counter, nodes, seen, pending[..held])
    }

    constructor (site: SiteId)
      ensures Valid() && fresh(pending)
      ensures this.site == site && State() == Empty && received == {}
    {
      this.site := site;
      counter, nodes, index, seen := 0, [], map[], {};
      pending := new Operation[0];
      held := 0;
      received := {};
      new;
      EmptyHolds();
      assert pending[..held] == [];
    }

    /** Rebuilds a replica from a snapshot; nodes without a rights flag count as authenticated. */
    constructor Import(snap: RgaSnapshot, ghost s: Rga, ghost all: set<Operation>)
      requires Imported(snap) == s && Coherent(all) && Holds(s, all)
      ensures Valid() && fresh(pending)
      ensures site == snap.replicaId && State() == s && received == all
    {
      var ns: seq<Node>, idx: map<NodeId, nat>, ids: set<string> := [], map[], {};
      var i := 0;
      while i < |snap.nodes|
        invariant i <= |snap.nodes| && ns == s.nodes[..i] && Indexes(idx, ns)
      {
        var n := ImportNode(snap.nodes[i]);
        assert n == s.nodes[i] && s.nodes[..i + 1] == s.nodes[..i] + [n];
        FreshInPrefix(s.nodes, i);
        ns := ns + [n];
        idx := idx[n.id := i];
        i := i + 1;
      }
      i := 0;
      while i < |snap.seen|
        invariant i <= |snap.seen| && ids == Elements(snap.seen[..i])
      {
        assert snap.seen[..i + 1] == snap.seen[..i] + [snap.seen[i]];
        ids := ids + {snap.seen[i]};
        i := i + 1;
      }
      assert snap.seen[..i] == snap.seen && s.nodes[..|snap.nodes|] == s.nodes;
      var buffer := new Operation[|snap.pending|](j requires 0 <= j < |snap.pending| => snap.pending[j]);
      assert buffer[..|snap.pending|] == snap.pending;
      site, counter := snap.replicaId, snap.counter;
      nodes, index, seen := ns, idx, ids;
      pending, held := buffer, |snap.pending|;
      received := all;
    }

    // ---------- Clock ----------

    /** The next id.  The counter wraps at 64 bits. */
    method TickClock() returns (id: NodeId)
      modifies `counter
      ensures id == Tick(site, old(counter)) && counter == id.timestamp
      ensures id.site == site && id.timestamp == (old(counter) + 1) % 0x1_0000_0000_0000_0000
    {
      counter := (counter + 1) % TWO_64;
      id := NodeId(site, counter);
    }

    method UpdateClock(ts: nat)
      modifies `counter
      ensures counter == Max(old(counter), ts)
    {
      if ts > counter {
        counter := ts;
      }
    }

    // ---------- Placing an insert ----------

    /** Whether the node at `idx` hangs below `parent`; the recursion climbs the index. */
    predicate IsDescendantOf(idx: nat, parent: NodeId)
      requires idx < |nodes| && Kept(index, nodes)
      reads this
      ensures IsDescendantOf(idx, parent) == RgaModel.IsDescendantOf(nodes, idx, parent)
      decreases idx
    {
      if nodes[idx].after.None? then false
      else if nodes[idx].after.value == parent then true
      else
        ParentIndexed(index, nodes, idx);
        IsDescendantOf(index[nodes[idx].after.value], parent)
    }

    method SkipSubtree(start: nat) returns (idx: nat)
      requires start < |nodes| && Kept(index, nodes)
      ensures idx == RgaModel.SkipSubtree(nodes, start)
    {
      var parent := nodes[start].id;
      idx := start + 1;
      while idx < |nodes|
        invariant idx <= |nodes|
        invariant SkipFrom(nodes, idx, parent) == SkipFrom(nodes, start + 1, parent)
      {
        if !IsDescendantOf(idx, parent) {
          break;
        }
        idx := idx + 1;
      }
    }

    /** Places a new node by the sibling scan and rebuilds the index behind it. */
    method ApplyInsert(op: Operation)
      requires Kept(index, nodes) && op.nodeId !in index
      requires op.after.Some? ==> op.after.value in index
      modifies `nodes, `index
      ensures op.after.Some? ==> Has(old(nodes), op.after.value)
      ensures nodes == RgaModel.ApplyInsert(old(nodes), op)
      ensures Indexes(index, nodes)
    {
      var insertIdx: nat := 0;
      if op.after.Some? {
        IndexIsFind(index, nodes, op.after.value);
        insertIdx := index[op.after.value] + 1;
      }
      assert insertIdx == ScanStart(nodes, op.after);
      while insertIdx < |nodes|
        modifies {}
        invariant insertIdx <= |nodes|
        invariant Scan(nodes, insertIdx, op.after, op.nodeId) == Scan(nodes, ScanStart(nodes, op.after), op.after, op.nodeId)
        decreases |nodes| - insertIdx
      {
        var existing := nodes[insertIdx];
        if existing.after != op.after {
          break;
        }
        if Priority(op.nodeId, existing.id) {
          break;
        }
        insertIdx := SkipSubtree(insertIdx);
      }
      ghost var before := nodes;
      nodes := InsertAt(nodes, insertIdx, NewNode(op));
      InsertKeepsIndex(index, before, NewNode(op), insertIdx);
      RebuildIndex(insertIdx);
    }

    method RebuildIndex(from: nat)
      requires from <= |nodes| && IndexedBelow(index, nodes, from)
      modifies `index
      ensures Indexes(index, nodes)
    {
      var i := from;
      while i < |nodes|
        modifies `index
        invariant from <= i <= |nodes| && IndexedBelow(index, nodes, i)
      {
        assert nodes[i].id in IdSet(nodes);
        index := index[nodes[i].id := i];
        i := i + 1;
      }
    }

    method ApplyDelete(op: Operation)
      requires Indexes(index, nodes)
      modifies `nodes
      ensures nodes == RgaModel.ApplyDelete(old(nodes), op.nodeId)
      ensures Indexes(index, nodes)
    {
      IndexIsFind(index, nodes, op.nodeId);
      if op.nodeId in index {
        var idx := index[op.nodeId];
        ghost var before := nodes;
        nodes := nodes[idx := nodes[idx].(deleted := true)];
        assert forall i :: 0 <= i < |nodes| ==> nodes[i].id == before[i].id;
        assert IdSet(nodes) == IdSet(before);
      }
    }

    // ---------- Buffering ----------

    /** Whether an operation's anchor or target is in the index. */
    predicate IsReady(op: Operation)
      requires Indexes(index, nodes)
      reads this
      ensures IsReady(op) == Ready(nodes, op)
    {
      match op.opType
      case Insert =>
        (if op.after.Some? then IndexIsFind(index, nodes, op.after.value); op.after.value in index else true)
      case Delete =>
        IndexIsFind(index, nodes, op.nodeId);
        op.nodeId in index
      case Other(_) => true
    }

    /** Performs a ready operation, as both `Apply` and the sweep do. */
    method PerformReady(op: Operation)
      requires Kept(index, nodes) && Ready(nodes, op)
      requires op.opType.Insert? ==> op.nodeId !in IdSet(nodes)
      modifies `nodes, `index
      ensures nodes == Perform(old(nodes), op) && Indexes(index, nodes)
    {
      if op.opType.Insert? {
        if op.after.Some? {
          IndexIsFind(index, nodes, op.after.value);
        }
        ApplyInsert(op);
      } else if op.opType.Delete? {
        ApplyDelete(op);
      }
    }

    /** One operation of a sweep: performed if it is ready, else it remains. */
    method SweepOne(op: Operation, applied: bool, ghost kept: seq<Operation>, ghost rest: seq<Operation>, ghost goal: Pass)
      returns (remains: bool)
      requires Indexes(index, nodes) && rest != [] && rest[0] == op
      requires Sweeping(nodes, kept, rest, applied, goal)
      modifies `nodes, `index
      ensures Indexes(index, nodes)
      ensures remains ==> Sweeping(nodes, kept + [op], rest[1..], applied, goal)
      ensures !remains ==> Sweeping(nodes, kept, rest[1..], applied || !op.opType.Other?, goal)
    {
      remains := !IsReady(op);
      if remains {
        SweepKeeps(nodes, kept, rest, applied, goal);
      } else {
        ghost var before := nodes;
        SweepMayPerform(nodes, kept, rest, applied, goal);
        PerformReady(op);
        SweepPerforms(before, nodes, kept, rest, applied, goal);
      }
    }

    /** One sweep over the buffer, compacting it in place.  The write position never passes
        the read position, so no unread operation is overwritten. */
    method SweepPending() returns (applied: bool)
      requires held <= pending.Length && Indexes(index, nodes) && PassSound(nodes, pending[..held])
      modifies `nodes, `index, `held, pending
      ensures held <= old(held) && (applied ==> held < old(held))
      ensures Pass(nodes, pending[..held], applied) == FlushPass(old(nodes), old(pending[..held]))
      ensures Indexes(index, nodes)
    {
      applied := false;
      ghost var ops: seq<Operation>, kept: seq<Operation> := pending[..held], [];
      ghost var goal := FlushPass(nodes, ops);
      ghost var rest := ops[0..];
      var i, w := 0, 0;
      SweepBegins(nodes, ops, goal);
      while i < held
        modifies `nodes, `index, pending
        invariant w == |kept| <= i <= held == |ops|
        invariant forall k :: 0 <= k < w ==> pending[k] == kept[k]
        invariant forall k :: i <= k < held ==> pending[k] == ops[k]
        invariant rest == ops[i..] && Indexes(index, nodes) && Sweeping(nodes, kept, rest, applied, goal)
      {
        var op := pending[i];
        assert rest[0] == op && rest[1..] == ops[i + 1..];
        var remains := SweepOne(op, applied, kept, rest, goal);
        if remains {
          pending[w] := op;
          w := w + 1;
          kept := kept + [op];
        } else {
          applied := applied || !op.opType.Other?;
        }
        rest := rest[1..];
        i := i + 1;
      }
      held := w;
      assert pending[..held] == kept;
      SweepEnds(nodes, kept, rest, applied, goal);
    }

    /** Sweeps until a sweep applies nothing. */
    method FlushPending()
      requires held <= pending.Length && Indexes(index, nodes) && FlushSound(nodes, pending[..held])
      modifies `nodes, `index, `held, pending
      ensures held <= pending.Length && Indexes(index, nodes)
      ensures nodes == Flush(old(nodes), old(pending[..held])).nodes
      ensures pending[..held] == Flush(old(nodes), old(pending[..held])).remaining
    {
      ghost var goal := Flush(nodes, pending[..held]);
      var applied := true;
      while applied
        modifies `nodes, `index, `held, pending
        invariant held <= pending.Length && Indexes(index, nodes)
        invariant applied ==> FlushSound(nodes, pending[..held]) && Flush(nodes, pending[..held]) == goal
        invariant !applied ==> Pass(nodes, pending[..held], false) == goal
        decreases held, applied
      {
        applied := SweepPending();
      }
    }

    /** Appends to the buffer, growing it when full. */
    method AppendPending(op: Operation)
      requires held <= pending.Length
      modifies `pending, `held, pending
      ensures held <= pending.Length && pending[..held] == old(pending[..held]) + [op]
      ensures pending == old(pending) || fresh(pending)
    {
      if held == pending.Length {
        var bigger := new Operation[2 * held + 1];
        var i := 0;
        while i < held
          modifies bigger
          invariant i <= held && bigger[..i] == pending[..i]
        {
          bigger[i] := pending[i];
          i := i + 1;
        }
        pending := bigger;
      }
      pending[held] := op;
      held := held + 1;
    }

    // ---------- Applying an operation ----------

    /** Applies an operation: the replica becomes exactly what the model says, and accepts
        the operation if and only if it had not received it. */
    method Apply(op: Operation) returns (isNew: bool)
      requires Valid() && Coherent(received + {op})
      modifies this, pending
      ensures Valid() && received == old(received) + {op}
      ensures State() == RgaModel.Apply(old(State()), op)
      ensures isNew <==> op !in old(received)
      ensures pending == old(pending) || fresh(pending)
    {
      isNew := Receive(op, counter);
    }

    /** The replica as it was when its clock stood at `k`. */
    ghost function StateAt(k: nat): Rga
      requires held <= pending.Length
      reads this, pending
    {
      State().(counter := k)
    }

    /** The body of `Apply`, which also finds the clock already at the operation's own tick. */
    method Receive(op: Operation, ghost k: nat) returns (isNew: bool)
      requires held <= pending.Length && Indexes(index, nodes) && Coherent(received + {op}) && Holds(StateAt(k), received)
      requires counter == k || counter == Max(k, op.nodeId.timestamp)
      requires op in received ==> counter == k
      modifies this, pending
      ensures Valid() && received == old(received) + {op}
      ensures State() == RgaModel.Apply(old(StateAt(k)), op)
      ensures isNew <==> op !in old(received)
      ensures pending == old(pending) || fresh(pending)
    {
      ApplyKeeps(StateAt(k), received, op);
      isNew := op.requestId !in seen;
      if isNew {
        Admit(op, k);
      }
      received := received + {op};
    }

    /** The part of `Apply` behind the duplicate check. */
    method Admit(op: Operation, ghost k: nat)
      requires held <= pending.Length && Indexes(index, nodes) && Coherent(received + {op}) && Holds(StateAt(k), received)
      requires counter == k || counter == Max(k, op.nodeId.timestamp)
      requires op.requestId !in seen && op !in received
      modifies `seen, `counter, `nodes, `index, `pending, `held, pending
      ensures held <= pending.Length && Indexes(index, nodes)
      ensures State() == RgaModel.Apply(old(StateAt(k)), op)
      ensures pending == old(pending) || fresh(pending)
    {
      seen := seen + {op.requestId};
      UpdateClock(op.nodeId.timestamp);
      if !IsReady(op) {
        AppendPending(op);
      } else if op.opType.Insert? {
        FreshInsert(nodes, received, op);
        ReadyToFlush(nodes, pending[..held], received, op);
        PerformReady(op);
        FlushPending();
      } else if op.opType.Delete? {
        ApplyDelete(op);
      }
    }

    // ---------- Reading the document ----------

    /** Absent nodes count as authenticated. */
    method IsNodeAuthenticated(id: NodeId) returns (b: bool)
      requires Indexes(index, nodes)
      ensures b <==> (forall n :: n in nodes && n.id == id ==> n.authenticated)
    {
      if id !in index {
        assert forall n :: n in nodes ==> n.id in IdSet(nodes);
        return true;
      }
      assert nodes[index[id]] in nodes;
      return nodes[index[id]].authenticated;
    }

    method GetText() returns (text: string)
      ensures text == Text(nodes)
    {
      text := "";
      var i := 0;
      while i < |nodes|
        invariant i <= |nodes| && text == Text(nodes[..i])
      {
        VisibleStep(nodes, i);
        if !nodes[i].deleted {
          text := text + [nodes[i].value];
        }
        i := i + 1;
      }
      assert nodes[..i] == nodes;
    }

    // ---------- Local edits ----------

    /** Makes and applies an insert with the next clock id. */
    method Insert(requestId: string, after: Option<NodeId>, value: char) returns (op: Operation)
      requires Valid() && counter + 1 < TWO_64 && requestId !in seen
      modifies this, pending
      ensures Valid() && received == old(received) + {op}
      ensures op == Operation(requestId, OpType.Insert, Tick(site, old(counter)), after, value, false)
      ensures State() == RgaModel.Apply(old(State()), op)
      ensures pending == old(pending) || fresh(pending)
    {
      ghost var k := counter;
      ghost var s := State();
      var id := TickClock();
      op := Operation(requestId, OpType.Insert, id, after, value, false);
      LocalIsCoherent(s, received, op);
      assert StateAt(k) == s;
      var _ := Receive(op, k);
    }

    /** Makes and applies a delete. */
    method Delete(requestId: string, id: NodeId) returns (op: Operation)
      requires Valid() && requestId !in seen
      modifies this, pending
      ensures Valid() && received == old(received) + {op}
      ensures op.opType == OpType.Delete && op.requestId == requestId && op.nodeId == id
      ensures State() == RgaModel.Apply(old(State()), op)
      ensures pending == old(pending) || fresh(pending)
    {
      op := Operation(requestId, OpType.Delete, id, None, '\0', false);
      LocalIsCoherent(State(), received, op);
      var _ := Apply(op);
    }

    // ---------- Snapshots ----------

    method Export() returns (snap: RgaSnapshot)
      requires held <= pending.Length
      ensures Represents(snap, State()) && snap.replicaId == site
    {
      snap := ExportState(site, Rga(counter, nodes, seen, pending[..held]));
    }
  }

  // ---------- Lemmas about the index rebuild ----------

  lemma FreshInPrefix(ns: seq<Node>, i: nat)
    requires Ordered(ns) && i < |ns|
    ensures ns[i].id !in IdSet(ns[..i])
    ensures IdSet(ns[..i] + [ns[i]]) == IdSet(ns[..i]) + {ns[i].id}
  {
    var pm :| Tree(ns, pm);
    forall j | 0 <= j < i
      ensures ns[j].id != ns[i].id
    {
      FindAt(ns, pm, i);
      FindAt(ns, pm, j);
    }
    InsertAtIds(ns[..i], i, ns[i]);
    assert InsertAt(ns[..i], i, ns[i]) == ns[..i] + [ns[i]];
  }

  /** The index is right below position `i`, and holds no foreign id. */
  ghost predicate IndexedBelow(index: map<NodeId, nat>, ns: seq<Node>, i: nat)
  {
    && (forall a, b :: 0 <= a < b < |ns| ==> ns[a].id != ns[b].id)
    && (forall j :: 0 <= j < i && j < |ns| ==> ns[j].id in index && index[ns[j].id] == j)
    && index.Keys <= IdSet(ns)
  }

  /** After an insertion at `k` the index is still right below `k`. */
  lemma InsertKeepsIndex(index: map<NodeId, nat>, before: seq<Node>, n: Node, k: nat)
    requires Indexes(index, before) && n.id !in index && k <= |before|
    ensures IndexedBelow(index, InsertAt(before, k, n), k)
  {
    var ns := InsertAt(before, k, n);
    InsertAtIds(before, k, n);
    forall i | 0 <= i < |ns|
      ensures ns[i] == if i < k then before[i] else if i == k then n else before[i - 1]
    {
    }
  }

  // ---------- Lemmas about the sweep ----------

  /** With `kept` already kept and `rest` unread, the sweep will end in `goal`; folded up. */
  ghost predicate Sweeping(ns: seq<Node>, kept: seq<Operation>, rest: seq<Operation>, applied: bool, goal: Pass)
  {
    forall key :: Unfold(key) && key == SWEEP ==>
      PassSound(ns, rest) && var p := FlushPass(ns, rest); goal == Pass(p.nodes, kept + p.remaining, applied || p.applied)
  }

  lemma SweepBegins(ns: seq<Node>, ops: seq<Operation>, goal: Pass)
    requires PassSound(ns, ops) && goal == FlushPass(ns, ops)
    ensures Sweeping(ns, [], ops[0..], false, goal)
  {
    assert ops[0..] == ops && [] + goal.remaining == goal.remaining;
  }

  lemma SweepEnds(ns: seq<Node>, kept: seq<Operation>, rest: seq<Operation>, applied: bool, goal: Pass)
    requires rest == [] && Sweeping(ns, kept, rest, applied, goal)
    ensures goal == Pass(ns, kept, applied)
  {
    assert Unfold(SWEEP);
    assert kept + [] == kept;
  }

  lemma SweepKeeps(ns: seq<Node>, kept: seq<Operation>, rest: seq<Operation>, applied: bool, goal: Pass)
    requires rest != [] && !Ready(ns, rest[0]) && Sweeping(ns, kept, rest, applied, goal)
    ensures Sweeping(ns, kept + [rest[0]], rest[1..], applied, goal)
  {
    assert Unfold(SWEEP);
    var p := FlushPass(ns, rest[1..]);
    assert kept + ([rest[0]] + p.remaining) == kept + [rest[0]] + p.remaining;
  }

  lemma SweepMayPerform(ns: seq<Node>, kept: seq<Operation>, rest: seq<Operation>, applied: bool, goal: Pass)
    requires rest != [] && Ready(ns, rest[0]) && Sweeping(ns, kept, rest, applied, goal)
    ensures Ordered(ns) && (rest[0].opType.Insert? ==> rest[0].nodeId !in IdSet(ns))
  {
    assert Unfold(SWEEP);
  }

  lemma SweepPerforms(ns: seq<Node>, ms: seq<Node>, kept: seq<Operation>, rest: seq<Operation>, applied: bool, goal: Pass)
    requires rest != [] && Ready(ns, rest[0]) && ms == Perform(ns, rest[0]) && Sweeping(ns, kept, rest, applied, goal)
    ensures Sweeping(ms, kept, rest[1..], applied || !rest[0].opType.Other?, goal)
  {
    assert Unfold(SWEEP);
  }

  /** A local operation has a request id, and if an insert a node id, of its own. */
  lemma LocalIsCoherent(s: Rga, all: set<Operation>, op: Operation)
    requires s.seen == RequestIds(all) && IsLatest(s.counter, all) && Coherent(all) && op.requestId !in s.seen
    requires op.opType.Insert? ==> op.nodeId.timestamp > s.counter
    ensures Coherent(all + {op})
  {
    forall o | o in all
      ensures o.requestId != op.requestId && (op.opType.Insert? ==> o.nodeId != op.nodeId)
    {
      assert o.requestId in RequestIds(all);
    }
  }
}
