/** The replicated growable array as a value: what one operation does to a replica.

    These functions follow the code of the server (`crdt.go`) and of the browser
    (`rga.ts`) branch by branch; the classes of `Replica.dfy` and `ClientReplica.dfy`
    are proved equal to them. */
module RgaModel {
  import opened Ids

  datatype OpType = Insert | Delete | Other(code: int)

  /** An operation.  For a delete `nodeId` is the target and `after`, `value` are unused. */
  datatype Operation = Operation(
    requestId: string, opType: OpType, nodeId: NodeId, after: Option<NodeId>, value: char, authenticated: bool)

  datatype Node = Node(
    id: NodeId, after: Option<NodeId>, value: char, deleted: bool, authenticated: bool)

  /** A replica: Lamport counter, flat list with tombstones, request ids seen, and the
      operations whose anchor or target has not arrived. */
  datatype Rga = Rga(counter: nat, nodes: seq<Node>, seen: set<string>, pending: seq<Operation>)

  const Empty := Rga(0, [], {}, [])

  // ---------- Looking up nodes ----------

  ghost function IdSet(ns: seq<Node>): (s: set<NodeId>)
  {
    set i | 0 <= i < |ns| :: ns[i].id
  }

  /** The position of an id, or the length of the list when it is absent. */
  function Find(ns: seq<Node>, id: NodeId): (k: nat)
    ensures k <= |ns|
    ensures forall i :: 0 <= i < k ==> ns[i].id != id
    ensures k < |ns| ==> ns[k].id == id
  {
    if ns == [] then 0
    else if ns[0].id == id then 0
    else
      var k := Find(ns[1..], id);
      assert forall i :: 0 < i < k + 1 ==> ns[i] == ns[1..][i - 1];
      k + 1
  }

  predicate Has(ns: seq<Node>, id: NodeId)
  {
    Find(ns, id) < |ns|
  }

  // ---------- Placing an insert ----------

  /** Whether the node at `i` hangs below `parent`.  The guard on the ancestor's position
      is always true of a reachable list (`TreeOrder.ParentComesFirst`). */
  predicate IsDescendantOf(ns: seq<Node>, i: nat, parent: NodeId)
    requires i < |ns|
    decreases i
  {
    match ns[i].after
    case None => false
    case Some(a) =>
      a == parent || (var j := Find(ns, a); j < i && IsDescendantOf(ns, j, parent))
  }

  /** The first position from `i` on that does not hang below `parent`. */
  function SkipFrom(ns: seq<Node>, i: nat, parent: NodeId): (k: nat)
    requires i <= |ns|
    ensures i <= k <= |ns|
    ensures forall j :: i <= j < k ==> IsDescendantOf(ns, j, parent)
    ensures k < |ns| ==> !IsDescendantOf(ns, k, parent)
    decreases |ns| - i
  {
    if i < |ns| && IsDescendantOf(ns, i, parent) then SkipFrom(ns, i + 1, parent) else i
  }

  function SkipSubtree(ns: seq<Node>, i: nat): (k: nat)
    requires i < |ns|
    ensures i < k <= |ns|
  {
    SkipFrom(ns, i + 1, ns[i].id)
  }

  /** The sibling scan: from `k` on, pass each sibling that has priority, with its subtree. */
  function Scan(ns: seq<Node>, k: nat, after: Option<NodeId>, id: NodeId): (r: nat)
    requires k <= |ns|
    ensures k <= r <= |ns|
    decreases |ns| - k
  {
    if k < |ns| && ns[k].after == after && !Priority(id, ns[k].id)
    then Scan(ns, SkipSubtree(ns, k), after, id)
    else k
  }

  function ScanStart(ns: seq<Node>, after: Option<NodeId>): (k: nat)
    requires after.Some? ==> Has(ns, after.value)
    ensures k <= |ns|
  {
    if after.Some? then Find(ns, after.value) + 1 else 0
  }

  function NewNode(op: Operation): Node
  {
    Node(op.nodeId, op.after, op.value, false, op.authenticated)
  }

  function InsertAt(ns: seq<Node>, k: nat, n: Node): seq<Node>
    requires k <= |ns|
  {
    ns[..k] + [n] + ns[k..]
  }

  function ApplyInsert(ns: seq<Node>, op: Operation): seq<Node>
    requires op.after.Some? ==> Has(ns, op.after.value)
  {
    InsertAt(ns, Scan(ns, ScanStart(ns, op.after), op.after, op.nodeId), NewNode(op))
  }

  function ApplyDelete(ns: seq<Node>, id: NodeId): seq<Node>
  {
    var k := Find(ns, id);
    if k < |ns| then ns[k := ns[k].(deleted := true)] else ns
  }

  // ---------- Buffering ----------

  /** Whether an operation's anchor or target has arrived. */
  predicate Ready(ns: seq<Node>, op: Operation)
  {
    match op.opType
    case Insert => op.after.Some? ==> Has(ns, op.after.value)
    case Delete => Has(ns, op.nodeId)
    case Other(_) => true
  }

  function Perform(ns: seq<Node>, op: Operation): seq<Node>
    requires Ready(ns, op)
  {
    match op.opType
    case Insert => ApplyInsert(ns, op)
    case Delete => ApplyDelete(ns, op.nodeId)
    case Other(_) => ns
  }

  datatype Pass = Pass(nodes: seq<Node>, remaining: seq<Operation>, applied: bool)

  /** One sweep over the buffer: ready operations are performed, the others kept in order. */
  function FlushPass(ns: seq<Node>, ops: seq<Operation>): (p: Pass)
    ensures |p.remaining| <= |ops|
    ensures p.applied ==> |p.remaining| < |ops|
    decreases |ops|
  {
    if ops == [] then Pass(ns, [], false)
    else if Ready(ns, ops[0]) then
      var p := FlushPass(Perform(ns, ops[0]), ops[1..]);
      p.(applied := p.applied || !ops[0].opType.Other?)
    else
      var p := FlushPass(ns, ops[1..]);
      p.(remaining := [ops[0]] + p.remaining)
  }

  /** Sweeps until a sweep applies nothing. */
  function Flush(ns: seq<Node>, ops: seq<Operation>): Pass
    decreases |ops|
  {
    var p := FlushPass(ns, ops);
    if p.applied then Flush(p.nodes, p.remaining) else p
  }

  // ---------- Applying an operation ----------

  function Max(a: nat, b: nat): nat
  {
    if a > b then a else b
  }

  /** The replica after an operation; an operation whose request id was seen changes nothing. */
  function Apply(s: Rga, op: Operation): Rga
  {
    if op.requestId in s.seen then s
    else
      var s1 := s.(seen := s.seen + {op.requestId}, counter := Max(s.counter, op.nodeId.timestamp));
      if !Ready(s.nodes, op) then s1.(pending := s.pending + [op])
      else match op.opType
        case Insert =>
          var p := Flush(Perform(s.nodes, op), s.pending);
          s1.(nodes := p.nodes, pending := p.remaining)
        case Delete => s1.(nodes := Perform(s.nodes, op))
        case Other(_) => s1
  }

  /** What `Apply` returns: whether the request id was new. */
  predicate Accepts(s: Rga, op: Operation)
  {
    op.requestId !in s.seen
  }

  function ApplyAll(s: Rga, ops: seq<Operation>): Rga
    decreases |ops|
  {
    if ops == [] then s else ApplyAll(Apply(s, ops[0]), ops[1..])
  }

  // ---------- Reading the document ----------

  function Visible(ns: seq<Node>): seq<Node>
  {
    if ns == [] then []
    else if ns[0].deleted then Visible(ns[1..])
    else [ns[0]] + Visible(ns[1..])
  }

  function Values(ns: seq<Node>): string
  {
    seq(|ns|, i requires 0 <= i < |ns| => ns[i].value)
  }

  function Text(ns: seq<Node>): string
  {
    Values(Visible(ns))
  }
}
