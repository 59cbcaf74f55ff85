/** Snapshots of a replica: what `Export` writes and `ImportRGA` reads back. */
module Snapshots {
  import opened Ids
  import opened RgaModel
  import opened Buffering

  /** A node as persisted: the value is a text, and old data carries no rights flag. */
  datatype NodeSnapshot = NodeSnapshot(
    id: NodeId, after: Option<NodeId>, value: string, deleted: bool, authenticated: Option<bool>)

  /** A replica as persisted: the seen ids are listed in no particular order. */
  datatype RgaSnapshot = RgaSnapshot(
    replicaId: SiteId, counter: nat, nodes: seq<NodeSnapshot>, seen: seq<string>, pending: seq<Operation>)

  const REPLACEMENT := '\U{FFFD}'

  /** The first character of a text, or the replacement character of an empty one. */
  function FirstRune(s: string): char
  {
    if s == "" then REPLACEMENT else s[0]
  }

  function ExportNode(n: Node): NodeSnapshot
  {
    NodeSnapshot(n.id, n.after, [n.value], n.deleted, Some(n.authenticated))
  }

  /** Nodes written before rights were recorded count as authenticated. */
  function ImportNode(n: NodeSnapshot): Node
  {
    Node(n.id, n.after, FirstRune(n.value), n.deleted, if n.authenticated.Some? then n.authenticated.value else true)
  }

  function ImportNodes(ns: seq<NodeSnapshot>): seq<Node>
  {
    seq(|ns|, i requires 0 <= i < |ns| => ImportNode(ns[i]))
  }

  /** What importing a snapshot yields. */
  ghost function Imported(snap: RgaSnapshot): Rga
  {
    Rga(snap.counter, ImportNodes(snap.nodes), Elements(snap.seen), snap.pending)
  }

  /** The snapshot is one that exporting `s` may write. */
  ghost predicate Represents(snap: RgaSnapshot, s: Rga)
  {
    && snap.counter == s.counter
    && |snap.nodes| == |s.nodes| && (forall i :: 0 <= i < |s.nodes| ==> snap.nodes[i] == ExportNode(s.nodes[i]))
    && Elements(snap.seen) == s.seen
    && snap.pending == s.pending
  }

  /** What is read of a node: the first character of its text, the replacement character for an
      empty one, and authenticated rights unless the snapshot denies them. */
  lemma NodesAsRead(snap: RgaSnapshot, i: nat)
    requires i < |snap.nodes|
    ensures |Imported(snap).nodes| == |snap.nodes|
    ensures var m, n := snap.nodes[i], Imported(snap).nodes[i];
            && n.id == m.id && n.after == m.after && n.deleted == m.deleted
            && (m.value != "" ==> n.value == m.value[0]) && (m.value == "" ==> n.value == '\U{FFFD}')
            && (n.authenticated <==> m.authenticated != Some(false))
  {
  }

  /** What each `Apply` of a run returns. */
  function Answers(s: Rga, ops: seq<Operation>): seq<bool>
    decreases |ops|
  {
    if ops == [] then [] else [Accepts(s, ops[0])] + Answers(Apply(s, ops[0]), ops[1..])
  }

  /** Export then import loses nothing, so the restored replica answers every later run of
      operations like the original and shows the same text, whatever was still buffered. */
  lemma RestoredReplicaBehavesAlike(snap: RgaSnapshot, s: Rga, ops: seq<Operation>)
    requires Represents(snap, s)
    ensures Imported(snap) == s
    ensures Answers(Imported(snap), ops) == Answers(s, ops)
    ensures Text(ApplyAll(Imported(snap), ops).nodes) == Text(ApplyAll(s, ops).nodes)
  {
    forall i | 0 <= i < |s.nodes|
      ensures ImportNodes(snap.nodes)[i] == s.nodes[i]
    {
      assert snap.nodes[i] == ExportNode(s.nodes[i]);
    }
    assert ImportNodes(snap.nodes) == s.nodes;
  }

  // ---------- Writing and reading ----------

  method ExportState(site: SiteId, s: Rga) returns (snap: RgaSnapshot)
    ensures Represents(snap, s) && snap.replicaId == site
  {
    var ns: seq<NodeSnapshot> := [];
    var i := 0;
    while i < |s.nodes|
      invariant i <= |s.nodes| && |ns| == i
      invariant forall j :: 0 <= j < i ==> ns[j] == ExportNode(s.nodes[j])
    {
      ns := ns + [ExportNode(s.nodes[i])];
      i := i + 1;
    }
    var ids: seq<string> := [];
    var todo := s.seen;
    while todo != {}
      invariant todo <= s.seen && Elements(ids) == s.seen - todo
    {
      var id :| id in todo;
      ElementsConcat(ids, [id]);
      ids := ids + [id];
      todo := todo - {id};
    }
    snap := RgaSnapshot(site, s.counter, ns, ids, s.pending);
  }

  method ImportState(snap: RgaSnapshot) returns (s: Rga)
    ensures s == Imported(snap)
  {
    var ns: seq<Node> := [];
    var i := 0;
    while i < |snap.nodes|
      invariant i <= |snap.nodes| && |ns| == i
      invariant forall j :: 0 <= j < i ==> ns[j] == ImportNode(snap.nodes[j])
    {
      ns := ns + [ImportNode(snap.nodes[i])];
      i := i + 1;
    }
    var ids: set<string> := {};
    i := 0;
    while i < |snap.seen|
      invariant i <= |snap.seen| && ids == Elements(snap.seen[..i])
    {
      assert snap.seen[..i + 1] == snap.seen[..i] + [snap.seen[i]];
      ids := ids + {snap.seen[i]};
      i := i + 1;
    }
    assert snap.seen[..i] == snap.seen && ns == ImportNodes(snap.nodes);
    s := Rga(snap.counter, ns, ids, snap.pending);
  }
}
