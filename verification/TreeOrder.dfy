/** The flat node list is the pre-order walk of the `after` tree.

    Each node is given its path of ids from the root.  The list is strictly sorted by
    `PathLess`, and the sibling scan finds the one position that keeps it so. */
module TreeOrder {
  import opened Ids
  import opened RgaModel

  type Paths = map<NodeId, Path>

  ghost function PathOf(pm: Paths, id: NodeId): Path
  {
    if id in pm then pm[id] else []
  }

  ghost function ParentPath(pm: Paths, after: Option<NodeId>): Path
  {
    if after.Some? then PathOf(pm, after.value) else []
  }

  /** The path of the node at position `i`. */
  ghost function At(ns: seq<Node>, pm: Paths, i: int): Path
  {
    if 0 <= i < |ns| then PathOf(pm, ns[i].id) else []
  }

  /** An anchor is the root or a node of the tree. */
  ghost predicate Anchored(pm: Paths, after: Option<NodeId>)
  {
    after.Some? ==> after.value in pm
  }

  /** The path of node `i` is its anchor's path followed by its own id. */
  ghost predicate Linked(ns: seq<Node>, pm: Paths, i: int)
  {
    && 0 <= i < |ns|
    && Anchored(pm, ns[i].after)
    && At(ns, pm, i) == ParentPath(pm, ns[i].after) + [ns[i].id]
  }

  ghost predicate Before(ns: seq<Node>, pm: Paths, i: int, j: int)
  {
    PathLess(At(ns, pm, i), At(ns, pm, j))
  }

  /** `pm` gives exactly the nodes of `ns` their paths, and `ns` is sorted by them. */
  ghost predicate Tree(ns: seq<Node>, pm: Paths)
  {
    && pm.Keys == IdSet(ns)
    && (forall i :: 0 <= i < |ns| ==> Linked(ns, pm, i))
    && (forall i, j :: 0 <= i < j < |ns| ==> Before(ns, pm, i, j))
  }

  ghost predicate Ordered(ns: seq<Node>)
  {
    exists pm :: Tree(ns, pm)
  }

  // ---------- Lookup ----------

  lemma HasIsMember(ns: seq<Node>, id: NodeId)
    ensures Has(ns, id) <==> id in IdSet(ns)
  {
    if id in IdSet(ns) {
      var i :| 0 <= i < |ns| && ns[i].id == id;
      assert i >= Find(ns, id);
    }
  }

  /** No id occurs twice, so an id's position is the one `Find` returns. */
  lemma FindAt(ns: seq<Node>, pm: Paths, i: nat)
    requires Tree(ns, pm) && i < |ns|
    ensures Find(ns, ns[i].id) == i
  {
    var k := Find(ns, ns[i].id);
    PathLessIrreflexive(At(ns, pm, i));
    assert k < i ==> Before(ns, pm, k, i);
  }

  /** A node of the tree has a position; its path is its anchor's path and its id. */
  lemma NodeAt(ns: seq<Node>, pm: Paths, id: NodeId) returns (k: nat)
    requires Tree(ns, pm) && id in pm
    ensures k == Find(ns, id) < |ns| && ns[k].id == id && Linked(ns, pm, k)
    ensures At(ns, pm, k) == pm[id] && pm[id] != [] && pm[id][|pm[id]| - 1] == id
  {
    HasIsMember(ns, id);
    k := Find(ns, id);
    assert Linked(ns, pm, k);
  }

  lemma PathOrderIsListOrder(ns: seq<Node>, pm: Paths, i: nat, j: nat)
    requires Tree(ns, pm) && i < |ns| && j < |ns|
    requires Before(ns, pm, i, j)
    ensures i < j
  {
    PathLessAsymmetric(At(ns, pm, i), At(ns, pm, j));
    assert j < i ==> Before(ns, pm, j, i);
  }

  /** A parent's index is below its child's: the recursion to ancestors terminates. */
  lemma ParentComesFirst(ns: seq<Node>, pm: Paths, i: nat)
    requires Tree(ns, pm) && i < |ns| && ns[i].after.Some?
    ensures Find(ns, ns[i].after.value) < i
  {
    assert Linked(ns, pm, i);
    var k := NodeAt(ns, pm, ns[i].after.value);
    AncestorFirst(At(ns, pm, k), At(ns, pm, i));
    PathOrderIsListOrder(ns, pm, k, i);
  }

  /** Every prefix of a path is itself the path of a node in the list. */
  lemma {:induction false} PrefixIsNode(ns: seq<Node>, pm: Paths, id: NodeId, m: nat)
    requires Tree(ns, pm) && id in pm && 0 < m <= |pm[id]|
    ensures pm[id][m - 1] in pm && pm[pm[id][m - 1]] == pm[id][..m]
    decreases |pm[id]|
  {
    var k := NodeAt(ns, pm, id);
    var p := ParentPath(pm, ns[k].after);
    assert pm[id] == p + [id];
    if m < |pm[id]| {
      PrefixIsNode(ns, pm, ns[k].after.value, m);
      assert pm[id][..m] == p[..m];
    } else {
      assert pm[id][..m] == pm[id];
    }
  }

  lemma SamePathSameAnchor(ns: seq<Node>, pm: Paths, a: Option<NodeId>, b: Option<NodeId>)
    requires Tree(ns, pm) && Anchored(pm, a) && Anchored(pm, b)
    requires ParentPath(pm, a) == ParentPath(pm, b)
    ensures a == b
  {
    if a.Some? {
      var _ := NodeAt(ns, pm, a.value);
    }
    if b.Some? {
      var _ := NodeAt(ns, pm, b.value);
    }
  }

  // ---------- Subtrees are blocks ----------

  lemma {:induction false} DescendantIsBelow(ns: seq<Node>, pm: Paths, i: nat, x: NodeId)
    requires Tree(ns, pm) && i < |ns| && x in pm
    ensures IsDescendantOf(ns, i, x) <==> pm[x] < At(ns, pm, i)
    decreases i
  {
    assert Linked(ns, pm, i);
    var _ := NodeAt(ns, pm, x);
    if ns[i].after.Some? {
      var a := ns[i].after.value;
      ParentComesFirst(ns, pm, i);
      var k := NodeAt(ns, pm, a);
      DescendantIsBelow(ns, pm, k, x);
      BelowChild(pm[x], pm[a], ns[i].id);
      if pm[x] == pm[a] {
        SamePathSameAnchor(ns, pm, Some(x), Some(a));
      }
    }
  }

  lemma BelowChild(p: Path, q: Path, id: NodeId)
    ensures p < q + [id] <==> p <= q
  {
  }

  /** A subtree is one contiguous block, and `SkipSubtree` returns exactly its end. */
  lemma SkipSubtreeIsBlockEnd(ns: seq<Node>, pm: Paths, i: nat, j: nat)
    requires Tree(ns, pm) && i < |ns| && j < |ns|
    ensures At(ns, pm, i) < At(ns, pm, j) <==> i < j < SkipSubtree(ns, i)
  {
    var x := ns[i].id;
    var k := SkipSubtree(ns, i);
    assert Linked(ns, pm, i);
    DescendantIsBelow(ns, pm, j, x);
    if At(ns, pm, i) < At(ns, pm, j) {
      AncestorFirst(At(ns, pm, i), At(ns, pm, j));
      PathOrderIsListOrder(ns, pm, i, j);
      if k < j {
        DescendantIsBelow(ns, pm, k, x);
        assert Before(ns, pm, i, k) && Before(ns, pm, k, j);
        BetweenIsBelow(At(ns, pm, i), At(ns, pm, k), At(ns, pm, j));
      }
    }
  }

  // ---------- The scan finds the sorted position ----------

  /** All nodes before position `k` precede the path `q`. */
  ghost predicate AllBefore(ns: seq<Node>, pm: Paths, k: nat, q: Path)
  {
    forall j :: 0 <= j < k ==> PathLess(At(ns, pm, j), q)
  }

  /** All nodes from position `k` on follow the path `q`. */
  ghost predicate AllAfter(ns: seq<Node>, pm: Paths, k: nat, q: Path)
  {
    forall j :: k <= j < |ns| ==> PathLess(q, At(ns, pm, j))
  }

  /** No subtree of a child of `after` reaches from before `k` to `k` or beyond. */
  ghost predicate NoStraddle(ns: seq<Node>, pm: Paths, k: nat, after: Option<NodeId>)
  {
    forall c, j :: 0 <= c < k <= j < |ns| && ns[c].after == after ==> !(At(ns, pm, c) < At(ns, pm, j))
  }

  /** What the scan knows at position `k`: all before it precede the new node, it is past
      the anchor, and no subtree of a sibling straddles it. */
  ghost predicate Scanned(ns: seq<Node>, pm: Paths, k: nat, after: Option<NodeId>, q: Path)
  {
    && AllBefore(ns, pm, k, q)
    && (after.Some? ==> Find(ns, after.value) < k)
    && NoStraddle(ns, pm, k, after)
  }

  lemma ScanBegins(ns: seq<Node>, pm: Paths, after: Option<NodeId>, id: NodeId)
    requires Tree(ns, pm) && Anchored(pm, after)
    ensures after.Some? ==> Has(ns, after.value)
    ensures Scanned(ns, pm, ScanStart(ns, after), after, ParentPath(pm, after) + [id])
  {
    if after.Some? {
      var q := pm[after.value] + [id];
      var f := NodeAt(ns, pm, after.value);
      AncestorFirst(pm[after.value], q);
      forall j | 0 <= j < f + 1
        ensures PathLess(At(ns, pm, j), q)
      {
        if j < f {
          assert Before(ns, pm, j, f);
          PathLessTransitive(At(ns, pm, j), At(ns, pm, f), q);
        }
      }
      forall c | 0 <= c < f + 1
        ensures ns[c].after != after
      {
        if ns[c].after == after {
          ParentComesFirst(ns, pm, c);
        }
      }
    }
  }

  /** A node strictly below the anchor, but no child of it, hangs below a child of it. */
  lemma ChildOnPath(ns: seq<Node>, pm: Paths, k: nat, after: Option<NodeId>) returns (c: nat)
    requires Tree(ns, pm) && k < |ns| && Anchored(pm, after)
    requires ParentPath(pm, after) < At(ns, pm, k)
    requires ns[k].after != after
    ensures c < k && ns[c].after == after && At(ns, pm, c) < At(ns, pm, k)
  {
    var p := ParentPath(pm, after);
    var e := At(ns, pm, k);
    var x := e[|p|];
    assert Linked(ns, pm, k);
    PrefixIsNode(ns, pm, ns[k].id, |p| + 1);
    c := NodeAt(ns, pm, x);
    assert pm[x] == p + [x];
    SamePathSameAnchor(ns, pm, ns[c].after, after);
    if |p| + 1 == |e| {
      assert e == p + [x];
      SamePathSameAnchor(ns, pm, ns[k].after, after);
    } else {
      AncestorFirst(pm[x], e);
      PathOrderIsListOrder(ns, pm, c, k);
    }
  }

  /** The scan stops at a node that is no child of the anchor: that node lies outside the
      anchor's subtree and follows the new node. */
  lemma ScanStopsOutside(ns: seq<Node>, pm: Paths, k: nat, after: Option<NodeId>, id: NodeId)
    requires Tree(ns, pm) && k < |ns| && Anchored(pm, after)
    requires Scanned(ns, pm, k, after, ParentPath(pm, after) + [id])
    requires ns[k].after != after
    ensures PathLess(ParentPath(pm, after) + [id], At(ns, pm, k))
  {
    var p := ParentPath(pm, after);
    var e := At(ns, pm, k);
    assert Linked(ns, pm, k);
    if after.Some? {
      var f := NodeAt(ns, pm, after.value);
      assert Before(ns, pm, f, k);
      PathLessIrreflexive(p);
    }
    if p < e {
      var c := ChildOnPath(ns, pm, k, after);
    } else {
      OutsideComesLater(p, e, p + [id]);
    }
  }

  /** Passing a sibling that has priority, with its whole subtree. */
  lemma ScanAdvances(ns: seq<Node>, pm: Paths, k: nat, after: Option<NodeId>, id: NodeId)
    requires Tree(ns, pm) && k < |ns| && Anchored(pm, after) && id !in pm
    requires Scanned(ns, pm, k, after, ParentPath(pm, after) + [id])
    requires ns[k].after == after && !Priority(id, ns[k].id)
    ensures Scanned(ns, pm, SkipSubtree(ns, k), after, ParentPath(pm, after) + [id])
  {
    var p := ParentPath(pm, after);
    var e := SkipSubtree(ns, k);
    assert Linked(ns, pm, k);
    PriorityIsStrictTotalOrder(id, ns[k].id, id);
    forall j | 0 <= j < e
      ensures PathLess(At(ns, pm, j), p + [id])
    {
      if k <= j {
        SkipSubtreeIsBlockEnd(ns, pm, k, j);
        SiblingFirst(p, ns[k].id, id, At(ns, pm, j), p + [id]);
      }
    }
    forall c, j | 0 <= c < e <= j < |ns| && ns[c].after == after
      ensures !(At(ns, pm, c) < At(ns, pm, j))
    {
      SkippedHasNoOtherChild(ns, pm, k, c, j);
    }
  }

  lemma SkippedHasNoOtherChild(ns: seq<Node>, pm: Paths, k: nat, c: nat, j: nat)
    requires Tree(ns, pm) && k < |ns| && c < SkipSubtree(ns, k) <= j < |ns|
    requires ns[c].after == ns[k].after
    requires NoStraddle(ns, pm, k, ns[k].after)
    ensures !(At(ns, pm, c) < At(ns, pm, j))
  {
    if k <= c {
      assert Linked(ns, pm, k) && Linked(ns, pm, c);
      assert |At(ns, pm, k)| == |At(ns, pm, c)|;
      SkipSubtreeIsBlockEnd(ns, pm, k, c);
      SkipSubtreeIsBlockEnd(ns, pm, k, j);
      assert c == k;
    }
  }

  lemma {:induction false} ScanSplits(ns: seq<Node>, pm: Paths, k: nat, after: Option<NodeId>, id: NodeId)
    requires Tree(ns, pm) && k <= |ns| && Anchored(pm, after) && id !in pm
    requires Scanned(ns, pm, k, after, ParentPath(pm, after) + [id])
    ensures AllBefore(ns, pm, Scan(ns, k, after, id), ParentPath(pm, after) + [id])
    ensures AllAfter(ns, pm, Scan(ns, k, after, id), ParentPath(pm, after) + [id])
    decreases |ns| - k
  {
    var p := ParentPath(pm, after);
    if k < |ns| {
      if ns[k].after == after && !Priority(id, ns[k].id) {
        ScanAdvances(ns, pm, k, after, id);
        ScanSplits(ns, pm, SkipSubtree(ns, k), after, id);
      } else {
        if ns[k].after == after {
          assert Linked(ns, pm, k);
          SiblingFirst(p, id, ns[k].id, p + [id], At(ns, pm, k));
        } else {
          ScanStopsOutside(ns, pm, k, after, id);
        }
        RestFollows(ns, pm, k, p + [id]);
      }
    }
  }

  lemma RestFollows(ns: seq<Node>, pm: Paths, k: nat, q: Path)
    requires Tree(ns, pm) && k < |ns| && PathLess(q, At(ns, pm, k))
    ensures AllAfter(ns, pm, k, q)
  {
    forall j | k < j < |ns|
      ensures PathLess(q, At(ns, pm, j))
    {
      assert Before(ns, pm, k, j);
      PathLessTransitive(q, At(ns, pm, k), At(ns, pm, j));
    }
  }

  // ---------- Inserting and deleting keep the order ----------

  ghost function Extend(pm: Paths, op: Operation): Paths
  {
    pm[op.nodeId := ParentPath(pm, op.after) + [op.nodeId]]
  }

  lemma InsertAtIds(ns: seq<Node>, r: nat, n: Node)
    requires r <= |ns|
    ensures IdSet(InsertAt(ns, r, n)) == IdSet(ns) + {n.id}
  {
    var ms := InsertAt(ns, r, n);
    assert ms[r] == n;
    forall i | 0 <= i < |ns|
      ensures ns[i].id in IdSet(ms)
    {
      assert ms[if i < r then i else i + 1] == ns[i];
    }
  }

  /** Where the nodes of the old list are in the new one, with their paths. */
  lemma InsertAtPaths(ns: seq<Node>, pm: Paths, op: Operation, r: nat, i: nat)
    requires Tree(ns, pm) && r <= |ns| && op.nodeId !in pm && i <= |ns|
    ensures var ms := InsertAt(ns, r, NewNode(op));
            var pm' := Extend(pm, op);
            if i == r then ms[i] == NewNode(op) && At(ms, pm', i) == ParentPath(pm, op.after) + [op.nodeId]
            else var i0 := if i < r then i else i - 1; ms[i] == ns[i0] && At(ms, pm', i) == At(ns, pm, i0)
  {
    if i != r {
      assert Linked(ns, pm, if i < r then i else i - 1);
    }
  }

  lemma InsertAtKeepsTree(ns: seq<Node>, pm: Paths, op: Operation, r: nat)
    requires Tree(ns, pm) && r <= |ns| && op.nodeId !in pm && Anchored(pm, op.after)
    requires AllBefore(ns, pm, r, ParentPath(pm, op.after) + [op.nodeId])
    requires AllAfter(ns, pm, r, ParentPath(pm, op.after) + [op.nodeId])
    ensures Tree(InsertAt(ns, r, NewNode(op)), Extend(pm, op))
  {
    var ms := InsertAt(ns, r, NewNode(op));
    var pm' := Extend(pm, op);
    InsertAtIds(ns, r, NewNode(op));
    forall i | 0 <= i < |ms|
      ensures Linked(ms, pm', i)
    {
      InsertAtPaths(ns, pm, op, r, i);
      assert i != r ==> Linked(ns, pm, if i < r then i else i - 1);
    }
    forall i, j | 0 <= i < j < |ms|
      ensures Before(ms, pm', i, j)
    {
      InsertAtPaths(ns, pm, op, r, i);
      InsertAtPaths(ns, pm, op, r, j);
      assert i != r && j != r ==> Before(ns, pm, if i < r then i else i - 1, if j < r then j else j - 1);
    }
  }

  /** Inserting a fresh node by the scan keeps the list a pre-order walk. */
  lemma ApplyInsertKeepsTree(ns: seq<Node>, pm: Paths, op: Operation)
    requires Tree(ns, pm) && op.nodeId !in pm && Anchored(pm, op.after)
    ensures op.after.Some? ==> Has(ns, op.after.value)
    ensures Tree(ApplyInsert(ns, op), Extend(pm, op))
  {
    ScanBegins(ns, pm, op.after, op.nodeId);
    ScanSplits(ns, pm, ScanStart(ns, op.after), op.after, op.nodeId);
    InsertAtKeepsTree(ns, pm, op, Scan(ns, ScanStart(ns, op.after), op.after, op.nodeId));
  }

  lemma ApplyDeleteKeepsTree(ns: seq<Node>, pm: Paths, id: NodeId)
    requires Tree(ns, pm)
    ensures Tree(ApplyDelete(ns, id), pm)
    ensures IdSet(ApplyDelete(ns, id)) == IdSet(ns)
  {
    var ms := ApplyDelete(ns, id);
    assert forall i :: 0 <= i < |ns| ==> ms[i].id == ns[i].id && ms[i].after == ns[i].after;
    forall i | 0 <= i < |ns|
      ensures Linked(ms, pm, i)
    {
      assert Linked(ns, pm, i);
    }
    forall i, j | 0 <= i < j < |ns|
      ensures Before(ms, pm, i, j)
    {
      assert Before(ns, pm, i, j);
    }
  }
}
