/** Replicas that have received the same edits hold the same document. */
module Convergence {
  import opened Ids
  import opened RgaModel
  import opened TreeOrder
  import opened Buffering

  /** What an insert asks of the document, without its request id and author's rights. */
  datatype Insertion = Insertion(id: NodeId, after: Option<NodeId>, value: char)

  ghost function InsertionOf(op: Operation): Insertion
  {
    Insertion(op.nodeId, op.after, op.value)
  }

  ghost function Inserts(all: set<Operation>): set<Insertion>
  {
    set o | o in all && o.opType.Insert? :: InsertionOf(o)
  }

  /** The nodes that deletes target. */
  ghost function Deletes(all: set<Operation>): set<NodeId>
  {
    set o | o in all && o.opType.Delete? :: o.nodeId
  }

  ghost predicate SameEdits(all: set<Operation>, all': set<Operation>)
  {
    Inserts(all) == Inserts(all') && Deletes(all) == Deletes(all')
  }

  /** What readers see of a node and what places it; all but the author's rights. */
  datatype View = View(id: NodeId, after: Option<NodeId>, value: char, deleted: bool)

  function ViewOf(n: Node): View
  {
    View(n.id, n.after, n.value, n.deleted)
  }

  function Views(ns: seq<Node>): seq<View>
  {
    seq(|ns|, i requires 0 <= i < |ns| => ViewOf(ns[i]))
  }

  /** List and buffer of a replica that has received `all`. */
  ghost predicate Stable(ns: seq<Node>, held: seq<Operation>, all: set<Operation>)
  {
    Coherent(all) && Split(ns, Elements(held), all) && Settled(ns, held)
  }

  lemma SameInsert(all: set<Operation>, all': set<Operation>, o: Operation) returns (o': Operation)
    requires Inserts(all) == Inserts(all') && o in all && o.opType.Insert?
    ensures o' in all' && o'.opType.Insert? && InsertionOf(o') == InsertionOf(o)
  {
    assert InsertionOf(o) in Inserts(all');
    o' :| o' in all' && o'.opType.Insert? && InsertionOf(o') == InsertionOf(o);
  }

  lemma SourceOf(n: Node, all: set<Operation>) returns (o: Operation)
    requires Sourced(n, all)
    ensures o in all && o.opType.Insert? && NewNode(o) == n.(deleted := false)
  {
    o :| o in all && o.opType.Insert? && NewNode(o) == n.(deleted := false);
  }

  // ---------- The same ids ----------

  lemma {:induction false} SameIds(ns: seq<Node>, held: seq<Operation>, all: set<Operation>, pm: Paths,
                                   ms: seq<Node>, held': seq<Operation>, all': set<Operation>, x: NodeId)
    requires Stable(ns, held, all) && Stable(ms, held', all') && Inserts(all) == Inserts(all')
    requires Tree(ns, pm) && x in pm
    ensures x in IdSet(ms)
    decreases |pm[x]|
  {
    var k := NodeAt(ns, pm, x);
    assert ns[k] in ns;
    var o := SourceOf(ns[k], all);
    var o' := SameInsert(all, all', o);
    if o'.after.Some? {
      SameIds(ns, held, all, pm, ms, held', all', o'.after.value);
      HasIsMember(ms, o'.after.value);
    }
    assert Ready(ms, o') && Accounted(ms, Elements(held'), o');
    assert o' !in Elements(held');
  }

  lemma SameIdSets(ns: seq<Node>, held: seq<Operation>, all: set<Operation>,
                   ms: seq<Node>, held': seq<Operation>, all': set<Operation>)
    requires Stable(ns, held, all) && Stable(ms, held', all') && Inserts(all) == Inserts(all')
    ensures IdSet(ns) == IdSet(ms)
  {
    var pm :| Tree(ns, pm);
    var pm' :| Tree(ms, pm');
    forall x | x in IdSet(ns)
      ensures x in IdSet(ms)
    {
      SameIds(ns, held, all, pm, ms, held', all', x);
    }
    forall x | x in IdSet(ms)
      ensures x in IdSet(ns)
    {
      SameIds(ms, held', all', pm', ns, held, all, x);
    }
  }

  // ---------- The same node for the same id ----------

  /** A node is a tombstone exactly when a received delete targets it. */
  lemma TombstoneIsExact(ns: seq<Node>, held: seq<Operation>, all: set<Operation>, i: nat)
    requires Stable(ns, held, all) && i < |ns|
    ensures ns[i].deleted <==> ns[i].id in Deletes(all)
  {
    assert ns[i] in ns;
    if ns[i].id in Deletes(all) {
      var d :| d in all && d.opType.Delete? && d.nodeId == ns[i].id;
      HasIsMember(ns, d.nodeId);
      assert Ready(ns, d) && Accounted(ns, Elements(held), d);
      assert d !in Elements(held);
      OneNodePerId(ns, i);
    }
  }

  lemma OneNodePerId(ns: seq<Node>, i: nat)
    requires Ordered(ns) && i < |ns|
    ensures Tombstoned(ns, ns[i].id) ==> ns[i].deleted
  {
    if Tombstoned(ns, ns[i].id) {
      var n :| n in ns && n.id == ns[i].id && n.deleted;
      var j :| 0 <= j < |ns| && ns[j] == n;
      var pm :| Tree(ns, pm);
      FindAt(ns, pm, i);
      FindAt(ns, pm, j);
    }
  }

  // ---------- The document, in terms of the edits ----------

  /** The node carries what the insert said. */
  predicate Makes(o: Operation, n: Node)
  {
    o.opType == Insert && o.nodeId == n.id && o.after == n.after && o.value == n.value && o.authenticated == n.authenticated
  }

  predicate Removes(o: Operation, n: Node)
  {
    o.opType == Delete && o.nodeId == n.id
  }

  /** No node is there for the operation to go by. */
  predicate LacksNode(ns: seq<Node>, id: NodeId)
  {
    forall n :: n in ns ==> n.id != id
  }

  lemma LacksExactly(ns: seq<Node>, id: NodeId)
    ensures LacksNode(ns, id) <==> id !in IdSet(ns)
    ensures LacksNode(ns, id) <==> !Has(ns, id)
  {
    HasIsMember(ns, id);
  }

  lemma NodeIsItsEdits(s: Rga, all: set<Operation>, i: nat)
    requires Holds(s, all) && Coherent(all) && i < |s.nodes|
    ensures exists o :: o in all && Makes(o, s.nodes[i])
    ensures s.nodes[i].deleted <==> exists d :: d in all && Removes(d, s.nodes[i])
  {
    assert s.nodes[i] in s.nodes;
    var o := SourceOf(s.nodes[i], all);
    assert Makes(o, s.nodes[i]);
    TombstoneIsExact(s.nodes, s.pending, all, i);
    if s.nodes[i].deleted {
      var d :| d in all && d.opType.Delete? && d.nodeId == s.nodes[i].id;
      assert Removes(d, s.nodes[i]);
    }
  }

  /** Whatever the order of arrival: each node is what its insert said, deleted exactly when a delete
      of it was received; an insert is missing exactly when it is buffered, and what is buffered
      waits for a node that is not there. */
  lemma DocumentIsItsEdits(s: Rga, all: set<Operation>)
    requires Holds(s, all) && Coherent(all)
    ensures forall n :: n in s.nodes ==>
      && (exists o :: o in all && Makes(o, n))
      && (n.deleted <==> exists d :: d in all && Removes(d, n))
    ensures forall o :: o in all && o.opType == Insert ==> (o in s.pending <==> LacksNode(s.nodes, o.nodeId))
    ensures forall o :: o in s.pending ==>
      && o in all
      && if o.opType == Insert then o.after.Some? && LacksNode(s.nodes, o.after.value) else o.opType == Delete && LacksNode(s.nodes, o.nodeId)
  {
    forall n | n in s.nodes
      ensures exists o :: o in all && Makes(o, n)
      ensures n.deleted <==> exists d :: d in all && Removes(d, n)
    {
      var i :| 0 <= i < |s.nodes| && s.nodes[i] == n;
      NodeIsItsEdits(s, all, i);
    }
    forall o | o in all && o.opType == Insert
      ensures o in s.pending <==> LacksNode(s.nodes, o.nodeId)
    {
      LacksExactly(s.nodes, o.nodeId);
      assert Accounted(s.nodes, Elements(s.pending), o);
    }
    forall o | o in s.pending
      ensures o in all
      ensures if o.opType == Insert then o.after.Some? && LacksNode(s.nodes, o.after.value) else o.opType == Delete && LacksNode(s.nodes, o.nodeId)
    {
      assert o in Elements(s.pending);
      if o.opType == Insert && o.after.Some? {
        LacksExactly(s.nodes, o.after.value);
      } else {
        LacksExactly(s.nodes, o.nodeId);
      }
    }
  }

  /** The same id means the same anchor and value. */
  lemma SameNode(ns: seq<Node>, held: seq<Operation>, all: set<Operation>, i: nat,
                 ms: seq<Node>, held': seq<Operation>, all': set<Operation>, j: nat)
    requires Stable(ns, held, all) && Stable(ms, held', all') && Inserts(all) == Inserts(all')
    requires i < |ns| && j < |ms| && ns[i].id == ms[j].id
    ensures ns[i].after == ms[j].after && ns[i].value == ms[j].value
    ensures all <= all' ==> ns[i].authenticated == ms[j].authenticated
  {
    assert ns[i] in ns && ms[j] in ms;
    var o := SourceOf(ns[i], all);
    var o' := SourceOf(ms[j], all');
    var o'' := SameInsert(all, all', o);
    assert o'' == o';
  }

  // ---------- The same order ----------

  ghost predicate SameAnchors(ns: seq<Node>, ms: seq<Node>)
  {
    forall i, j :: 0 <= i < |ns| && 0 <= j < |ms| && ns[i].id == ms[j].id ==> ns[i].after == ms[j].after
  }

  /** A node's path depends only on the anchors along it. */
  lemma {:induction false} SamePath(ns: seq<Node>, pm: Paths, ms: seq<Node>, pm': Paths, x: NodeId)
    requires Tree(ns, pm) && Tree(ms, pm') && IdSet(ns) == IdSet(ms) && SameAnchors(ns, ms) && x in pm
    ensures pm[x] == pm'[x]
    decreases |pm[x]|
  {
    var i := NodeAt(ns, pm, x);
    var j := NodeAt(ms, pm', x);
    assert ns[i].after == ms[j].after;
    if ns[i].after.Some? {
      SamePath(ns, pm, ms, pm', ns[i].after.value);
    }
  }

  ghost predicate Ascending(ps: seq<Path>)
  {
    forall i, j :: 0 <= i < j < |ps| ==> PathLess(ps[i], ps[j])
  }

  lemma LeastIsFirst(ps: seq<Path>, qs: seq<Path>)
    requires Ascending(ps) && Ascending(qs) && ps != [] && qs != []
    requires ps[0] in qs && qs[0] in ps
    ensures ps[0] == qs[0]
  {
    var i :| 0 <= i < |ps| && ps[i] == qs[0];
    var j :| 0 <= j < |qs| && qs[j] == ps[0];
    if i > 0 && j > 0 {
      PathLessAsymmetric(ps[0], ps[i]);
    }
  }

  /** Two sorted lists with the same elements are the same list. */
  lemma {:induction false} SortedListIsUnique(ps: seq<Path>, qs: seq<Path>)
    requires Ascending(ps) && Ascending(qs) && Elements(ps) == Elements(qs)
    ensures ps == qs
  {
    if ps == [] || qs == [] {
      assert (ps == [] <==> Elements(ps) == {}) && (qs == [] <==> Elements(qs) == {}) by {
        NoElements(ps);
        NoElements(qs);
      }
    } else {
      assert ps[0] in Elements(qs) && qs[0] in Elements(ps);
      LeastIsFirst(ps, qs);
      TailElements(ps);
      TailElements(qs);
      SortedListIsUnique(ps[1..], qs[1..]);
      assert ps == [ps[0]] + ps[1..] && qs == [qs[0]] + qs[1..];
    }
  }

  lemma NoElements<T>(q: seq<T>)
    ensures q == [] <==> Elements(q) == {}
  {
    if q != [] {
      assert q[0] in Elements(q);
    }
  }

  lemma TailElements(ps: seq<Path>)
    requires Ascending(ps) && ps != []
    ensures Elements(ps[1..]) == Elements(ps) - {ps[0]}
  {
    PathLessIrreflexive(ps[0]);
    assert ps == [ps[0]] + ps[1..];
  }

  ghost function PathList(ns: seq<Node>, pm: Paths): seq<Path>
  {
    seq(|ns|, i requires 0 <= i < |ns| => At(ns, pm, i))
  }

  lemma PathListIsSorted(ns: seq<Node>, pm: Paths)
    requires Tree(ns, pm)
    ensures Ascending(PathList(ns, pm)) && Elements(PathList(ns, pm)) == (set x | x in pm :: pm[x])
  {
    var ps := PathList(ns, pm);
    forall i, j | 0 <= i < j < |ps|
      ensures PathLess(ps[i], ps[j])
    {
      assert Before(ns, pm, i, j);
    }
    forall i | 0 <= i < |ns|
      ensures ns[i].id in pm && ps[i] == pm[ns[i].id]
    {
      assert ns[i].id in IdSet(ns);
    }
    forall x | x in pm
      ensures pm[x] in ps
    {
      var k := NodeAt(ns, pm, x);
      assert ps[k] == pm[x];
    }
  }

  lemma SameIdSequence(ns: seq<Node>, ms: seq<Node>, pm: Paths)
    requires Tree(ns, pm) && Tree(ms, pm)
    ensures |ns| == |ms| && forall i :: 0 <= i < |ns| ==> ns[i].id == ms[i].id
  {
    PathListIsSorted(ns, pm);
    PathListIsSorted(ms, pm);
    SortedListIsUnique(PathList(ns, pm), PathList(ms, pm));
    assert |PathList(ns, pm)| == |ns| && |PathList(ms, pm)| == |ms|;
    forall i | 0 <= i < |ns|
      ensures ns[i].id == ms[i].id
    {
      assert PathList(ns, pm)[i] == PathList(ms, pm)[i];
      assert Linked(ns, pm, i) && Linked(ms, pm, i);
      assert At(ns, pm, i)[|At(ns, pm, i)| - 1] == ns[i].id;
    }
  }

  // ---------- Convergence ----------

  lemma SamePaths(ns: seq<Node>, pm: Paths, ms: seq<Node>, pm': Paths)
    requires Tree(ns, pm) && Tree(ms, pm') && IdSet(ns) == IdSet(ms) && SameAnchors(ns, ms)
    ensures pm == pm'
  {
    forall x | x in pm
      ensures pm[x] == pm'[x]
    {
      SamePath(ns, pm, ms, pm', x);
    }
  }

  lemma AnchorsAgree(ns: seq<Node>, held: seq<Operation>, all: set<Operation>,
                     ms: seq<Node>, held': seq<Operation>, all': set<Operation>)
    requires Stable(ns, held, all) && Stable(ms, held', all') && Inserts(all) == Inserts(all')
    ensures SameAnchors(ns, ms)
  {
    forall i, j | 0 <= i < |ns| && 0 <= j < |ms| && ns[i].id == ms[j].id
      ensures ns[i].after == ms[j].after
    {
      SameNode(ns, held, all, i, ms, held', all', j);
    }
  }

  lemma SameIdList(ns: seq<Node>, held: seq<Operation>, all: set<Operation>,
                   ms: seq<Node>, held': seq<Operation>, all': set<Operation>)
    requires Stable(ns, held, all) && Stable(ms, held', all') && Inserts(all) == Inserts(all')
    ensures |ns| == |ms| && forall i :: 0 <= i < |ns| ==> ns[i].id == ms[i].id
  {
    SameIdSets(ns, held, all, ms, held', all');
    AnchorsAgree(ns, held, all, ms, held', all');
    OrderedIsUnique(ns, ms);
  }

  /** A pre-order walk is determined by the ids and their anchors. */
  lemma OrderedIsUnique(ns: seq<Node>, ms: seq<Node>)
    requires Ordered(ns) && Ordered(ms) && IdSet(ns) == IdSet(ms) && SameAnchors(ns, ms)
    ensures |ns| == |ms| && forall i :: 0 <= i < |ns| ==> ns[i].id == ms[i].id
  {
    var pm :| Tree(ns, pm);
    var pm' :| Tree(ms, pm');
    SamePaths(ns, pm, ms, pm');
    SameIdSequence(ns, ms, pm);
  }

  lemma SameList(ns: seq<Node>, held: seq<Operation>, all: set<Operation>,
                 ms: seq<Node>, held': seq<Operation>, all': set<Operation>)
    requires Stable(ns, held, all) && Stable(ms, held', all') && SameEdits(all, all')
    ensures Views(ns) == Views(ms)
    ensures all == all' ==> ns == ms
  {
    SameIdList(ns, held, all, ms, held', all');
    forall i | 0 <= i < |ns|
      ensures ViewOf(ns[i]) == ViewOf(ms[i]) && (all == all' ==> ns[i] == ms[i])
    {
      SameNode(ns, held, all, i, ms, held', all', i);
      TombstoneIsExact(ns, held, all, i);
      TombstoneIsExact(ms, held', all', i);
    }
    assert |Views(ns)| == |ns| && |Views(ms)| == |ms|;
  }

  lemma SamePending(ns: seq<Node>, held: seq<Operation>, held': seq<Operation>, all: set<Operation>)
    requires Stable(ns, held, all) && Stable(ns, held', all)
    ensures Elements(held) <= Elements(held')
  {
    forall o | o in held
      ensures o in held'
    {
      assert o in Elements(held) && !Ready(ns, o);
      assert Accounted(ns, Elements(held), o) && Accounted(ns, Elements(held'), o);
      HasIsMember(ns, o.nodeId);
      assert Tombstoned(ns, o.nodeId) ==> o.nodeId in IdSet(ns);
    }
  }

  lemma TextStep(ns: seq<Node>)
    requires ns != []
    ensures Text(ns) == (if ns[0].deleted then "" else [ns[0].value]) + Text(ns[1..])
  {
  }

  lemma ViewsTail(ns: seq<Node>)
    requires ns != []
    ensures |Views(ns)| == |ns| && Views(ns)[0] == ViewOf(ns[0]) && Views(ns)[1..] == Views(ns[1..])
  {
  }

  lemma {:induction false} VisibleViews(ns: seq<Node>, ms: seq<Node>)
    requires Views(ns) == Views(ms)
    ensures Text(ns) == Text(ms)
  {
    assert |ns| == |Views(ns)| && |ms| == |Views(ms)|;
    if ns != [] {
      ViewsTail(ns);
      ViewsTail(ms);
      VisibleViews(ns[1..], ms[1..]);
      TextStep(ns);
      TextStep(ms);
    }
  }

  /** Replicas that hold the same edits, under whatever request ids and authors' rights,
      show the same document. */
  lemma SameEditsSameDocument(s: Rga, all: set<Operation>, t: Rga, all': set<Operation>)
    requires Coherent(all) && Coherent(all') && SameEdits(all, all')
    requires Holds(s, all) && Holds(t, all')
    ensures Views(s.nodes) == Views(t.nodes) && Text(s.nodes) == Text(t.nodes)
  {
    SameList(s.nodes, s.pending, all, t.nodes, t.pending, all');
    VisibleViews(s.nodes, t.nodes);
  }

  ghost predicate SameTombstones(ns: seq<Node>, ms: seq<Node>)
  {
    |ns| == |ms| && forall i :: 0 <= i < |ns| ==> ns[i].deleted == ms[i].deleted
  }

  lemma TombstonesStep(ns: seq<Node>, ms: seq<Node>)
    requires ns != [] && |ns| == |ms|
    ensures SameTombstones(ns, ms) <==> ns[0].deleted == ms[0].deleted && SameTombstones(ns[1..], ms[1..])
  {
    assert forall i :: 0 < i < |ns| ==> ns[i] == ns[1..][i - 1] && ms[i] == ms[1..][i - 1];
  }

  /** Where one list has the tombstones of the other and more, the texts agree only if the
      tombstones do: each further one takes a character away. */
  lemma {:induction false} TextByTombstones(ns: seq<Node>, ms: seq<Node>)
    requires |ns| == |ms| && forall i :: 0 <= i < |ns| ==> ns[i].value == ms[i].value && (ms[i].deleted ==> ns[i].deleted)
    ensures |Text(ns)| <= |Text(ms)| && (Text(ns) == Text(ms) <==> SameTombstones(ns, ms))
  {
    if ns != [] {
      TextByTombstones(ns[1..], ms[1..]);
      TombstonesStep(ns, ms);
      TextStep(ns);
      TextStep(ms);
      assert Text(ns)[|Text(ns)| - |Text(ns[1..])|..] == Text(ns[1..]);
      assert Text(ms)[|Text(ms)| - |Text(ms[1..])|..] == Text(ms[1..]);
    }
  }

  /** Of two replicas with the same inserts, the one that received more deletes shows the same
      text exactly when they hide nothing that the other shows. */
  lemma MoreDeletesHideMore(s: Rga, all: set<Operation>, t: Rga, all': set<Operation>)
    requires Coherent(all) && Coherent(all') && Inserts(all) == Inserts(all') && Deletes(all') <= Deletes(all)
    requires Holds(s, all) && Holds(t, all')
    ensures Text(s.nodes) == Text(t.nodes) <==> forall n :: n in t.nodes && !n.deleted ==> n.id !in Deletes(all)
  {
    SameIdList(s.nodes, s.pending, all, t.nodes, t.pending, all');
    forall i | 0 <= i < |s.nodes|
      ensures s.nodes[i].value == t.nodes[i].value && s.nodes[i].id == t.nodes[i].id
      ensures s.nodes[i].deleted <==> t.nodes[i].id in Deletes(all)
      ensures t.nodes[i].deleted <==> t.nodes[i].id in Deletes(all')
    {
      SameNode(s.nodes, s.pending, all, i, t.nodes, t.pending, all', i);
      TombstoneIsExact(s.nodes, s.pending, all, i);
      TombstoneIsExact(t.nodes, t.pending, all', i);
    }
    TextByTombstones(s.nodes, t.nodes);
    assert forall i :: 0 <= i < |t.nodes| ==> t.nodes[i] in t.nodes;
  }

  /** What a replica holds is determined by the set of operations it has received. */
  lemma HoldsIsUnique(s: Rga, t: Rga, all: set<Operation>)
    requires Coherent(all) && Holds(s, all) && Holds(t, all)
    ensures s.nodes == t.nodes && s.seen == t.seen && s.counter == t.counter
    ensures multiset(s.pending) == multiset(t.pending)
  {
    SameList(s.nodes, s.pending, all, t.nodes, t.pending, all);
    SamePending(s.nodes, s.pending, t.pending, all);
    SamePending(s.nodes, t.pending, s.pending, all);
    DistinctMultiset(s.pending);
    DistinctMultiset(t.pending);
    assert Elements(s.pending) == Elements(t.pending);
  }

  lemma {:induction false} DistinctMultiset<T>(q: seq<T>)
    requires Distinct(q)
    ensures multiset(q) == multiset(Elements(q))
  {
    if q != [] {
      var n := |q| - 1;
      assert q == q[..n] + [q[n]];
      DistinctMultiset(q[..n]);
      assert Elements(q) == Elements(q[..n]) + {q[n]};
      assert q[n] !in Elements(q[..n]);
    }
  }

  /** Convergence: any two replicas that have applied the same set of operations, in any
      orders and with any repeats, have the same node list with the same tombstones, the
      same text, the same request ids and clock, and the same buffered operations. */
  lemma Converge(ops: seq<Operation>, ops': seq<Operation>)
    requires Elements(ops) == Elements(ops') && Coherent(Elements(ops))
    ensures var s, t := ApplyAll(Empty, ops), ApplyAll(Empty, ops');
            && s.nodes == t.nodes && Text(s.nodes) == Text(t.nodes)
            && s.seen == t.seen && s.counter == t.counter
            && multiset(s.pending) == multiset(t.pending)
  {
    EmptyHolds();
    assert {} + Elements(ops) == Elements(ops);
    assert {} + Elements(ops') == Elements(ops');
    ApplyAllKeeps(Empty, {}, ops);
    ApplyAllKeeps(Empty, {}, ops');
    HoldsIsUnique(ApplyAll(Empty, ops), ApplyAll(Empty, ops'), Elements(ops));
  }
}
