/** The node list read back as a forest: an independent statement of what `TreeOrder` keeps. */
module PreOrder {
  import opened Ids
  import opened RgaModel
  import opened TreeOrder

  datatype Branch = Branch(node: Node, below: seq<Branch>)

  /** Each node, then its subtree, then its next siblings. */
  function Walk(bs: seq<Branch>): seq<Node>
    decreases bs
  {
    if bs == [] then [] else [bs[0].node] + Walk(bs[0].below) + Walk(bs[1..])
  }

  /** Every branch hangs on its anchor, and siblings are in priority order. */
  ghost predicate WellGrown(bs: seq<Branch>, after: Option<NodeId>)
    decreases bs
  {
    bs == [] || (
      && bs[0].node.after == after
      && WellGrown(bs[0].below, Some(bs[0].node.id))
      && (|bs| > 1 ==> Priority(bs[0].node.id, bs[1].node.id))
      && WellGrown(bs[1..], after))
  }

  /** Nodes `lo..hi` are whole subtrees hanging on `after`. */
  ghost predicate Block(ns: seq<Node>, pm: Paths, lo: nat, hi: nat, after: Option<NodeId>)
  {
    && lo <= hi <= |ns|
    && (forall j :: lo <= j < hi ==> ns[j].after == after || (ns[j].after.Some? && lo <= Find(ns, ns[j].after.value)))
    && (forall c, j :: lo <= c < hi <= j < |ns| ==> !(At(ns, pm, c) < At(ns, pm, j)))
  }

  lemma {:induction false} SiblingPaths(p: Path, a: NodeId, b: NodeId)
    requires PathLess(p + [a], p + [b])
    ensures Priority(a, b)
  {
    if p != [] {
      assert (p + [a])[1..] == p[1..] + [a] && (p + [b])[1..] == p[1..] + [b];
      SiblingPaths(p[1..], a, b);
    } else {
      PathLessIrreflexive([a]);
    }
  }

  /** Of two siblings the younger comes first; on equal timestamps the one whose site id is
      smaller at the first difference. */
  lemma SiblingsInOrder(ns: seq<Node>, i: nat, j: nat)
    requires Ordered(ns) && i < j < |ns| && ns[i].after == ns[j].after
    ensures ns[i].id.timestamp >= ns[j].id.timestamp
    ensures ns[i].id.timestamp == ns[j].id.timestamp ==>
              exists k: nat :: var a, b := ns[i].id.site, ns[j].id.site;
                k <= |a| && k < |b| && a[..k] == b[..k] && (k == |a| || a[k] < b[k])
  {
    var pm :| Tree(ns, pm);
    assert Linked(ns, pm, i) && Linked(ns, pm, j) && Before(ns, pm, i, j);
    SiblingPaths(ParentPath(pm, ns[i].after), ns[i].id, ns[j].id);
    var a, b := ns[i].id.site, ns[j].id.site;
    if ns[i].id.timestamp == ns[j].id.timestamp {
      TextLessAtFirstDifference(a, b);
      var k: nat :| DiffersAt(a, b, k);
      assert k <= |a| && k < |b| && a[..k] == b[..k] && (k == |a| || a[k] < b[k]);
    }
  }

  lemma FirstHangsOnAnchor(ns: seq<Node>, pm: Paths, lo: nat, hi: nat, after: Option<NodeId>)
    requires Tree(ns, pm) && Block(ns, pm, lo, hi, after) && lo < hi
    ensures ns[lo].after == after
  {
    if ns[lo].after.Some? {
      ParentComesFirst(ns, pm, lo);
    }
  }

  /** The subtree of the first node ends inside the block, and is itself a block. */
  lemma FirstSubtree(ns: seq<Node>, pm: Paths, lo: nat, hi: nat, after: Option<NodeId>)
    requires Tree(ns, pm) && Block(ns, pm, lo, hi, after) && lo < hi
    ensures SkipSubtree(ns, lo) <= hi
    ensures Block(ns, pm, lo + 1, SkipSubtree(ns, lo), Some(ns[lo].id))
  {
    var e := SkipSubtree(ns, lo);
    if e > hi {
      SkipSubtreeIsBlockEnd(ns, pm, lo, hi);
    }
    forall j | lo + 1 <= j < e
      ensures ns[j].after == Some(ns[lo].id) || (ns[j].after.Some? && lo + 1 <= Find(ns, ns[j].after.value))
    {
      SkipSubtreeIsBlockEnd(ns, pm, lo, j);
      InsideSubtree(ns, pm, lo, j);
    }
    forall c, j | lo + 1 <= c < e <= j < |ns|
      ensures !(At(ns, pm, c) < At(ns, pm, j))
    {
      SkipSubtreeIsBlockEnd(ns, pm, lo, c);
      SkipSubtreeIsBlockEnd(ns, pm, lo, j);
    }
  }

  lemma InsideSubtree(ns: seq<Node>, pm: Paths, i: nat, j: nat)
    requires Tree(ns, pm) && i < |ns| && j < |ns| && At(ns, pm, i) < At(ns, pm, j)
    ensures ns[j].after.Some? && (ns[j].after.value == ns[i].id || i < Find(ns, ns[j].after.value))
  {
    assert Linked(ns, pm, i);
    DescendantIsBelow(ns, pm, j, ns[i].id);
    assert Linked(ns, pm, j);
    if ns[j].after.value != ns[i].id {
      var f := NodeAt(ns, pm, ns[j].after.value);
      DescendantIsBelow(ns, pm, f, ns[i].id);
      AncestorFirst(At(ns, pm, i), At(ns, pm, f));
      PathOrderIsListOrder(ns, pm, i, f);
    }
  }

  /** A child hangs below all its anchor hangs below. */
  lemma ChildIsBelow(ns: seq<Node>, pm: Paths, p: Path, f: nat, j: nat)
    requires Tree(ns, pm) && j < |ns| && f < |ns| && ns[j].after == Some(ns[f].id)
    requires p <= At(ns, pm, f)
    ensures p < At(ns, pm, j)
  {
    assert Linked(ns, pm, j);
    BelowChild(p, At(ns, pm, f), ns[j].id);
  }

  /** A child of a node in a subtree, or of its root, is in the subtree. */
  lemma ChildInSubtree(ns: seq<Node>, pm: Paths, lo: nat, f: nat, j: nat)
    requires Tree(ns, pm) && j < |ns| && ns[j].after.Some? && lo < |ns| && lo <= f < SkipSubtree(ns, lo)
    requires ns[f].id == ns[j].after.value
    ensures j < SkipSubtree(ns, lo)
  {
    SkipSubtreeIsBlockEnd(ns, pm, lo, f);
    ChildIsBelow(ns, pm, At(ns, pm, lo), f, j);
    SkipSubtreeIsBlockEnd(ns, pm, lo, j);
  }

  /** What follows the first subtree is a block on the same anchor. */
  lemma RestOfBlock(ns: seq<Node>, pm: Paths, lo: nat, hi: nat, after: Option<NodeId>)
    requires Tree(ns, pm) && Block(ns, pm, lo, hi, after) && lo < hi
    requires SkipSubtree(ns, lo) <= hi
    ensures Block(ns, pm, SkipSubtree(ns, lo), hi, after)
  {
    forall j | SkipSubtree(ns, lo) <= j < hi && ns[j].after != after
      ensures ns[j].after.Some? && SkipSubtree(ns, lo) <= Find(ns, ns[j].after.value)
    {
      assert Linked(ns, pm, j);
      var f := NodeAt(ns, pm, ns[j].after.value);
      if f < SkipSubtree(ns, lo) {
        ChildInSubtree(ns, pm, lo, f, j);
      }
    }
  }

  lemma JoinBranches(n: Node, below: seq<Branch>, rest: seq<Branch>)
    requires WellGrown(below, Some(n.id)) && WellGrown(rest, n.after)
    requires rest != [] ==> Priority(n.id, rest[0].node.id)
    ensures WellGrown([Branch(n, below)] + rest, n.after)
    ensures Walk([Branch(n, below)] + rest) == [n] + Walk(below) + Walk(rest)
  {
    var bs := [Branch(n, below)] + rest;
    assert bs[0] == Branch(n, below) && bs[1..] == rest;
  }

  lemma NextSiblingHasLess(ns: seq<Node>, pm: Paths, i: nat, j: nat)
    requires Tree(ns, pm) && i < j < |ns| && ns[i].after == ns[j].after
    ensures Priority(ns[i].id, ns[j].id)
  {
    assert Before(ns, pm, i, j) && Linked(ns, pm, i) && Linked(ns, pm, j);
    SiblingPaths(ParentPath(pm, ns[i].after), ns[i].id, ns[j].id);
  }

  lemma {:induction false} Grow(ns: seq<Node>, pm: Paths, lo: nat, hi: nat, after: Option<NodeId>) returns (bs: seq<Branch>)
    requires Tree(ns, pm) && Block(ns, pm, lo, hi, after)
    ensures Walk(bs) == ns[lo..hi] && WellGrown(bs, after)
    ensures bs != [] ==> lo < hi && bs[0].node == ns[lo] && ns[lo].after == after
    decreases hi - lo
  {
    if lo == hi {
      bs := [];
    } else {
      FirstHangsOnAnchor(ns, pm, lo, hi, after);
      FirstSubtree(ns, pm, lo, hi, after);
      RestOfBlock(ns, pm, lo, hi, after);
      var below := Grow(ns, pm, lo + 1, SkipSubtree(ns, lo), Some(ns[lo].id));
      var rest := Grow(ns, pm, SkipSubtree(ns, lo), hi, after);
      bs := Join(ns, pm, lo, SkipSubtree(ns, lo), hi, below, rest);
    }
  }

  lemma Join(ns: seq<Node>, pm: Paths, lo: nat, e: nat, hi: nat, below: seq<Branch>, rest: seq<Branch>) returns (bs: seq<Branch>)
    requires Tree(ns, pm) && lo < e <= hi <= |ns|
    requires Walk(below) == ns[lo + 1..e] && WellGrown(below, Some(ns[lo].id))
    requires Walk(rest) == ns[e..hi] && WellGrown(rest, ns[lo].after)
    requires rest != [] ==> e < hi && rest[0].node == ns[e] && ns[e].after == ns[lo].after
    ensures Walk(bs) == ns[lo..hi] && WellGrown(bs, ns[lo].after) && bs[0].node == ns[lo]
  {
    if rest != [] {
      NextSiblingHasLess(ns, pm, lo, e);
    }
    JoinBranches(ns[lo], below, rest);
    bs := [Branch(ns[lo], below)] + rest;
    assert ns[lo..hi] == [ns[lo]] + ns[lo + 1..e] + ns[e..hi];
  }

  /** The list of a replica is the pre-order walk of a forest whose branches hang on their
      `after` anchors with siblings in priority order. */
  lemma ListIsPreOrderWalk(ns: seq<Node>)
    requires Ordered(ns)
    ensures exists bs :: Walk(bs) == ns && WellGrown(bs, None)
  {
    var pm :| Tree(ns, pm);
    var bs := Grow(ns, pm, 0, |ns|, None);
    assert ns[0..|ns|] == ns;
  }
}
