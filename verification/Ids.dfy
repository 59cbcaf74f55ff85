/** Identifiers of replicated characters, and the orders the list keeps them in.

    A site id is the canonical text of a UUID.  The server compares `ReplicaID.String()`
    and the browser compares `siteId`, so both compare the same text. */
module Ids {

  datatype Option<+T> = None | Some(value: T)

  type SiteId = string

  datatype NodeId = NodeId(site: SiteId, timestamp: nat)

  /** Lexicographic comparison of two texts, as `<` on strings does it. */
  predicate TextLess(a: string, b: string)
  {
    b != [] && (a == [] || a[0] < b[0] || (a[0] == b[0] && TextLess(a[1..], b[1..])))
  }

  /** Whether `a` is placed left of its concurrent sibling `b`: the larger timestamp
      first, and on equal timestamps the smaller site id. */
  predicate Priority(a: NodeId, b: NodeId)
  {
    if a.timestamp != b.timestamp then a.timestamp > b.timestamp else TextLess(a.site, b.site)
  }

  /** The path of a node: the ids from its root-level ancestor down to itself. */
  type Path = seq<NodeId>

  /** The document order of two paths: a path comes before its extensions, and where two
      paths part the id with priority decides. */
  predicate PathLess(p: Path, q: Path)
  {
    q != [] && (p == [] || if p[0] == q[0] then PathLess(p[1..], q[1..]) else Priority(p[0], q[0]))
  }

  // ---------- Text order ----------

  lemma {:induction false} TextLessIrreflexive(a: string)
    ensures !TextLess(a, a)
  {
    if a != [] {
      TextLessIrreflexive(a[1..]);
    }
  }

  lemma {:induction false} TextLessTransitive(a: string, b: string, c: string)
    requires TextLess(a, b) && TextLess(b, c)
    ensures TextLess(a, c)
  {
    if a != [] && a[0] == b[0] == c[0] {
      TextLessTransitive(a[1..], b[1..], c[1..]);
    }
  }

  /** `a` comes before `b`: behind a common prefix of length `k` it ends, or has the smaller character. */
  ghost predicate DiffersAt(a: string, b: string, k: nat)
  {
    && k <= |a| && k < |b| && a[..k] == b[..k]
    && (k == |a| || a[k] < b[k])
  }

  /** Texts are compared at their first difference. */
  lemma {:induction false} TextLessAtFirstDifference(a: string, b: string)
    ensures TextLess(a, b) <==> exists k: nat :: DiffersAt(a, b, k)
  {
    if a != [] && b != [] && a[0] == b[0] {
      TextLessAtFirstDifference(a[1..], b[1..]);
      if k: nat :| DiffersAt(a[1..], b[1..], k) {
        assert a[..k + 1] == [a[0]] + a[1..][..k] && b[..k + 1] == [b[0]] + b[1..][..k];
        assert DiffersAt(a, b, k + 1);
      }
      if k: nat :| DiffersAt(a, b, k) {
        assert k > 0;
        assert a[1..][..k - 1] == a[..k][1..] && b[1..][..k - 1] == b[..k][1..];
        assert DiffersAt(a[1..], b[1..], k - 1);
      }
    } else if b != [] && (a == [] || a[0] < b[0]) {
      assert DiffersAt(a, b, 0);
    } else {
      forall k: nat
        ensures !DiffersAt(a, b, k)
      {
        if k > 0 && k <= |a| && k <= |b| {
          assert a[..k][0] == a[0] && b[..k][0] == b[0];
        }
      }
    }
  }

  lemma {:induction false} TextLessTotal(a: string, b: string)
    requires a != b
    ensures TextLess(a, b) || TextLess(b, a)
  {
    if a != [] && b != [] && a[0] == b[0] {
      assert a == [a[0]] + a[1..] && b == [b[0]] + b[1..];
      TextLessTotal(a[1..], b[1..]);
    }
  }

  // ---------- Sibling order ----------

  /** `Priority` is a strict total order on node ids. */
  lemma PriorityIsStrictTotalOrder(a: NodeId, b: NodeId, c: NodeId)
    ensures !Priority(a, a)
    ensures a != b ==> (Priority(a, b) <==> !Priority(b, a))
    ensures Priority(a, b) && Priority(b, c) ==> Priority(a, c)
  {
    TextLessIrreflexive(a.site);
    if Priority(a, b) && Priority(b, a) && a.timestamp == b.timestamp {
      TextLessTransitive(a.site, b.site, a.site);
    }
    if a.timestamp == b.timestamp && a.site != b.site {
      TextLessTotal(a.site, b.site);
    }
    if Priority(a, b) && Priority(b, c) && a.timestamp == b.timestamp == c.timestamp {
      TextLessTransitive(a.site, b.site, c.site);
    }
  }

  // ---------- Document order ----------

  lemma {:induction false} PathLessIrreflexive(p: Path)
    ensures !PathLess(p, p)
  {
    if p != [] {
      PathLessIrreflexive(p[1..]);
    }
  }

  lemma {:induction false} PathLessTransitive(p: Path, q: Path, r: Path)
    requires PathLess(p, q) && PathLess(q, r)
    ensures PathLess(p, r)
  {
    if p != [] {
      if p[0] == q[0] == r[0] {
        PathLessTransitive(p[1..], q[1..], r[1..]);
      } else if p[0] != q[0] && q[0] != r[0] {
        PriorityIsStrictTotalOrder(p[0], q[0], r[0]);
        PriorityIsStrictTotalOrder(p[0], r[0], q[0]);
        PriorityIsStrictTotalOrder(q[0], p[0], r[0]);
      }
    }
  }

  lemma {:induction false} PathLessTotal(p: Path, q: Path)
    requires p != q
    ensures PathLess(p, q) || PathLess(q, p)
  {
    if p != [] && q != [] {
      if p[0] == q[0] {
        assert p == [p[0]] + p[1..] && q == [q[0]] + q[1..];
        PathLessTotal(p[1..], q[1..]);
      } else {
        PriorityIsStrictTotalOrder(p[0], q[0], p[0]);
      }
    }
  }

  lemma PathLessAsymmetric(p: Path, q: Path)
    requires PathLess(p, q)
    ensures p != q && !PathLess(q, p)
  {
    PathLessIrreflexive(p);
    if PathLess(q, p) {
      PathLessTransitive(p, q, p);
    }
  }

  /** A path comes before everything that hangs below it. */
  lemma {:induction false} AncestorFirst(p: Path, q: Path)
    requires p < q
    ensures PathLess(p, q)
  {
    if p != [] {
      assert p[0] == q[0];
      AncestorFirst(p[1..], q[1..]);
    }
  }

  /** Everything below a sibling with priority comes before everything below the other. */
  lemma {:induction false} SiblingFirst(p: Path, a: NodeId, b: NodeId, q: Path, r: Path)
    requires a != b && Priority(a, b)
    requires p + [a] <= q && p + [b] <= r
    ensures PathLess(q, r)
  {
    assert q[|p|] == (p + [a])[|p|] == a;
    assert r[|p|] == (p + [b])[|p|] == b;
    if p != [] {
      assert q[0] == (p + [a])[0] == r[0] == (p + [b])[0];
      assert p[1..] + [a] == (p + [a])[1..];
      assert p[1..] + [b] == (p + [b])[1..];
      SiblingFirst(p[1..], a, b, q[1..], r[1..]);
    }
  }

  /** A path that comes after `p` but does not hang below it comes after all that does. */
  lemma {:induction false} OutsideComesLater(p: Path, q: Path, r: Path)
    requires PathLess(p, q) && !(p <= q) && p <= r
    ensures PathLess(r, q)
  {
    assert p != [];
    assert r[0] == p[0];
    if p[0] == q[0] {
      assert p == [p[0]] + p[1..] && q == [q[0]] + q[1..];
      OutsideComesLater(p[1..], q[1..], r[1..]);
    }
  }

  /** What lies between a path and one of its descendants is a descendant too. */
  lemma BetweenIsBelow(p: Path, q: Path, r: Path)
    requires PathLess(p, q) && PathLess(q, r) && p <= r
    ensures p < q
  {
    if !(p <= q) {
      OutsideComesLater(p, q, r);
      PathLessAsymmetric(r, q);
    } else {
      PathLessIrreflexive(p);
    }
  }
}
