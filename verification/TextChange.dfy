/** From a text difference to edits: positions in the visible text and in the node list. */
module TextChange {
  import opened Ids
  import opened RgaModel
  import opened TreeOrder
  import opened Buffering
  import opened LocalIntent

  // ---------- Common prefix and suffix ----------

  /** How much of the old and the new text is common at the front and at the back. */
  datatype Common = Common(prefix: nat, suffix: nat)

  /** The longest common prefix, and behind it the longest common suffix. */
  ghost predicate IsCommon(a: string, b: string, c: Common)
  {
    && c.prefix + c.suffix <= |a| && c.prefix + c.suffix <= |b|
    && a[..c.prefix] == b[..c.prefix]
    && (c.prefix < |a| && c.prefix < |b| ==> a[c.prefix] != b[c.prefix])
    && a[|a| - c.suffix..] == b[|b| - c.suffix..]
    && (c.prefix + c.suffix < |a| && c.prefix + c.suffix < |b| ==> a[|a| - 1 - c.suffix] != b[|b| - 1 - c.suffix])
  }

  method FindPrefix(a: string, b: string) returns (p: nat)
    ensures p <= |a| && p <= |b| && a[..p] == b[..p]
    ensures p < |a| && p < |b| ==> a[p] != b[p]
  {
    p := 0;
    while p < |a| && p < |b| && a[p] == b[p]
      invariant p <= |a| && p <= |b| && a[..p] == b[..p]
    {
      assert a[..p + 1] == a[..p] + [a[p]] && b[..p + 1] == b[..p] + [b[p]];
      p := p + 1;
    }
  }

  method FindSuffix(a: string, b: string, p: nat) returns (s: nat)
    requires p <= |a| && p <= |b|
    ensures p + s <= |a| && p + s <= |b| && a[|a| - s..] == b[|b| - s..]
    ensures p + s < |a| && p + s < |b| ==> a[|a| - 1 - s] != b[|b| - 1 - s]
  {
    s := 0;
    while s < |a| - p && s < |b| - p && a[|a| - 1 - s] == b[|b| - 1 - s]
      invariant p + s <= |a| && p + s <= |b| && a[|a| - s..] == b[|b| - s..]
    {
      SuffixStep(a, b, s);
      s := s + 1;
    }
  }

  lemma SuffixStep(a: string, b: string, k: nat)
    requires k < |a| && k < |b| && a[|a| - k..] == b[|b| - k..] && a[|a| - 1 - k] == b[|b| - 1 - k]
    ensures a[|a| - (k + 1)..] == b[|b| - (k + 1)..]
  {
    assert a[|a| - (k + 1)..] == [a[|a| - 1 - k]] + a[|a| - k..];
    assert b[|b| - (k + 1)..] == [b[|b| - 1 - k]] + b[|b| - k..];
  }

  // ---------- Visible positions ----------

  /** The list position of the `m`-th visible node. */
  lemma {:induction false} VisibleSource(ns: seq<Node>, m: nat) returns (k: nat)
    requires m < |Visible(ns)|
    ensures k < |ns| && ns[k] == Visible(ns)[m] && !ns[k].deleted && Visible(ns[..k]) == Visible(ns)[..m]
  {
    if ns[0].deleted {
      var k0 := VisibleSource(ns[1..], m);
      k := k0 + 1;
      assert ns[..k][1..] == ns[1..][..k0];
    } else if m == 0 {
      k := 0;
    } else {
      var k0 := VisibleSource(ns[1..], m - 1);
      k := k0 + 1;
      assert ns[..k][1..] == ns[1..][..k0];
      assert Visible(ns)[..m] == [ns[0]] + Visible(ns[1..])[..m - 1];
    }
  }

  lemma VisibleFound(ns: seq<Node>, m: nat) returns (k: nat)
    requires Ordered(ns) && m < |Visible(ns)|
    ensures k == Find(ns, Visible(ns)[m].id) < |ns| && ns[k] == Visible(ns)[m] && !ns[k].deleted
    ensures Visible(ns[..k]) == Visible(ns)[..m] && Visible(ns[k + 1..]) == Visible(ns)[m + 1..]
  {
    k := VisibleSource(ns, m);
    var pm :| Tree(ns, pm);
    FindAt(ns, pm, k);
    VisiblePrefix(ns, k);
    assert ns[k..][1..] == ns[k + 1..];
  }

  /** Deleting the `m`-th visible node removes it from what is visible. */
  lemma DeleteVisible(ns: seq<Node>, m: nat)
    requires Ordered(ns) && m < |Visible(ns)|
    ensures Has(ns, Visible(ns)[m].id)
    ensures Visible(ApplyDelete(ns, Visible(ns)[m].id)) == Visible(ns)[..m] + Visible(ns)[m + 1..]
  {
    var k := VisibleFound(ns, m);
    VisibleApplyDelete(ns, Visible(ns)[m].id);
  }

  /** The anchor in front of visible position `m`. */
  function AnchorAt(vis: seq<Node>, m: nat): Option<NodeId>
    requires m <= |vis|
  {
    if m > 0 then Some(vis[m - 1].id) else None
  }

  /** Inserting behind the anchor of visible position `m` puts the node at that position. */
  lemma InsertVisible(ns: seq<Node>, m: nat, n: Node)
    requires Ordered(ns) && m <= |Visible(ns)| && !n.deleted && n.after == AnchorAt(Visible(ns), m)
    ensures n.after.Some? ==> Has(ns, n.after.value)
    ensures Visible(InsertAt(ns, ScanStart(ns, n.after), n)) == Visible(ns)[..m] + [n] + Visible(ns)[m..]
  {
    if m > 0 {
      var k := VisibleFound(ns, m - 1);
      VisibleInsertAt(ns, k + 1, n);
      VisibleStep(ns, k);
      assert Visible(ns)[..m] == Visible(ns)[..m - 1] + [ns[k]];
      assert Visible(ns[k + 1..]) == Visible(ns)[m..];
      assert ScanStart(ns, n.after) == k + 1;
    } else {
      VisibleInsertAt(ns, 0, n);
      assert ns[..0] == [] && ns[0..] == ns;
    }
  }

  // ---------- Protected characters ----------

  /** The nodes of a replaced range that the user may not delete, in order. */
  function Protected(ns: seq<Node>, authenticated: bool): seq<Node>
  {
    if ns == [] then []
    else (if !authenticated && ns[0].authenticated then [ns[0]] else []) + Protected(ns[1..], authenticated)
  }

  lemma {:induction false} NothingProtected(ns: seq<Node>, authenticated: bool)
    ensures Protected(ns, authenticated) == [] <==> (authenticated || forall n :: n in ns ==> !n.authenticated)
  {
    if ns != [] {
      NothingProtected(ns[1..], authenticated);
      assert ns == [ns[0]] + ns[1..];
    }
  }

  /** Protected is, node by node and in order, exactly what carries rights the user lacks. */
  lemma ProtectedOne(n: Node, authenticated: bool)
    ensures Protected([n], authenticated) == if n.authenticated && !authenticated then [n] else []
  {
    assert [n][1..] == [] && Protected([], authenticated) == [];
  }

  lemma {:induction false} ProtectedConcat(a: seq<Node>, b: seq<Node>, authenticated: bool)
    ensures Protected(a + b, authenticated) == Protected(a, authenticated) + Protected(b, authenticated)
    decreases |a|
  {
    if a == [] {
      assert a + b == b;
    } else {
      assert (a + b)[0] == a[0] && (a + b)[1..] == a[1..] + b;
      ProtectedConcat(a[1..], b, authenticated);
    }
  }

  lemma ValuesConcat(a: seq<Node>, b: seq<Node>)
    ensures Values(a + b) == Values(a) + Values(b)
  {
  }

  /** `text` with `more` put in at position `at`. */
  function Spliced(text: string, at: nat, more: string): string
    requires at <= |text|
  {
    text[..at] + more + text[at..]
  }

  ghost predicate Fits(vis: seq<Node>, newText: string, c: Common)
  {
    c.prefix + c.suffix <= |vis| && c.prefix + c.suffix <= |newText|
  }

  /** What replacing all but the common parts leaves: the new text, with the protected
      characters of the replaced range kept in front of the common suffix. */
  function Changed(vis: seq<Node>, newText: string, c: Common, authenticated: bool): string
    requires Fits(vis, newText, c)
  {
    Spliced(newText, |newText| - c.suffix, Values(Protected(vis[c.prefix..|vis| - c.suffix], authenticated)))
  }

  /** The result is the new text if and only if nothing in the replaced range is protected. */
  lemma ChangedIsNewText(vis: seq<Node>, newText: string, c: Common, authenticated: bool)
    requires Fits(vis, newText, c)
    ensures Changed(vis, newText, c, authenticated) == newText <==>
              (authenticated || forall n :: n in vis[c.prefix..|vis| - c.suffix] ==> !n.authenticated)
  {
    var kept := Protected(vis[c.prefix..|vis| - c.suffix], authenticated);
    NothingProtected(vis[c.prefix..|vis| - c.suffix], authenticated);
    assert |Changed(vis, newText, c, authenticated)| == |newText| + |kept|;
  }
}
