/** The class behind the editor (`sync-manager.ts`). */
module SyncManager {
  import opened Ids
  import opened NodeKeys
  import opened RgaModel
  import opened TreeOrder
  import opened Buffering
  import opened LocalIntent
  import opened TextChange
  import opened SyncClient
  import opened Folding

  /** Every character of the text takes one UTF-16 unit, so text positions are node positions. */
  ghost predicate OneUnitEach(text: string)
  {
    forall ch :: ch in text ==> ch as int < 0x10000
  }

  ghost function OpsSent(msgs: seq<ClientMsg>): set<Operation>
  {
    set m | m in msgs && m.OpMsg? :: m.op
  }

  /** Since `received0` and `sent0`, exactly the operations applied locally were sent. */
  ghost predicate Told(received0: set<Operation>, sent0: seq<ClientMsg>, received: set<Operation>, sent: seq<ClientMsg>)
  {
    sent0 <= sent && received == received0 + OpsSent(sent[|sent0|..])
  }

  lemma TellNothing(received: set<Operation>, sent: seq<ClientMsg>)
    ensures Told(received, sent, received, sent)
  {
    assert sent[|sent|..] == [];
  }

  lemma TellOne(r0: set<Operation>, s0: seq<ClientMsg>, r: set<Operation>, s: seq<ClientMsg>, id: string, op: Operation)
    requires Told(r0, s0, r, s)
    ensures Told(r0, s0, r + {op}, s + [OpMsg(id, op)])
  {
    var m := OpMsg(id, op);
    assert (s + [m])[|s0|..] == s[|s0|..] + [m];
    assert OpsSent(s[|s0|..] + [m]) == OpsSent(s[|s0|..]) + {op} by {
      assert m in s[|s0|..] + [m];
    }
  }

  lemma TellMore(r0: set<Operation>, s0: seq<ClientMsg>, r1: set<Operation>, s1: seq<ClientMsg>, r2: set<Operation>, s2: seq<ClientMsg>)
    requires Told(r0, s0, r1, s1) && Told(r1, s1, r2, s2)
    ensures Told(r0, s0, r2, s2)
  {
    assert s2[|s0|..] == s1[|s0|..] + s2[|s1|..];
    assert OpsSent(s1[|s0|..] + s2[|s1|..]) == OpsSent(s1[|s0|..]) + OpsSent(s2[|s1|..]);
  }

  lemma EditStays(c: Client, all: set<Operation>, e: Edit, wireId: string)
    requires CanEdit(c.rga, c.nextLocal, all)
    ensures CanEdit(Edited(c, e, wireId).rga, c.nextLocal + 1, all + {LocalOp(c, e)})
  {
    assert Unfold(REPLICA);
    EditKeeps(c, all, e, wireId);
  }

  /** Rights and acknowledgements do not matter to the replica. */
  lemma SameSound(c: Client, d: Client, all: set<Operation>)
    requires d.rga == c.rga && d.nextLocal == c.nextLocal
    ensures Sound(c, all) ==> Sound(d, all)
  {
  }

  lemma SyncConsequences(c: Client, all: set<Operation>, ops: seq<Operation>, latest: int)
    ensures CanEdit(c.rga, c.nextLocal, all) && Arrives(all, Arrived(c, ops, latest)) ==>
              CanEdit(Synced(c, ops, latest).rga, Synced(c, ops, latest).nextLocal, all + Arrived(c, ops, latest))
    ensures Sound(c, all) && Arrives(all, Arrived(c, ops, latest)) && AnchorsOlder(Arrived(c, ops, latest)) ==>
              Sound(Synced(c, ops, latest), all + Arrived(c, ops, latest))
  {
    if CanEdit(c.rga, c.nextLocal, all) && Arrives(all, Arrived(c, ops, latest)) {
      SyncKeeps(c, all, ops, latest);
    }
    if Sound(c, all) && Arrives(all, Arrived(c, ops, latest)) && AnchorsOlder(Arrived(c, ops, latest)) {
      SyncKeepsSound(c, all, ops, latest);
    }
  }

  /** An edit at a visible position: what becomes visible. */
  lemma InsertShows(c: Client, all: set<Operation>, m: nat, ch: char)
    requires Editable(c.rga, c.nextLocal, all) && AnchorsOlder(all) && m <= |Visible(c.rga.nodes)|
    ensures var vis := Visible(c.rga.nodes);
            var op := LocalOp(c, InsertAfter(AnchorAt(vis, m), ch));
            && Visible(Apply(c.rga, op).nodes) == vis[..m] + [NewNode(op)] + vis[m..]
            && AnchorsOlder(all + {op})
  {
    var vis := Visible(c.rga.nodes);
    var op := LocalOp(c, InsertAfter(AnchorAt(vis, m), ch));
    InsertVisible(c.rga.nodes, m, NewNode(op));
    assert LocalId(c.nextLocal) !in c.rga.seen;
    LocalInsertLandsBehindAnchor(c.rga, all, op);
    LocalInsertKeeps(c.rga, all, op);
  }

  lemma DeleteShows(c: Client, all: set<Operation>, m: nat)
    requires Editable(c.rga, c.nextLocal, all) && AnchorsOlder(all) && m < |Visible(c.rga.nodes)|
    ensures var vis := Visible(c.rga.nodes);
            var op := LocalOp(c, DeleteNode(vis[m].id));
            && Visible(Apply(c.rga, op).nodes) == vis[..m] + vis[m + 1..]
            && AnchorsOlder(all + {op})
  {
    var vis := Visible(c.rga.nodes);
    var op := LocalOp(c, DeleteNode(vis[m].id));
    DeleteVisible(c.rga.nodes, m);
    assert LocalId(c.nextLocal) !in c.rga.seen;
    LocalDeleteKeeps(c.rga, all, op);
  }

  class SyncManager {
    const siteId: SiteId
    var rga: Rga
    var nextLocal: nat
    var lastServerSeq: int
    var pendingAcks: map<string, Operation>
    var confirmedReqIds: set<string>
    var authenticated: bool
    var sent: seq<ClientMsg>
    ghost var received: set<Operation>

    ghost function State(): Client
      reads this
    {
      Client(siteId, rga, nextLocal, pendingAcks, confirmedReqIds, lastServerSeq, authenticated)
    }

    ghost predicate Valid()
      reads this
    {
      CanEdit(rga, nextLocal, received)
    }

    constructor (siteId: SiteId)
      ensures Valid() && Sound(State(), received) && State() == NewClient(siteId) && sent == [] && received == {}
    {
      this.siteId := siteId;
      rga, nextLocal, lastServerSeq, authenticated := Empty, 0, 0, false;
      pendingAcks, confirmedReqIds, sent := map[], {}, [];
      received := {};
      new;
      EmptyHolds();
      assert Editable(Empty, 0, {}) && AnchorsOlder({});
    }

    // ---------- Local edits ----------

    /** Applies an edit locally and sends it under the wire id. */
    method MakeEdit(e: Edit, wireId: string) returns (op: Operation)
      requires Valid()
      modifies this
      ensures Valid() && op == LocalOp(old(State()), e)
      ensures State() == Edited(old(State()), e, wireId)
      ensures op.requestId == "req-" + Decimal(old(nextLocal)) && nextLocal == old(nextLocal) + 1
      ensures e.InsertAfter? ==>
                && op.opType == Insert && op.nodeId == NodeId(siteId, old(rga).counter + 1)
                && op.after == e.after && op.value == e.value && op.authenticated == authenticated
      ensures e.DeleteNode? ==> op.opType == Delete && op.nodeId == e.id
      ensures rga == RgaModel.Apply(old(rga), op) && pendingAcks == old(pendingAcks)[wireId := op] && confirmedReqIds == old(confirmedReqIds)
      ensures sent == old(sent) + [OpMsg(wireId, op)]
      ensures received == old(received) + {op}
    {
      EditStays(State(), received, e, wireId);
      op := match e
        case InsertAfter(after, value) =>
          Operation(LocalId(nextLocal), Insert, NodeId(siteId, rga.counter + 1), after, value, authenticated)
        case DeleteNode(id) => Operation(LocalId(nextLocal), Delete, id, None, '\0', true);
      nextLocal := nextLocal + 1;
      rga := Apply(rga, op);
      pendingAcks := pendingAcks[wireId := op];
      sent := sent + [OpMsg(wireId, op)];
      received := received + {op};
    }

    // ---------- Server messages ----------

    method HandleAck(wireId: string, serverSeq: int)
      modifies this
      ensures State() == Acked(old(State()), wireId, serverSeq)
      ensures pendingAcks == old(pendingAcks) - {wireId} && confirmedReqIds == old(confirmedReqIds) + {wireId} && rga == old(rga)
      ensures lastServerSeq == if serverSeq > old(lastServerSeq) then serverSeq else old(lastServerSeq)
      ensures sent == old(sent) && received == old(received)
      ensures old(Valid()) ==> Valid()
      ensures old(Sound(State(), received)) ==> Sound(State(), received)
    {
      confirmedReqIds := confirmedReqIds + {wireId};
      pendingAcks := pendingAcks - {wireId};
      if serverSeq > lastServerSeq {
        lastServerSeq := serverSeq;
      }
      SameSound(old(State()), State(), received);
    }

    method HandleAuthStatus(rights: bool)
      modifies `authenticated
      ensures State() == old(State()).(authenticated := rights)
      ensures old(Valid()) ==> Valid()
      ensures old(Sound(State(), received)) ==> Sound(State(), received)
    {
      authenticated := rights;
      SameSound(old(State()), State(), received);
    }

    /** Skips the echoes of own operations and applies all others; what arrives as the standing
        assumptions say keeps the invariant of the class. */
    method HandleSync(ops: seq<Operation>, latest: int)
      modifies this
      ensures State() == Synced(old(State()), ops, latest)
      ensures lastServerSeq == (if latest > old(lastServerSeq) then latest else old(lastServerSeq)) && pendingAcks == old(pendingAcks)
      ensures sent == old(sent) && received == old(received) + Arrived(old(State()), ops, latest)
      ensures old(Valid()) && Arrives(old(received), Arrived(old(State()), ops, latest)) ==> Valid()
      ensures
        var more := Arrived(old(State()), ops, latest);
        old(Sound(State(), received)) && Arrives(old(received), more) && AnchorsOlder(more) ==> Sound(State(), received)
    {
      ghost var c, all := State(), received;
      SyncLeaves(c.(lastServerSeq := if latest > c.lastServerSeq then latest else c.lastServerSeq), ops);
      ReplaySync(ops, latest);
      received := received + Arrived(c, ops, latest);
      SyncConsequences(c, all, ops, latest);
    }

    method ReplaySync(ops: seq<Operation>, latest: int)
      modifies `lastServerSeq, `confirmedReqIds, `rga
      ensures State() == Synced(old(State()), ops, latest)
    {
      if latest > lastServerSeq {
        lastServerSeq := latest;
      }
      ghost var goal := Synced(old(State()), ops, latest);
      assert ops[0..] == ops;
      var i := 0;
      while i < |ops|
        invariant i <= |ops|
        invariant SyncedOps(State(), ops[i..]) == goal
      {
        var op := ops[i];
        assert ops[i..][0] == op && ops[i..][1..] == ops[i + 1..];
        if op.requestId in pendingAcks {
        } else if op.requestId in confirmedReqIds {
          confirmedReqIds := confirmedReqIds - {op.requestId};
        } else {
          rga := Apply(rga, op);
        }
        i := i + 1;
      }
    }

    method SendSyncRequest()
      modifies `sent
      ensures sent == old(sent) + [SyncRequest(lastServerSeq)]
    {
      sent := sent + [SyncRequest(lastServerSeq)];
    }

    // ---------- Text changes ----------

    /** Deletes the `m`-th visible node. */
    method DeleteAt(m: nat, wireId: string)
      requires Sound(State(), received) && m < |Visible(rga.nodes)|
      modifies this
      ensures Sound(State(), received) && authenticated == old(authenticated)
      ensures Visible(rga.nodes) == old(Visible(rga.nodes)[..m] + Visible(rga.nodes)[m + 1..])
      ensures Told(old(received), old(sent), received, sent)
    {
      assert Unfold(REPLICA);
      DeleteShows(State(), received, m);
      var op := MakeEdit(DeleteNode(Visible(rga.nodes)[m].id), wireId);
      TellNothing(old(received), old(sent));
      TellOne(old(received), old(sent), old(received), old(sent), wireId, op);
    }

    /** Inserts a character behind the anchor of visible position `m`. */
    method InsertHere(m: nat, after: Option<NodeId>, ch: char, wireId: string) returns (n: Node)
      requires Sound(State(), received)
      requires m <= |Visible(rga.nodes)| && after == AnchorAt(Visible(rga.nodes), m)
      modifies this
      ensures Sound(State(), received) && authenticated == old(authenticated)
      ensures n.value == ch && n.after == after
      ensures Visible(rga.nodes) == old(Visible(rga.nodes)[..m]) + [n] + old(Visible(rga.nodes)[m..])
      ensures Told(old(received), old(sent), received, sent)
    {
      assert Unfold(REPLICA);
      InsertShows(State(), received, m, ch);
      var op := MakeEdit(InsertAfter(after, ch), wireId);
      TellNothing(old(received), old(sent));
      TellOne(old(received), old(sent), old(received), old(sent), wireId, op);
      n := NewNode(op);
    }

    /** Deletes the visible nodes at positions `lo..hi`, last first, except those protected. */
    method DeleteRange(vis: seq<Node>, lo: nat, hi: nat, wireIds: seq<string>) returns (used: nat)
      requires Sound(State(), received)
      requires vis == Visible(rga.nodes) && lo <= hi <= |vis| && hi - lo <= |wireIds|
      modifies this
      ensures Sound(State(), received) && authenticated == old(authenticated)
      ensures Visible(rga.nodes) == Reduced(vis, lo, hi, authenticated)
      ensures used <= hi - lo && Told(old(received), old(sent), received, sent)
    {
      used := 0;
      TellNothing(received, sent);
      var i := hi;
      ReductionBegins(vis, hi, authenticated);
      while i > lo
        invariant lo <= i <= hi && used <= hi - i
        invariant Sound(State(), received) && authenticated == old(authenticated)
        invariant IsReduced(Visible(rga.nodes), vis, i, hi, authenticated)
        invariant Told(old(received), old(sent), received, sent)
      {
        i := i - 1;
        ghost var now := Visible(rga.nodes);
        ReductionGoesOn(now, vis, i, hi, authenticated);
        if authenticated || !vis[i].authenticated {
          ghost var r, m := received, sent;
          DeleteAt(i, wireIds[used]);
          TellMore(old(received), old(sent), r, m, received, sent);
          used := used + 1;
        }
      }
      ReductionEnds(Visible(rga.nodes), vis, lo, hi, authenticated);
    }

    /** Inserts the characters one behind the other at visible position `at`. */
    method InsertRange(at: nat, chars: string, wireIds: seq<string>)
      requires Sound(State(), received)
      requires at <= |Visible(rga.nodes)| && |chars| <= |wireIds|
      modifies this
      ensures Sound(State(), received) && authenticated == old(authenticated)
      ensures Text(rga.nodes) == Spliced(old(Text(rga.nodes)), at, chars)
      ensures Told(old(received), old(sent), received, sent)
    {
      ghost var vis := Visible(rga.nodes);
      ghost var added: seq<Node> := [];
      var shown := Visible(rga.nodes);
      var after := AnchorAt(shown, at);
      AddedNothing(vis, at);
      TellNothing(received, sent);
      var i := 0;
      while i < |chars|
        invariant i == |added| <= |chars| && Values(added) == chars[..i]
        invariant Sound(State(), received) && authenticated == old(authenticated)
        invariant Visible(rga.nodes) == Added(vis, at, added) && after == AnchorAt(Added(vis, at, added), at + i)
        invariant Told(old(received), old(sent), received, sent)
      {
        ghost var r, m := received, sent;
        var n := InsertHere(at + i, after, chars[i], wireIds[i]);
        TellMore(old(received), old(sent), r, m, received, sent);
        AddedStep(vis, at, added, n, chars, i);
        added := added + [n];
        after := Some(n.id);
        i := i + 1;
      }
      AddedText(vis, at, added, chars);
    }

    /** Turns a new text into edits.  The resulting text is the new text, with the protected
        characters of the replaced range kept in front of the common suffix. */
    method ApplyTextChange(newText: string, wireIds: seq<string>) returns (c: Common)
      requires Sound(State(), received)
      requires OneUnitEach(newText) && OneUnitEach(Text(rga.nodes))
      requires |wireIds| >= |newText| + |Visible(rga.nodes)|
      modifies this
      ensures Sound(State(), received) && authenticated == old(authenticated)
      ensures IsCommon(old(Text(rga.nodes)), newText, c) && Fits(old(Visible(rga.nodes)), newText, c)
      ensures Text(rga.nodes) == Changed(old(Visible(rga.nodes)), newText, c, authenticated)
      ensures Told(old(received), old(sent), received, sent)
    {
      var vis := Visible(rga.nodes);
      c := FindCommon(vis, newText);
      TellNothing(received, sent);
      if Values(vis) == newText {
        NothingReplaced(vis, newText, c, authenticated);
      } else {
        Replace(vis, newText, c, wireIds);
      }
    }

    /** Deletes what is not common and inserts the rest of the new text in its place. */
    method Replace(vis: seq<Node>, newText: string, c: Common, wireIds: seq<string>)
      requires Sound(State(), received) && vis == Visible(rga.nodes)
      requires IsCommon(Values(vis), newText, c) && Fits(vis, newText, c) && |wireIds| >= |newText| + |vis|
      modifies this
      ensures Sound(State(), received) && authenticated == old(authenticated)
      ensures Text(rga.nodes) == Changed(vis, newText, c, authenticated)
      ensures Told(old(received), old(sent), received, sent)
    {
      ReducedText(vis, newText, c, authenticated);
      var used := DeleteRange(vis, c.prefix, |vis| - c.suffix, wireIds);
      ghost var r, m := received, sent;
      InsertRange(c.prefix, newText[c.prefix..|newText| - c.suffix], wireIds[used..]);
      TellMore(old(received), old(sent), r, m, received, sent);
    }
  }

  method FindCommon(vis: seq<Node>, newText: string) returns (c: Common)
    ensures IsCommon(Values(vis), newText, c) && Fits(vis, newText, c)
  {
    var oldText := Values(vis);
    var p := FindPrefix(oldText, newText);
    var s := FindSuffix(oldText, newText, p);
    c := Common(p, s);
  }

  // ---------- Lemmas for the text change ----------

  /** The visible nodes with only the protected ones of `lo..hi` left. */
  ghost function Reduced(vis: seq<Node>, lo: nat, hi: nat, authenticated: bool): seq<Node>
    requires lo <= hi <= |vis|
  {
    vis[..lo] + Protected(vis[lo..hi], authenticated) + vis[hi..]
  }

  /** `now` is what is left, folded up. */
  ghost predicate IsReduced(now: seq<Node>, vis: seq<Node>, lo: nat, hi: nat, authenticated: bool)
  {
    lo <= hi <= |vis| && forall key :: Unfold(key) && key == REDUCED ==> now == Reduced(vis, lo, hi, authenticated)
  }

  lemma ReductionBegins(vis: seq<Node>, hi: nat, authenticated: bool)
    requires hi <= |vis|
    ensures IsReduced(vis, vis, hi, hi, authenticated)
  {
    assert vis[hi..hi] == [];
    assert vis[..hi] + [] == vis[..hi];
    assert vis[..hi] + vis[hi..] == vis;
  }

  lemma ReductionEnds(now: seq<Node>, vis: seq<Node>, lo: nat, hi: nat, authenticated: bool)
    requires IsReduced(now, vis, lo, hi, authenticated)
    ensures now == Reduced(vis, lo, hi, authenticated)
  {
    assert Unfold(REDUCED);
  }

  /** Going one position to the left: the node there is kept if protected, else to delete. */
  lemma ReductionGoesOn(now: seq<Node>, vis: seq<Node>, i: nat, hi: nat, authenticated: bool)
    requires i < hi && IsReduced(now, vis, i + 1, hi, authenticated)
    ensures i < |now|
    ensures !authenticated && vis[i].authenticated ==> IsReduced(now, vis, i, hi, authenticated)
    ensures authenticated || !vis[i].authenticated ==> IsReduced(now[..i] + now[i + 1..], vis, i, hi, authenticated)
  {
    assert Unfold(REDUCED);
    var front, kept, back := vis[..i], Protected(vis[i + 1..hi], authenticated), vis[hi..];
    ProtectedStep(vis, i, hi, authenticated);
    assert vis[..i + 1] == front + [vis[i]];
    Regroup(front, vis[i], kept, back);
    DropOne(front, vis[i], kept + back);
  }

  lemma ProtectedStep(vis: seq<Node>, i: nat, hi: nat, authenticated: bool)
    requires i < hi <= |vis|
    ensures Protected(vis[i..hi], authenticated) ==
              (if !authenticated && vis[i].authenticated then [vis[i]] else []) + Protected(vis[i + 1..hi], authenticated)
  {
    assert vis[i..hi][0] == vis[i] && vis[i..hi][1..] == vis[i + 1..hi];
  }

  lemma Associate(a: seq<Node>, b: seq<Node>, c: seq<Node>)
    ensures a + b + c == a + (b + c)
  {
  }

  lemma Regroup(a: seq<Node>, n: Node, b: seq<Node>, c: seq<Node>)
    ensures a + [n] + b + c == a + ([n] + (b + c)) && a + ([n] + b) + c == a + ([n] + (b + c)) && a + ([] + b) + c == a + (b + c)
  {
    Associate(a + [n], b, c);
    Associate(a, [n], b + c);
    Associate(a, [n] + b, c);
    Associate([n], b, c);
    assert [] + b == b;
    Associate(a, b, c);
  }

  lemma DropOne(a: seq<Node>, n: Node, b: seq<Node>)
    ensures var r := a + ([n] + b); r[..|a|] + r[|a| + 1..] == a + b
  {
    var r := a + ([n] + b);
    assert r[..|a|] == a;
    assert r[|a| + 1..] == b;
  }

  /** The visible nodes with `added` put in at position `at`. */
  ghost function Added(vis: seq<Node>, at: nat, added: seq<Node>): seq<Node>
    requires at <= |vis|
  {
    vis[..at] + added + vis[at..]
  }

  lemma AddedNothing(vis: seq<Node>, at: nat)
    requires at <= |vis|
    ensures Added(vis, at, []) == vis && Values([]) == ""
  {
  }

  lemma AddedStep(vis: seq<Node>, at: nat, added: seq<Node>, n: Node, chars: string, i: nat)
    requires at <= |vis| && i == |added| < |chars| && Values(added) == chars[..i] && n.value == chars[i]
    ensures Values(added + [n]) == chars[..i + 1]
    ensures var a := Added(vis, at, added);
            && Added(vis, at, added + [n]) == a[..at + i] + [n] + a[at + i..]
            && AnchorAt(Added(vis, at, added + [n]), at + i + 1) == Some(n.id)
  {
    ValuesConcat(added, [n]);
    assert Values([n]) == [chars[i]];
    assert chars[..i + 1] == chars[..i] + [chars[i]];
    var a := Added(vis, at, added);
    assert a[..at + i] == vis[..at] + added && a[at + i..] == vis[at..];
  }

  lemma AddedText(vis: seq<Node>, at: nat, added: seq<Node>, chars: string)
    requires at <= |vis| && Values(added) == chars
    ensures Values(Added(vis, at, added)) == Spliced(Values(vis), at, chars)
  {
    ValuesConcat(vis[..at] + added, vis[at..]);
    ValuesConcat(vis[..at], added);
    assert Values(vis[..at]) == Values(vis)[..at] && Values(vis[at..]) == Values(vis)[at..];
  }

  lemma NothingReplaced(vis: seq<Node>, text: string, c: Common, authenticated: bool)
    requires text == Values(vis) && IsCommon(text, text, c) && Fits(vis, text, c)
    ensures Changed(vis, text, c, authenticated) == text
  {
    assert c.prefix == |text| == |vis| && c.suffix == 0;
    assert vis[c.prefix..|vis| - c.suffix] == [];
  }

  /** The pieces of the text after deleting, with the inserted characters still to come. */
  lemma ReducedText(vis: seq<Node>, newText: string, c: Common, authenticated: bool)
    requires Fits(vis, newText, c) && Values(vis)[..c.prefix] == newText[..c.prefix]
    requires Values(vis)[|vis| - c.suffix..] == newText[|newText| - c.suffix..]
    ensures c.prefix <= |Reduced(vis, c.prefix, |vis| - c.suffix, authenticated)|
    ensures Spliced(Values(Reduced(vis, c.prefix, |vis| - c.suffix, authenticated)), c.prefix, newText[c.prefix..|newText| - c.suffix])
              == Changed(vis, newText, c, authenticated)
  {
    var kept := Protected(vis[c.prefix..|vis| - c.suffix], authenticated);
    ValuesOfPieces(vis, c.prefix, kept, |vis| - c.suffix);
    Assemble(newText, c, Values(kept));
  }

  lemma ValuesOfPieces(vis: seq<Node>, lo: nat, kept: seq<Node>, hi: nat)
    requires lo <= hi <= |vis|
    ensures Values(vis[..lo] + kept + vis[hi..]) == Values(vis)[..lo] + Values(kept) + Values(vis)[hi..]
  {
    ValuesConcat(vis[..lo] + kept, vis[hi..]);
    ValuesConcat(vis[..lo], kept);
  }

  lemma Assemble(newText: string, c: Common, kept: string)
    requires c.prefix + c.suffix <= |newText|
    ensures Spliced(newText[..c.prefix] + kept + newText[|newText| - c.suffix..], c.prefix, newText[c.prefix..|newText| - c.suffix])
              == Spliced(newText, |newText| - c.suffix, kept)
  {
    var front, back := newText[..c.prefix], newText[|newText| - c.suffix..];
    var middle := front + kept + back;
    assert middle[..c.prefix] == front && middle[c.prefix..] == kept + back;
    assert front + newText[c.prefix..|newText| - c.suffix] == newText[..|newText| - c.suffix];
  }
}
