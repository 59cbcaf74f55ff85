/** The projector of `entry_projector.go`: one replica per entry, the entry views derived
    from them, and their snapshots. */
module EntryProjector {
  import opened Ids
  import opened RgaModel
  import opened Buffering
  import opened Snapshots
  import opened EventLog
  import opened Projector

  datatype Entry = Entry(title: string, content: string, text: string)

  const CONTENT_LIMIT: nat := 200

  /** The text up to its first line break. */
  function FirstLine(text: string): (line: string)
    ensures line <= text && '\n' !in line
    ensures line == text || text[|line|] == '\n'
  {
    if text == "" || text[0] == '\n' then "" else [text[0]] + FirstLine(text[1..])
  }

  /** Title and content as shown in lists. */
  function EntryOf(text: string): (e: Entry)
    ensures e.text == text && e.content <= text && |e.content| <= 200
    ensures e.content == text || |e.content| == 200
    ensures '\n' !in e.title && e.title <= text && (e.title == text || text[|e.title|] == '\n')
  {
    Entry(FirstLine(text), if |text| > CONTENT_LIMIT then text[..CONTENT_LIMIT] else text, text)
  }

  function RgaOf(rgas: map<EntryId, Rga>, e: EntryId): Rga
  {
    if e in rgas then rgas[e] else Empty
  }

  /** The operations among the events. */
  function CrdtOps(evs: seq<Event>): seq<Operation>
  {
    if evs == [] then []
    else (if evs[0].eventType.CrdtOp? then [evs[0].op] else []) + CrdtOps(evs[1..])
  }

  /** An event of another type carries no operation. */
  lemma CrdtOpsOfOne(ev: Event)
    ensures CrdtOps([ev]) == if ev.eventType == CrdtOp then [ev.op] else []
  {
    assert [ev][1..] == [] && CrdtOps([]) == [];
  }

  /** The operations come in the order of their events. */
  lemma {:induction false} CrdtOpsConcat(a: seq<Event>, b: seq<Event>)
    ensures CrdtOps(a + b) == CrdtOps(a) + CrdtOps(b)
    decreases |a|
  {
    if a == [] {
      assert a + b == b;
    } else {
      assert (a + b)[0] == a[0] && (a + b)[1..] == a[1..] + b;
      CrdtOpsConcat(a[1..], b);
    }
  }

  /** Where the replay of an entry starts: its snapshot if there is one. */
  ghost function StartOf(snapshots: map<EntryId, RgaSnapshot>, rgas: map<EntryId, Rga>, e: EntryId): Rga
  {
    if e in snapshots then Imported(snapshots[e]) else RgaOf(rgas, e)
  }

  /** The replicas of the projector, the entries and the stored snapshots. */
  datatype Stores = Stores(rgas: map<EntryId, Rga>, entries: map<EntryId, Entry>, snapshots: map<EntryId, RgaSnapshot>)

  /** An entry that exists shows its replica, and its snapshot stands for it. */
  ghost predicate Published(s: Stores, e: EntryId)
  {
    e in s.rgas && e in s.entries && s.entries[e] == EntryOf(Text(s.rgas[e].nodes)) && e in s.snapshots && Represents(s.snapshots[e], s.rgas[e])
  }

  ghost predicate SameFiles(s: Stores, t: Stores, e: EntryId)
  {
    && (e in t.entries <==> e in s.entries) && (e in s.entries ==> t.entries[e] == s.entries[e])
    && (e in t.snapshots <==> e in s.snapshots) && (e in s.snapshots ==> t.snapshots[e] == s.snapshots[e])
  }

  /** Only the snapshot of the entry has been imported. */
  ghost predicate Untouched(s: Stores, t: Stores, e: EntryId)
  {
    RgaOf(t.rgas, e) == StartOf(s.snapshots, s.rgas, e) && SameFiles(s, t, e)
  }

  /** The whole log of the entry has been replayed over its snapshot, and published if the entry exists. */
  ghost predicate Restored(s: Stores, t: Stores, logs: map<EntryId, seq<Event>>, e: EntryId)
  {
    && e in t.rgas && t.rgas[e] == ApplyAll(StartOf(s.snapshots, s.rgas, e), CrdtOps(if e in logs then logs[e] else []))
    && if e in s.entries then Published(t, e) else SameFiles(s, t, e)
  }

  /** What a replay changes: the entry's replica, and its files if the entry exists. */
  ghost predicate Replayed(s: Stores, t: Stores, e: EntryId, events: seq<Event>)
  {
    && t.rgas == s.rgas[e := ApplyAll(RgaOf(s.rgas, e), CrdtOps(events))]
    && if e in s.entries then
         && e in t.entries && t.entries == s.entries[e := t.entries[e]]
         && e in t.snapshots && t.snapshots == s.snapshots[e := t.snapshots[e]] && Published(t, e)
       else t.entries == s.entries && t.snapshots == s.snapshots
  }

  /** What a restart gives an entry: the document of its whole log, whether there is a snapshot
      of some live projection of it or no state at all. */
  lemma RestoredIsWholeLog(s: Stores, t: Stores, logs: map<EntryId, seq<Event>>, e: EntryId, order: seq<Operation>)
    requires Restored(s, t, logs, e) && e in logs && Coherent(Elements(CrdtOps(logs[e]))) && Elements(order) <= Elements(CrdtOps(logs[e]))
    requires if e in s.snapshots then Represents(s.snapshots[e], Live(Empty, order)) else e !in s.rgas
    ensures e in t.rgas && t.rgas[e].nodes == ApplyAll(Empty, CrdtOps(logs[e])).nodes && t.rgas[e].seen == ApplyAll(Empty, CrdtOps(logs[e])).seen
    ensures e in s.entries ==> e in t.entries && t.entries[e].text == Text(ApplyAll(Empty, CrdtOps(logs[e])).nodes)
  {
    if e in s.snapshots {
      RestoreIsReplay(CrdtOps(logs[e]), order, s.snapshots[e]);
    }
  }

  lemma ReplayRestores(s: Stores, u: Stores, t: Stores, logs: map<EntryId, seq<Event>>, e: EntryId)
    requires Untouched(s, u, e) && Replayed(u, t, e, if e in logs then logs[e] else [])
    ensures Restored(s, t, logs, e)
  {
  }

  lemma ReplayLeavesOthers(s: Stores, u: Stores, t: Stores, logs: map<EntryId, seq<Event>>, e: EntryId, f: EntryId)
    requires f != e && Replayed(u, t, e, if e in logs then logs[e] else [])
    ensures Restored(s, u, logs, f) ==> Restored(s, t, logs, f)
    ensures Untouched(s, u, f) ==> Untouched(s, t, f)
  {
  }

  class EntryProjector {
    var rgas: map<EntryId, Rga>
    var entries: map<EntryId, Entry>
    var snapshots: map<EntryId, RgaSnapshot>

    constructor (entries: map<EntryId, Entry>, snapshots: map<EntryId, RgaSnapshot>)
      ensures rgas == map[] && this.entries == entries && this.snapshots == snapshots
    {
      this.rgas, this.entries, this.snapshots := map[], entries, snapshots;
    }

    /** Projects an operation.  The answer is no when the delete is refused, or when the
        entry does not exist; in the latter case the replica has changed all the same. */
    method Apply(e: EntryId, op: Operation) returns (applied: bool)
      modifies this
      ensures rgas == old(rgas)[e := LiveApply(RgaOf(old(rgas), e), op)]
      ensures applied <==> !Refused(RgaOf(old(rgas), e), op) && e in old(entries)
      ensures OneNodeEach(RgaOf(old(rgas), e).nodes) ==>
                (applied <==>
                  && e in old(entries)
                  && !(op.opType == Delete && op.authenticated == false
                       && forall n :: n in RgaOf(old(rgas), e).nodes && n.id == op.nodeId ==> n.authenticated))
      ensures applied ==> rgas[e] == RgaModel.Apply(RgaOf(old(rgas), e), op)
      ensures applied ==> entries == old(entries)[e := EntryOf(Text(rgas[e].nodes))]
      ensures applied ==> e in snapshots && Represents(snapshots[e], rgas[e]) && snapshots == old(snapshots)[e := snapshots[e]]
      ensures !applied ==> entries == old(entries) && snapshots == old(snapshots)
    {
      var rga := if e in rgas then rgas[e] else Empty;
      rgas := rgas[e := rga];
      ghost var s := rga;
      if OneNodeEach(s.nodes) {
        RefusedExactly(s, op);
      }
      if Refused(rga, op) {
        return false;
      }
      rga := RgaModel.Apply(rga, op);
      rgas := rgas[e := rga];
      if e !in entries {
        return false;
      }
      Publish(e);
      return true;
    }

    /** Derives the entry's view from its replica and snapshots the replica. */
    method Publish(e: EntryId)
      requires e in rgas && e in entries
      modifies `entries, `snapshots
      ensures entries == old(entries)[e := EntryOf(Text(rgas[e].nodes))]
      ensures e in snapshots && Represents(snapshots[e], rgas[e]) && snapshots == old(snapshots)[e := snapshots[e]]
    {
      entries := entries[e := EntryOf(Text(rgas[e].nodes))];
      var snap := ExportState("00000000-0000-0000-0000-000000000000", rgas[e]);
      snapshots := snapshots[e := snap];
    }

    ghost function Files(): Stores
      reads this
    {
      Stores(rgas, entries, snapshots)
    }

    /** Rebuilds the replicas: every snapshot is imported, then for each listed entry its
        whole log is replayed, without the refusals of `Apply`. */
    method Restore(logs: map<EntryId, seq<Event>>, entryIds: seq<EntryId>)
      requires forall i, j :: 0 <= i < j < |entryIds| ==> entryIds[i] != entryIds[j]
      modifies this
      ensures forall e :: e in entryIds ==> Restored(old(Files()), Files(), logs, e)
      ensures forall e :: e !in entryIds ==> Untouched(old(Files()), Files(), e)
    {
      ghost var was := Files();
      ImportAll();
      var i := 0;
      while i < |entryIds|
        invariant i <= |entryIds|
        invariant forall e :: e in entryIds[..i] ==> Restored(was, Files(), logs, e)
        invariant forall e :: e !in entryIds[..i] ==> Untouched(was, Files(), e)
      {
        var e := entryIds[i];
        ghost var before := Files();
        assert entryIds[..i + 1] == entryIds[..i] + [e];
        assert e !in entryIds[..i] && Untouched(was, before, e);
        Replay(e, if e in logs then logs[e] else []);
        ReplayRestores(was, before, Files(), logs, e);
        forall f | f != e
          ensures Restored(was, before, logs, f) ==> Restored(was, Files(), logs, f)
          ensures Untouched(was, before, f) ==> Untouched(was, Files(), f)
        {
          ReplayLeavesOthers(was, before, Files(), logs, e, f);
        }
        i := i + 1;
      }
      assert entryIds[..i] == entryIds;
    }

    method ImportAll()
      modifies `rgas
      ensures forall e :: RgaOf(rgas, e) == StartOf(snapshots, old(rgas), e)
      ensures forall e :: Untouched(old(Files()), Files(), e)
    {
      var todo := snapshots.Keys;
      while todo != {}
        invariant todo <= snapshots.Keys
        invariant forall e :: RgaOf(rgas, e) == if e in todo then RgaOf(old(rgas), e) else StartOf(snapshots, old(rgas), e)
      {
        var e :| e in todo;
        var rga := ImportState(snapshots[e]);
        rgas := rgas[e := rga];
        todo := todo - {e};
      }
    }

    method Replay(e: EntryId, events: seq<Event>)
      modifies this
      ensures Replayed(old(Files()), Files(), e, events)
    {
      var rga := if e in rgas then rgas[e] else Empty;
      ghost var goal := ApplyAll(rga, CrdtOps(events));
      assert events[0..] == events;
      var i := 0;
      while i < |events|
        modifies {}
        invariant i <= |events| && ApplyAll(rga, CrdtOps(events[i..])) == goal
      {
        assert events[i..][0] == events[i] && events[i..][1..] == events[i + 1..];
        if events[i].eventType.CrdtOp? {
          ghost var rest := CrdtOps(events[i + 1..]);
          assert ([events[i].op] + rest)[0] == events[i].op && ([events[i].op] + rest)[1..] == rest;
          rga := RgaModel.Apply(rga, events[i].op);
        } else {
          assert CrdtOps(events[i..]) == [] + CrdtOps(events[i + 1..]) == CrdtOps(events[i + 1..]);
        }
        i := i + 1;
      }
      assert events[i..] == [];
      rgas := rgas[e := rga];
      if e in entries {
        Publish(e);
      }
    }
  }
}
