/** The event store: a numbered, de-duplicating log per entry, and catching up from it. */
module EventLog {
  import opened Ids
  import opened RgaModel
  import opened Buffering
  import opened Convergence

  type EntryId = string

  datatype EventType = CrdtOp | EntryCreate | EntryDelete

  /** A stored event.  The payload is the decoded operation, whose request id is the event's. */
  datatype Event = Event(entryId: EntryId, serverSeq: int, eventType: EventType, op: Operation)

  datatype Store = Store(events: map<EntryId, seq<Event>>, seen: set<string>)

  function Log(s: Store, e: EntryId): seq<Event>
  {
    if e in s.events then s.events[e] else []
  }

  /** What `Append` does: a request id already seen is dropped, any other event is numbered
      one past the last of its entry. */
  function Appended(s: Store, ev: Event): Store
  {
    if ev.op.requestId in s.seen then s
    else
      var log := Log(s, ev.entryId);
      Store(s.events[ev.entryId := log + [ev.(serverSeq := |log| + 1)]], s.seen + {ev.op.requestId})
  }

  function AppendAll(s: Store, evs: seq<Event>): Store
    decreases |evs|
  {
    if evs == [] then s else AppendAll(Appended(s, evs[0]), evs[1..])
  }

  /** The events after number `k`. */
  function After(log: seq<Event>, k: int): seq<Event>
  {
    if k < 0 then log else if k > |log| then [] else log[k..]
  }

  // ---------- What every run keeps ----------

  /** Position `i` of the log of entry `e` holds an event. */
  ghost predicate Holding(s: Store, e: EntryId, i: int)
  {
    e in s.events && 0 <= i < |s.events[e]|
  }

  ghost predicate Numbered(s: Store)
  {
    && (forall e, i :: Holding(s, e, i) ==> Log(s, e)[i].serverSeq == i + 1 && Log(s, e)[i].entryId == e)
    && (forall e, i :: Holding(s, e, i) ==> Log(s, e)[i].op.requestId in s.seen)
    && (forall e, i, f, j :: Holding(s, e, i) && Holding(s, f, j) && Log(s, e)[i].op.requestId == Log(s, f)[j].op.requestId
          ==> e == f && i == j)
  }

  lemma AppendKeeps(s: Store, ev: Event)
    requires Numbered(s)
    ensures Numbered(Appended(s, ev))
    ensures forall e :: e != ev.entryId ==> Log(Appended(s, ev), e) == Log(s, e)
    ensures Log(s, ev.entryId) <= Log(Appended(s, ev), ev.entryId)
  {
    if ev.op.requestId !in s.seen {
      var t := Appended(s, ev);
      forall e, i | Holding(t, e, i)
        ensures if Holding(s, e, i) then Log(t, e)[i] == Log(s, e)[i]
                else e == ev.entryId && i == |Log(s, e)| && Log(t, e)[i] == ev.(serverSeq := i + 1)
      {
      }
    }
  }

  /** Over every run each entry's events are numbered 1..n without gaps, and each request id
      is stored at most once across all entries. */
  lemma {:induction false} EveryRunIsNumbered(s: Store, evs: seq<Event>)
    requires Numbered(s)
    ensures Numbered(AppendAll(s, evs))
    decreases |evs|
  {
    if evs != [] {
      AppendKeeps(s, evs[0]);
      EveryRunIsNumbered(Appended(s, evs[0]), evs[1..]);
    }
  }

  // ---------- What is stored ----------

  const NOTHING: Store := Store(map[], {})

  /** No earlier event of the run carries the request id. */
  ghost predicate IsFirst(evs: seq<Event>, i: nat)
    requires i < |evs|
  {
    forall j :: 0 <= j < i ==> evs[j].op.requestId != evs[i].op.requestId
  }

  /** The events of an entry that are the first to carry their request id, in order of arrival. */
  ghost function Firsts(evs: seq<Event>, e: EntryId): seq<Event>
  {
    if evs == [] then []
    else
      var n := |evs| - 1;
      Firsts(evs[..n], e) + if evs[n].entryId == e && IsFirst(evs, n) then [evs[n]] else []
  }

  lemma {:induction false} AppendAllStep(s: Store, evs: seq<Event>)
    requires evs != []
    ensures AppendAll(s, evs) == Appended(AppendAll(s, evs[..|evs| - 1]), evs[|evs| - 1])
    decreases |evs|
  {
    if |evs| == 1 {
      assert evs[..0] == [] && evs[1..] == [];
    } else {
      AppendAllStep(Appended(s, evs[0]), evs[1..]);
      assert evs[1..][..|evs| - 2] == evs[..|evs| - 1][1..];
      assert evs[..|evs| - 1][0] == evs[0];
    }
  }

  lemma {:induction false} SeenAreAll(evs: seq<Event>)
    ensures forall id :: id in AppendAll(NOTHING, evs).seen <==> exists i :: 0 <= i < |evs| && evs[i].op.requestId == id
  {
    if evs != [] {
      var n := |evs| - 1;
      AppendAllStep(NOTHING, evs);
      SeenAreAll(evs[..n]);
      assert forall i :: 0 <= i < n ==> evs[..n][i] == evs[i];
    }
  }

  /** The log is the given events, numbered from 1. */
  ghost predicate NumberedCopy(log: seq<Event>, evs: seq<Event>)
  {
    |log| == |evs| && forall k :: 0 <= k < |log| ==> log[k] == evs[k].(serverSeq := k + 1)
  }

  /** What is stored after a run: of each entry exactly the first event for each request id, in
      order of arrival, with nothing changed but the number. */
  lemma {:induction false} LogIsFirsts(evs: seq<Event>, e: EntryId)
    ensures NumberedCopy(Log(AppendAll(NOTHING, evs), e), Firsts(evs, e))
  {
    if evs != [] {
      var n := |evs| - 1;
      AppendAllStep(NOTHING, evs);
      LogIsFirsts(evs[..n], e);
      SeenAreAll(evs[..n]);
      FirstIsUnseen(evs);
    }
  }

  lemma FirstIsUnseen(evs: seq<Event>)
    requires evs != []
    ensures IsFirst(evs, |evs| - 1) <==> evs[|evs| - 1].op.requestId !in AppendAll(NOTHING, evs[..|evs| - 1]).seen
  {
    var n := |evs| - 1;
    SeenAreAll(evs[..n]);
    assert forall i :: 0 <= i < n ==> evs[..n][i] == evs[i];
  }

  // ---------- Catching up ----------

  datatype SyncOp = SyncOp(serverSeq: int, op: Operation)

  datatype SyncMessage = SyncMessage(entryId: EntryId, ops: seq<SyncOp>, latestServerSeq: int)

  /** The message a client that has seen number `k` is sent. */
  function DiffOf(log: seq<Event>, e: EntryId, k: int): SyncMessage
  {
    var evs := After(log, k);
    SyncMessage(e, seq(|evs|, i requires 0 <= i < |evs| => SyncOp(evs[i].serverSeq, evs[i].op)), |log|)
  }

  function OpsOf(evs: seq<Event>): seq<Operation>
  {
    seq(|evs|, i requires 0 <= i < |evs| => evs[i].op)
  }

  /** No two events of the log insert the same node. */
  ghost predicate DistinctInserts(log: seq<Event>)
  {
    forall i, j :: 0 <= i < j < |log| && log[i].op.opType.Insert? && log[j].op.opType.Insert? ==>
      log[i].op.nodeId != log[j].op.nodeId
  }

  /** The store's de-duplication gives every request id one operation. */
  lemma LogIsCoherent(s: Store, e: EntryId)
    requires Numbered(s) && DistinctInserts(Log(s, e))
    ensures Coherent(Elements(OpsOf(Log(s, e))))
  {
    var log := Log(s, e);
    var ops := OpsOf(log);
    forall o, p | o in ops && p in ops
      ensures o.requestId == p.requestId ==> o == p
      ensures o.opType.Insert? && p.opType.Insert? && o.nodeId == p.nodeId ==> o == p
    {
      var i :| 0 <= i < |ops| && ops[i] == o;
      var j :| 0 <= j < |ops| && ops[j] == p;
      assert Holding(s, e, i) && Holding(s, e, j);
      assert log[i].op == o && log[j].op == p;
    }
  }

  lemma {:induction false} ApplyAllConcat(s: Rga, a: seq<Operation>, b: seq<Operation>)
    ensures ApplyAll(ApplyAll(s, a), b) == ApplyAll(s, a + b)
    decreases |a|
  {
    if a == [] {
      assert a + b == b;
    } else {
      assert (a + b)[0] == a[0] && (a + b)[1..] == a[1..] + b;
      ApplyAllConcat(Apply(s, a[0]), a[1..], b);
    }
  }

  lemma SplitOps(log: seq<Event>, k: nat)
    requires k <= |log|
    ensures OpsOf(log) == OpsOf(log[..k]) + OpsOf(After(log, k))
  {
    assert log[..k] + log[k..] == log;
  }

  /** The operations a message carries. */
  function Carried(msg: SyncMessage): seq<Operation>
  {
    seq(|msg.ops|, i requires 0 <= i < |msg.ops| => msg.ops[i].op)
  }

  /** A message carries what the log holds behind the given number, with the numbers, and names
      the last one. */
  lemma DiffIsSuffix(s: Store, e: EntryId, k: nat)
    requires Numbered(s) && k <= |Log(s, e)|
    ensures var log, msg := Log(s, e), DiffOf(Log(s, e), e, k);
            && msg.entryId == e && |msg.ops| == |log| - k
            && (forall i :: 0 <= i < |msg.ops| ==> msg.ops[i].op == log[k + i].op && msg.ops[i].serverSeq == k + i + 1)
            && msg.latestServerSeq == |log| && (msg.ops != [] ==> msg.latestServerSeq == msg.ops[|msg.ops| - 1].serverSeq)
  {
    forall i | k <= i < |Log(s, e)|
      ensures Log(s, e)[i].serverSeq == i + 1
    {
      assert Holding(s, e, i);
    }
  }

  lemma CarriedIsSuffix(log: seq<Event>, e: EntryId, k: int)
    ensures Carried(DiffOf(log, e, k)) == OpsOf(After(log, k))
  {
  }

  /** A client that holds exactly the operations numbered up to `k`, however it came by
      them, and applies what the message for `k` carries reaches the document of a new client
      that applies what the message for 0 carries: the document of the whole log. */
  lemma CatchUp(s: Store, e: EntryId, k: nat, held: seq<Operation>)
    requires Numbered(s) && DistinctInserts(Log(s, e)) && k <= |Log(s, e)|
    requires Elements(held) == Elements(OpsOf(Log(s, e)[..k]))
    ensures Carried(DiffOf(Log(s, e), e, 0)) == OpsOf(Log(s, e))
    ensures var caught := ApplyAll(ApplyAll(Empty, held), Carried(DiffOf(Log(s, e), e, k)));
            var anew := ApplyAll(Empty, Carried(DiffOf(Log(s, e), e, 0)));
            && caught.nodes == anew.nodes && Text(caught.nodes) == Text(anew.nodes)
            && caught.seen == anew.seen && caught.counter == anew.counter
            && multiset(caught.pending) == multiset(anew.pending)
  {
    var log := Log(s, e);
    var rest := OpsOf(After(log, k));
    CarriedIsSuffix(log, e, k);
    CarriedIsSuffix(log, e, 0);
    SplitOps(log, k);
    ApplyAllConcat(Empty, held, rest);
    ElementsConcat(held, rest);
    ElementsConcat(OpsOf(log[..k]), rest);
    assert After(log, 0) == log;
    LogIsCoherent(s, e);
    Converge(held + rest, OpsOf(log));
  }

  // ---------- The store and the service over it ----------

  lemma AfterStep(log: seq<Event>, i: nat, k: int)
    requires i < |log|
    ensures After(log[..i + 1], k) == After(log[..i], k) + if i + 1 > k then [log[i]] else []
  {
    assert log[..i + 1] == log[..i] + [log[i]];
  }

  class EventStore {
    var events: map<EntryId, seq<Event>>
    var seqs: map<EntryId, int>
    var seen: set<string>

    ghost function Contents(): Store
      reads this
    {
      Store(events, seen)
    }

    ghost predicate Valid()
      reads this
    {
      Numbered(Contents()) && Counted()
    }

    constructor ()
      ensures Valid() && Contents() == Store(map[], {})
    {
      events, seqs, seen := map[], map[], {};
    }

    /** The last number of each entry is the length of its log. */
    ghost predicate Counted()
      reads this
    {
      seqs.Keys == events.Keys && forall e :: e in events ==> seqs[e] == |events[e]|
    }

    /** A new event is stored behind the others of its entry, under the next number, which is
        returned; an event whose request id was stored before changes nothing and gets 0. */
    method Append(ev: Event) returns (seqNo: int)
      requires Valid()
      modifies this
      ensures Valid() && Contents() == Appended(old(Contents()), ev)
      ensures ev.op.requestId in old(seen) ==> seqNo == 0 && events == old(events) && seen == old(seen)
      ensures ev.op.requestId !in old(seen) ==>
                && seen == old(seen) + {ev.op.requestId} && ev.entryId in events
                && seqNo == (if ev.entryId in old(events) then |old(events)[ev.entryId]| else 0) + 1
                && events[ev.entryId] == (if ev.entryId in old(events) then old(events)[ev.entryId] else [])
                                           + [Event(ev.entryId, seqNo, ev.eventType, ev.op)]
                && forall e :: e != ev.entryId ==> (e in events <==> e in old(events)) && (e in events ==> events[e] == old(events)[e])
    {
      AppendKeeps(Contents(), ev);
      seqNo := Number(ev);
    }

    method Number(ev: Event) returns (seqNo: int)
      requires Counted()
      modifies this
      ensures Counted() && Contents() == Appended(old(Contents()), ev)
      ensures seqNo == if ev.op.requestId in old(seen) then 0 else (if ev.entryId in old(events) then |old(events)[ev.entryId]| else 0) + 1
    {
      if ev.op.requestId in seen {
        return 0;
      }
      seen := seen + {ev.op.requestId};
      seqNo := (if ev.entryId in seqs then seqs[ev.entryId] else 0) + 1;
      seqs := seqs[ev.entryId := seqNo];
      var log := if ev.entryId in events then events[ev.entryId] else [];
      events := events[ev.entryId := log + [ev.(serverSeq := seqNo)]];
    }

    /** The events of an entry numbered above `afterSeq`: exactly a suffix of its log. */
    method ListAfter(e: EntryId, afterSeq: int) returns (result: seq<Event>)
      requires Valid()
      ensures result == After(Log(Contents(), e), afterSeq)
    {
      var log := if e in events then events[e] else [];
      result := [];
      var i := 0;
      while i < |log|
        invariant i <= |log| && result == After(log[..i], afterSeq)
      {
        assert Holding(Contents(), e, i);
        AfterStep(log, i, afterSeq);
        if log[i].serverSeq > afterSeq {
          result := result + [log[i]];
        }
        i := i + 1;
      }
      assert log[..i] == log;
    }

    method MaxServerSeq(e: EntryId) returns (n: int)
      requires Valid()
      ensures n == |Log(Contents(), e)|
    {
      n := if e in seqs then seqs[e] else 0;
    }
  }

  method GetDiff(store: EventStore, e: EntryId, afterSeq: int) returns (msg: SyncMessage)
    requires store.Valid()
    ensures msg == DiffOf(Log(store.Contents(), e), e, afterSeq)
  {
    var evs := store.ListAfter(e, afterSeq);
    var ops: seq<SyncOp> := [];
    var i := 0;
    while i < |evs|
      invariant i <= |evs| && |ops| == i
      invariant forall j :: 0 <= j < i ==> ops[j] == SyncOp(evs[j].serverSeq, evs[j].op)
    {
      ops := ops + [SyncOp(evs[i].serverSeq, evs[i].op)];
      i := i + 1;
    }
    var latest := store.MaxServerSeq(e);
    msg := SyncMessage(e, ops, latest);
  }
}
