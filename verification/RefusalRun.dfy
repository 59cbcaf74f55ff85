/** A run in which a refused delete leaves a browser and the projection apart, though nobody
    breaks a rule: a browser deletes an unprotected character that it learnt of from a diff,
    before the projection has it, and absent characters count as authenticated. */
module RefusalRun {
  import opened Ids
  import opened RgaModel
  import opened Projector
  import opened SyncClient
  import opened Protocol

  const X := NodeId("c", 1)
  const INSERT := InsertAfter(None, 'a')
  const DELETE := DeleteNode(X)
  /** The two operations as their browsers apply them, and as the log has them. */
  const LOCAL_INSERT := Operation(LocalId(0), Insert, X, None, 'a', false)
  const LOCAL_DELETE := Operation(LocalId(0), Delete, X, None, '\0', true)
  const LOGGED_INSERT := Operation("i", Insert, X, None, 'a', false)
  const LOGGED_DELETE := Operation("d", Delete, X, None, '\0', false)
  const NODE := Node(X, None, 'a', false, false)

  /** A replica with the one character. */
  function Shows(seen: set<string>): Rga
  {
    Rga(1, [NODE], seen, [])
  }

  function Hides(seen: set<string>): Rga
  {
    Rga(1, [NODE.(deleted := true)], seen, [])
  }

  // ---------- The browsers on their way ----------

  const NO_OPS: map<string, Operation> := map[]
  const NO_IDS: set<string> := {}

  function WriterClient(pending: map<string, Operation>, confirmed: set<string>, last: int): Client
  {
    Client("c", Shows({LocalId(0)}), 1, pending, confirmed, last, false)
  }

  /** The browser that inserted; `handler` and `inbox` vary. */
  function Writer(client: Client, inbox: seq<ServerMsg>, handler: Handler): Peer
  {
    Peer(client, false, [], inbox, handler, map["i" := LOCAL_INSERT], {}, true)
  }

  const DIFF_READ := [AuthStatus(false), Sync([], 0)]
  const WAITING := WriterClient(map["i" := LOCAL_INSERT], {}, 0)

  /** The browser that joins late and deletes. */
  function Eraser(client: Client, inbox: seq<ServerMsg>, handler: Handler, made: map<string, Operation>): Peer
  {
    Peer(client, false, [], inbox, handler, made, {LOGGED_INSERT}, true)
  }

  const JOINED := Client("d", Shows({"i"}), 0, map[], {}, 1, false)
  function ErasedClient(pending: map<string, Operation>, confirmed: set<string>, last: int): Client
  {
    Client("d", Hides({"i", LocalId(0)}), 1, pending, confirmed, last, false)
  }

  const ERASED := ErasedClient(map["d" := LOCAL_DELETE], {}, 1)
  const MADE_DELETE: map<string, Operation> := map["d" := LOCAL_DELETE]

  // ---------- Runs, step by step ----------

  ghost predicate Reachable(s: Sys)
  {
    exists steps :: IsRun(Start, steps) && After(Start, steps) == s
  }

  lemma {:induction false} RunOn(s: Sys, steps: seq<Step>, step: Step)
    requires IsRun(s, steps) && Enabled(After(s, steps), step)
    ensures IsRun(s, steps + [step]) && After(s, steps + [step]) == Do(After(s, steps), step)
    decreases |steps|
  {
    if steps == [] {
      assert [] + [step] == [step] && [step][1..] == [];
    } else {
      assert (steps + [step])[0] == steps[0] && (steps + [step])[1..] == steps[1..] + [step];
      RunOn(Do(s, steps[0]), steps[1..], step);
    }
  }

  lemma Go(s: Sys, step: Step)
    requires Reachable(s) && Enabled(s, step)
    ensures Reachable(Do(s, step))
  {
    var steps :| IsRun(Start, steps) && After(Start, steps) == s;
    RunOn(Start, steps, step);
    assert After(Start, steps + [step]) == Do(s, step);
  }

  lemma StartIsReachable()
    ensures Reachable(Start)
  {
    assert IsRun(Start, []) && After(Start, []) == Start;
  }

  // ---------- What the operations do ----------

  lemma LocalInsert()
    ensures LocalOp(NewClient("c"), INSERT) == LOCAL_INSERT
    ensures Apply(Empty, LOCAL_INSERT) == Shows({LocalId(0)})
    ensures Stamp(LOCAL_INSERT, "i", false) == LOGGED_INSERT && Apply(Empty, LOGGED_INSERT) == Shows({"i"})
  {
    FirstInsert(LOCAL_INSERT);
    FirstInsert(LOGGED_INSERT);
  }

  lemma InsertIsStamped()
    ensures Stamp(LOCAL_INSERT, "i", false) == LOGGED_INSERT
  {
  }

  lemma InsertIsAccepted()
    ensures !Refused(Empty, LOGGED_INSERT) && Apply(Empty, LOGGED_INSERT) == Shows({"i"})
  {
    FirstInsert(LOGGED_INSERT);
  }

  lemma LocalDelete()
    ensures LocalOp(JOINED, DELETE) == LOCAL_DELETE && Apply(Shows({"i"}), LOCAL_DELETE) == Hides({"i", LocalId(0)})
    ensures Stamp(LOCAL_DELETE, "d", false) == LOGGED_DELETE
  {
    assert LocalId(0)[0] == 'r';
    DeleteOnly(Shows({"i"}), NODE, LOCAL_DELETE);
    assert {"i"} + {LocalId(0)} == {"i", LocalId(0)};
  }

  // ---------- The peers of the run ----------

  function Only(c: Peer): map<SiteId, Peer>
  {
    map["c" := c]
  }

  function Both(c: Peer, d: Peer): map<SiteId, Peer>
  {
    map["c" := c, "d" := d]
  }

  lemma Updates(c: Peer, d: Peer, e: Peer)
    ensures Only(c)["c" := e] == Only(e) && Only(c)["d" := d] == Both(c, d)
    ensures Both(c, d)["c" := e] == Both(e, d) && Both(c, d)["d" := e] == Both(c, e)
  {
  }

  /** What a step of the connection of `c` makes of the system. */
  lemma EditDoes(s: Sys, c: SiteId, e: Edit, id: string)
    requires Enabled(s, MakeEdit(c, e, id))
    ensures Do(s, MakeEdit(c, e, id)) == s.(peers := s.peers[c := EditPeer(s.peers[c], e, id)], usedIds := s.usedIds + {id})
  {
  }

  lemma ShareDoes(s: Sys, c: SiteId, r: Rga)
    requires Enabled(s, Share(c)) && !Refused(s.projector, s.peers[c].handler.shared) && Apply(s.projector, s.peers[c].handler.shared) == r
    ensures var p := s.peers[c];
      Do(s, Share(c)) == s.(peers := s.peers[c := p.(handler := Projected(p.handler.shared, p.handler.number))],
        projector := r, projected := s.projected + {p.handler.shared})
  {
  }

  // ---------- The writer's insert is stored ----------

  const EDITED_WRITER := Peer(WAITING, false, [SyncRequest(0), OpMsg("i", LOCAL_INSERT)], [AuthStatus(false)], Idle, map["i" := LOCAL_INSERT], {}, false)
  const ASKED_WRITER := Peer(WAITING, false, [OpMsg("i", LOCAL_INSERT)], DIFF_READ, Idle, map["i" := LOCAL_INSERT], {}, true)
  const STORED_WRITER := Writer(WAITING, DIFF_READ, Stored(LOGGED_INSERT, 1))

  const CONNECTED := Sys(Only(NewPeer("c", false)), [], {}, Empty, {}, {}, {})
  const EDITED := Sys(Only(EDITED_WRITER), [], {}, Empty, {}, {}, {"i"})
  const ASKED := Sys(Only(ASKED_WRITER), [], {"c"}, Empty, {}, {}, {"i"})
  const STORED := Sys(Only(STORED_WRITER), [LOGGED_INSERT], {"c"}, Empty, {}, {}, {"i"})

  lemma WriterConnects()
    ensures Reachable(CONNECTED)
  {
    StartIsReachable();
    Go(Start, Connect("c", false));
    assert map[]["c" := NewPeer("c", false)] == Only(NewPeer("c", false));
  }

  lemma EditOfWriter()
    ensures EditPeer(NewPeer("c", false), INSERT, "i") == EDITED_WRITER
  {
    LocalInsert();
    assert NO_OPS["i" := LOCAL_INSERT] == map["i" := LOCAL_INSERT];
    assert [SyncRequest(0)] + [OpMsg("i", LOCAL_INSERT)] == [SyncRequest(0), OpMsg("i", LOCAL_INSERT)];
    assert Edited(NewClient("c"), INSERT, "i") == WAITING;
  }

  lemma Reaches(s: Sys, step: Step, t: Sys)
    requires Reachable(s) && Enabled(s, step) && Do(s, step) == t
    ensures Reachable(t)
  {
    Go(s, step);
  }

  lemma EditStep()
    ensures Enabled(CONNECTED, MakeEdit("c", INSERT, "i")) && Do(CONNECTED, MakeEdit("c", INSERT, "i")) == EDITED
  {
    EditDoes(CONNECTED, "c", INSERT, "i");
    EditOfWriter();
    Updates(NewPeer("c", false), EDITED_WRITER, EDITED_WRITER);
    assert {} + {"i"} == {"i"};
  }

  lemma WriterEdits()
    ensures Reachable(EDITED)
  {
    WriterConnects();
    EditStep();
    Reaches(CONNECTED, MakeEdit("c", INSERT, "i"), EDITED);
  }

  lemma DiffOfWriter()
    ensures ReadDiffPeer(TakePeer(EDITED_WRITER), []) == ASKED_WRITER && TakePeer(EDITED_WRITER).handler == Syncing(0)
  {
    assert TakePeer(EDITED_WRITER).toServer == [OpMsg("i", LOCAL_INSERT)];
    assert [AuthStatus(false)] + [Sync([], 0)] == DIFF_READ;
  }

  lemma WriterAsks()
    ensures Reachable(ASKED)
  {
    WriterEdits();
    DiffOfWriter();
    var p := TakePeer(EDITED_WRITER);
    Updates(EDITED_WRITER, p, p);
    Updates(p, ASKED_WRITER, ASKED_WRITER);
    Go(EDITED, Take("c"));
    assert {} + {"c"} == {"c"};
    Go(EDITED.(peers := Only(p), subscribers := {"c"}), ReadDiff("c"));
  }

  const STORING := ASKED.(peers := Only(ASKED_WRITER.(toServer := [], handler := Storing("i", LOCAL_INSERT))))

  lemma WriterTakes()
    ensures Reachable(STORING)
  {
    WriterAsks();
    var p := ASKED_WRITER.(toServer := [], handler := Storing("i", LOCAL_INSERT));
    assert TakePeer(ASKED_WRITER) == p;
    Updates(ASKED_WRITER, p, p);
    Go(ASKED, Take("c"));
    assert {"c"} + {"c"} == {"c"};
  }

  lemma NewIds()
    ensures "i" !in IdsOf([]) && "d" !in IdsOf([LOGGED_INSERT])
  {
    assert forall i :: 0 <= i < |[LOGGED_INSERT]| ==> [LOGGED_INSERT][i].requestId == "i";
  }

  lemma StoreStep()
    ensures Enabled(STORING, Store("c")) && Do(STORING, Store("c")) == STORED
  {
    InsertIsStamped();
    NewIds();
    var p := ASKED_WRITER.(toServer := [], handler := Storing("i", LOCAL_INSERT));
    Updates(p, STORED_WRITER, STORED_WRITER);
    assert [] + [LOGGED_INSERT] == [LOGGED_INSERT];
    assert p.(handler := Stored(LOGGED_INSERT, 1)) == STORED_WRITER;
  }

  lemma WriterStores()
    ensures Reachable(STORED)
  {
    WriterTakes();
    StoreStep();
    Reaches(STORING, Store("c"), STORED);
  }

  // ---------- The eraser learns of it and deletes it ----------

  const JOINED_ERASER := Eraser(JOINED, [], Idle, NO_OPS)
  const TOLD_ERASER := Peer(NewClient("d"), false, [], [AuthStatus(false), Sync([LOGGED_INSERT], 1)], Idle, map[], {}, true)
  const ERASED_ERASER := Peer(ERASED, false, [OpMsg("d", LOCAL_DELETE)], [], Idle, MADE_DELETE, {LOGGED_INSERT}, true)
  const REFUSED_ERASER := Eraser(ERASED, [Ack("d", 2)], Idle, MADE_DELETE)

  const TOLD := Sys(Both(STORED_WRITER, TOLD_ERASER), [LOGGED_INSERT], {"c", "d"}, Empty, {}, {}, {"i"})
  const LEARNT := Sys(Both(STORED_WRITER, JOINED_ERASER), [LOGGED_INSERT], {"c", "d"}, Empty, {}, {}, {"i"})
  const DELETED := Sys(Both(STORED_WRITER, ERASED_ERASER), [LOGGED_INSERT], {"c", "d"}, Empty, {}, {}, {"i", "d"})
  const REFUSED := Sys(Both(STORED_WRITER, REFUSED_ERASER), [LOGGED_INSERT, LOGGED_DELETE], {"c", "d"}, Empty, {}, {LOGGED_DELETE}, {"i", "d"})

  lemma EraserIsTold()
    ensures Reachable(TOLD)
  {
    WriterStores();
    var p := NewPeer("d", false);
    var q := TakePeer(p);
    assert q.toServer == [] && q.handler == Syncing(0);
    assert [AuthStatus(false)] + [Sync([LOGGED_INSERT], 1)] == [AuthStatus(false), Sync([LOGGED_INSERT], 1)];
    assert DiffAfter([LOGGED_INSERT], 0) == [LOGGED_INSERT];
    Updates(STORED_WRITER, p, p);
    Updates(STORED_WRITER, p, q);
    Updates(STORED_WRITER, q, TOLD_ERASER);
    Go(STORED, Connect("d", false));
    Go(STORED.(peers := Both(STORED_WRITER, p)), Take("d"));
    assert {"c"} + {"d"} == {"c", "d"};
    Go(STORED.(peers := Both(STORED_WRITER, q), subscribers := {"c", "d"}), ReadDiff("d"));
  }

  lemma DiffOfEraser()
    ensures var p := DeliverPeer(TOLD_ERASER); p.toClient != [] && DeliverPeer(p) == JOINED_ERASER
  {
    LocalInsert();
    var p := DeliverPeer(TOLD_ERASER);
    assert p == TOLD_ERASER.(toClient := [Sync([LOGGED_INSERT], 1)]);
    assert [LOGGED_INSERT][1..] == [];
    var c := NewClient("d").(lastServerSeq := 1);
    assert SyncedOps(c, [LOGGED_INSERT]) == SyncedOps(SyncedOp(c, LOGGED_INSERT), []) == JOINED;
    assert DeliverPeer(p).got == {LOGGED_INSERT};
  }

  lemma EraserLearns()
    ensures Reachable(LEARNT)
  {
    EraserIsTold();
    DiffOfEraser();
    var p := DeliverPeer(TOLD_ERASER);
    Updates(STORED_WRITER, TOLD_ERASER, p);
    Updates(STORED_WRITER, p, JOINED_ERASER);
    Go(TOLD, Deliver("d"));
    Go(TOLD.(peers := Both(STORED_WRITER, p)), Deliver("d"));
  }

  lemma EditOfEraser()
    ensures EditPeer(JOINED_ERASER, DELETE, "d") == ERASED_ERASER
  {
    LocalDelete();
    assert NO_OPS["d" := LOCAL_DELETE] == MADE_DELETE;
    assert [] + [OpMsg("d", LOCAL_DELETE)] == [OpMsg("d", LOCAL_DELETE)];
    assert Edited(JOINED, DELETE, "d") == ERASED;
  }

  lemma EraserDeletes()
    ensures Reachable(DELETED)
  {
    EraserLearns();
    EditOfEraser();
    Updates(STORED_WRITER, JOINED_ERASER, ERASED_ERASER);
    Go(LEARNT, MakeEdit("d", DELETE, "d"));
    assert {"i"} + {"d"} == {"i", "d"};
  }

  const ERASER_STORED := ERASED_ERASER.(toServer := [], handler := Stored(LOGGED_DELETE, 2))
  const DELETE_STORED := Sys(Both(STORED_WRITER, ERASER_STORED), [LOGGED_INSERT, LOGGED_DELETE], {"c", "d"}, Empty, {}, {}, {"i", "d"})

  lemma EraserStores()
    ensures Reachable(DELETE_STORED)
  {
    EraserDeletes();
    LocalDelete();
    var p := TakePeer(ERASED_ERASER);
    assert p.toServer == [] && p.handler == Storing("d", LOCAL_DELETE);
    Updates(STORED_WRITER, ERASED_ERASER, p);
    Updates(STORED_WRITER, p, ERASER_STORED);
    Go(DELETED, Take("d"));
    assert {"c", "d"} + {"d"} == {"c", "d"};
    NewIds();
    Go(DELETED.(peers := Both(STORED_WRITER, p)), Store("d"));
    assert [LOGGED_INSERT] + [LOGGED_DELETE] == [LOGGED_INSERT, LOGGED_DELETE];
  }

  /** The character is not in the projection yet, so it counts as authenticated. */
  lemma DeleteIsRefused()
    ensures Reachable(REFUSED)
  {
    EraserStores();
    var p := AckPeer(ERASER_STORED);
    assert [] + [Ack("d", 2)] == [Ack("d", 2)];
    assert p.handler == Sharing(LOGGED_DELETE, 2);
    Updates(STORED_WRITER, ERASER_STORED, p);
    Updates(STORED_WRITER, p, REFUSED_ERASER);
    Go(DELETE_STORED, SendAck("d"));
    assert Refused(Empty, LOGGED_DELETE);
    Go(DELETE_STORED.(peers := Both(STORED_WRITER, p)), Share("d"));
    assert {} + {LOGGED_DELETE} == {LOGGED_DELETE};
  }

  // ---------- The insert is projected and sent to both ----------

  const SENT_INBOX := [AuthStatus(false), Sync([], 0), Ack("i", 1), Sync([LOGGED_INSERT], 1)]
  const CASTING_WRITER := Writer(WAITING, DIFF_READ + [Ack("i", 1)], Broadcasting(LOGGED_INSERT, 1, {"c", "d"}))
  const SENT_WRITER := Writer(WAITING, SENT_INBOX, Idle)
  const SENT_ERASER := Eraser(ERASED, [Ack("d", 2), Sync([LOGGED_INSERT], 1)], Idle, MADE_DELETE)
  const CASTING := Sys(Both(CASTING_WRITER, REFUSED_ERASER), [LOGGED_INSERT, LOGGED_DELETE], {"c", "d"}, Shows({"i"}), {LOGGED_INSERT}, {LOGGED_DELETE}, {"i", "d"})
  const SENT := Sys(Both(SENT_WRITER, SENT_ERASER), [LOGGED_INSERT, LOGGED_DELETE], {"c", "d"}, Shows({"i"}), {LOGGED_INSERT}, {LOGGED_DELETE}, {"i", "d"})

  const SHARING_WRITER := Writer(WAITING, DIFF_READ + [Ack("i", 1)], Sharing(LOGGED_INSERT, 1))
  const PROJECTED_WRITER := Writer(WAITING, DIFF_READ + [Ack("i", 1)], Projected(LOGGED_INSERT, 1))
  const SHARING := Sys(Both(SHARING_WRITER, REFUSED_ERASER), [LOGGED_INSERT, LOGGED_DELETE], {"c", "d"}, Empty, {}, {LOGGED_DELETE}, {"i", "d"})
  const PROJECTED := Sys(Both(PROJECTED_WRITER, REFUSED_ERASER), [LOGGED_INSERT, LOGGED_DELETE], {"c", "d"}, Shows({"i"}), {LOGGED_INSERT}, {LOGGED_DELETE}, {"i", "d"})

  lemma AckStep()
    ensures Enabled(REFUSED, SendAck("c")) && Do(REFUSED, SendAck("c")) == SHARING
  {
    assert AckPeer(STORED_WRITER) == SHARING_WRITER;
    Updates(STORED_WRITER, REFUSED_ERASER, SHARING_WRITER);
  }

  lemma ShareResult(s: Sys, op: Operation)
    requires s == SHARING && op == LOGGED_INSERT
    ensures "c" in s.peers && s.peers["c"].handler == Sharing(op, 1)
    ensures s.(peers := s.peers["c" := s.peers["c"].(handler := Projected(op, 1))], projector := Shows({"i"}), projected := s.projected + {op})
      == PROJECTED
  {
    Updates(SHARING_WRITER, REFUSED_ERASER, PROJECTED_WRITER);
    assert {} + {LOGGED_INSERT} == {LOGGED_INSERT};
    assert SHARING_WRITER.(handler := Projected(LOGGED_INSERT, 1)) == PROJECTED_WRITER;
  }

  lemma ShareStep(s: Sys, op: Operation)
    requires s == SHARING && op == LOGGED_INSERT
    ensures Enabled(s, Share("c")) && Do(s, Share("c")) == PROJECTED
  {
    ShareResult(s, op);
    InsertIsAccepted();
    ShareDoes(s, "c", Shows({"i"}));
  }

  lemma GatherStep()
    ensures Enabled(PROJECTED, Gather("c")) && Do(PROJECTED, Gather("c")) == CASTING
  {
    Updates(PROJECTED_WRITER, REFUSED_ERASER, CASTING_WRITER);
    assert PROJECTED_WRITER.(handler := Broadcasting(LOGGED_INSERT, 1, {"c", "d"})) == CASTING_WRITER;
  }

  lemma InsertIsProjected()
    ensures Reachable(CASTING)
  {
    DeleteIsRefused();
    AckStep();
    Reaches(REFUSED, SendAck("c"), SHARING);
    ShareStep(SHARING, LOGGED_INSERT);
    Reaches(SHARING, Share("c"), PROJECTED);
    GatherStep();
    Reaches(PROJECTED, Gather("c"), CASTING);
  }

  const HALF_SENT_WRITER := Writer(WAITING, SENT_INBOX, Broadcasting(LOGGED_INSERT, 1, {"d"}))
  const HALF_SENT := Sys(Both(HALF_SENT_WRITER, REFUSED_ERASER), [LOGGED_INSERT, LOGGED_DELETE], {"c", "d"}, Shows({"i"}), {LOGGED_INSERT}, {LOGGED_DELETE}, {"i", "d"})

  lemma EchoStep()
    ensures Enabled(CASTING, Send("c", "c")) && Do(CASTING, Send("c", "c")) == HALF_SENT
  {
    assert {"c", "d"} - {"c"} == {"d"};
    var p := CASTING_WRITER.(handler := Broadcasting(LOGGED_INSERT, 1, {"d"}));
    assert DIFF_READ + [Ack("i", 1)] + [Sync([LOGGED_INSERT], 1)] == SENT_INBOX;
    assert ReceivePeer(p, LOGGED_INSERT, 1) == HALF_SENT_WRITER;
    Updates(CASTING_WRITER, REFUSED_ERASER, p);
    Updates(p, REFUSED_ERASER, HALF_SENT_WRITER);
  }

  lemma SendStep()
    ensures Enabled(HALF_SENT, Send("c", "d")) && Do(HALF_SENT, Send("c", "d")) == SENT
  {
    assert {"d"} - {"d"} == {};
    assert HALF_SENT_WRITER.(handler := Idle) == SENT_WRITER;
    assert [Ack("d", 2)] + [Sync([LOGGED_INSERT], 1)] == [Ack("d", 2), Sync([LOGGED_INSERT], 1)];
    assert ReceivePeer(REFUSED_ERASER, LOGGED_INSERT, 1) == SENT_ERASER;
    Updates(HALF_SENT_WRITER, REFUSED_ERASER, SENT_WRITER);
    Updates(SENT_WRITER, REFUSED_ERASER, SENT_ERASER);
  }

  lemma InsertIsSent()
    ensures Reachable(SENT)
  {
    InsertIsProjected();
    EchoStep();
    Reaches(CASTING, Send("c", "c"), HALF_SENT);
    SendStep();
    Reaches(HALF_SENT, Send("c", "d"), SENT);
  }

  // ---------- Everything is delivered ----------

  const DONE_WRITER := Writer(WriterClient(NO_OPS, {}, 1), [], Idle)
  const DONE_ERASER := Eraser(ErasedClient(NO_OPS, {"d"}, 2), [], Idle, MADE_DELETE)
  const DONE := Sys(Both(DONE_WRITER, DONE_ERASER), [LOGGED_INSERT, LOGGED_DELETE], {"c", "d"}, Shows({"i"}), {LOGGED_INSERT}, {LOGGED_DELETE}, {"i", "d"})

  const TOLD_WRITER := Writer(WAITING, [Ack("i", 1), Sync([LOGGED_INSERT], 1)], Idle)
  const ACKED_WRITER := Writer(WriterClient(NO_OPS, {"i"}, 1), [Sync([LOGGED_INSERT], 1)], Idle)

  lemma WriterReads()
    ensures var p := DeliverPeer(SENT_WRITER); p.toClient != [] && DeliverPeer(p) == TOLD_WRITER
  {
    var p := DeliverPeer(SENT_WRITER);
    assert p == SENT_WRITER.(toClient := [Sync([], 0), Ack("i", 1), Sync([LOGGED_INSERT], 1)]);
    assert Synced(WAITING, [], 0) == WAITING;
    assert DeliverPeer(p).got == {};
  }

  lemma WriterIsAcked()
    ensures DeliverPeer(TOLD_WRITER) == ACKED_WRITER
  {
    assert map["i" := LOCAL_INSERT] - {"i"} == NO_OPS;
    assert {} + {"i"} == {"i"};
  }

  lemma WriterSkipsEcho()
    ensures DeliverPeer(ACKED_WRITER) == DONE_WRITER
  {
    var c := WriterClient(NO_OPS, {"i"}, 1);
    assert [LOGGED_INSERT][1..] == [];
    assert SyncedOps(c, [LOGGED_INSERT]) == SyncedOps(SyncedOp(c, LOGGED_INSERT), []);
    assert {"i"} - {"i"} == {};
  }

  lemma EraserReads()
    ensures var p := DeliverPeer(SENT_ERASER); p.toClient != [] && DeliverPeer(p) == DONE_ERASER
  {
    var p := DeliverPeer(SENT_ERASER);
    var c := ErasedClient(NO_OPS, {"d"}, 2);
    assert MADE_DELETE - {"d"} == NO_OPS && {} + {"d"} == {"d"};
    assert p == Eraser(c, [Sync([LOGGED_INSERT], 1)], Idle, MADE_DELETE);
    assert [LOGGED_INSERT][1..] == [];
    assert SyncedOps(c, [LOGGED_INSERT]) == SyncedOps(SyncedOp(c, LOGGED_INSERT), []) == c;
    assert DeliverPeer(p).got == {LOGGED_INSERT};
  }

  lemma WriterIsDone()
    ensures Reachable(SENT.(peers := Both(DONE_WRITER, SENT_ERASER)))
  {
    InsertIsSent();
    WriterReads();
    WriterIsAcked();
    WriterSkipsEcho();
    var p := DeliverPeer(SENT_WRITER);
    Updates(SENT_WRITER, SENT_ERASER, p);
    Updates(p, SENT_ERASER, TOLD_WRITER);
    Updates(TOLD_WRITER, SENT_ERASER, ACKED_WRITER);
    Updates(ACKED_WRITER, SENT_ERASER, DONE_WRITER);
    Go(SENT, Deliver("c"));
    Go(SENT.(peers := Both(p, SENT_ERASER)), Deliver("c"));
    Go(SENT.(peers := Both(TOLD_WRITER, SENT_ERASER)), Deliver("c"));
    Go(SENT.(peers := Both(ACKED_WRITER, SENT_ERASER)), Deliver("c"));
  }

  lemma AllIsDelivered()
    ensures Reachable(DONE)
  {
    WriterIsDone();
    EraserReads();
    var p := DeliverPeer(SENT_ERASER);
    Updates(DONE_WRITER, SENT_ERASER, p);
    Updates(DONE_WRITER, p, DONE_ERASER);
    Go(SENT.(peers := Both(DONE_WRITER, SENT_ERASER)), Deliver("d"));
    Go(SENT.(peers := Both(DONE_WRITER, p)), Deliver("d"));
  }

  /** A run after which, with nothing under way, a browser lacks a character of the projection. */
  lemma RefusalLeavesThemApart() returns (steps: seq<Step>)
    ensures IsRun(Start, steps)
    ensures var s := After(Start, steps);
            && Quiescent(s) && "d" in s.peers && s.refused == {LOGGED_DELETE}
            && Text(s.projector.nodes) == "a" && Text(s.peers["d"].client.rga.nodes) == ""
  {
    AllIsDelivered();
    steps :| IsRun(Start, steps) && After(Start, steps) == DONE;
    TextOfOne(NODE);
    TextOfOne(NODE.(deleted := true));
  }
}
