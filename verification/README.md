# Verification of flourish and withered

A Dafny model of two systems of the repository, with proofs of what they promise.
`dafny verify dfyconfig.toml` checks everything.

**flourish** is a shared text. Every replica keeps a flat list of characters (a replicated growable
array), places concurrent inserts by priority, keeps deleted characters as tombstones and buffers
operations whose anchor has not arrived. Around the replica stand a numbered, de-duplicating event
log, a projector with snapshots and replay, and browsers that turn text changes into operations and
talk to the server over queues.

**withered** is a shooting game. A world of component maps is advanced by six systems in the order a
scheduler finds for them, and goes to the clients in a binary format.

## How it is built

| part | modules |
|---|---|
| order of ids and paths, the replica as a value; folded facts | `Ids`, `RgaModel`, `Folding` |
| the list is a tree order; one position per insert | `TreeOrder`, `PreOrder` |
| buffering, convergence, local edits, snapshots | `Buffering`, `Convergence`, `LocalIntent`, `Snapshots` |
| the Go and the TypeScript replica as classes over that specification | `Replica`, `NodeKeys`, `ClientReplica` |
| event log and catch-up, projector and restore | `EventLog`, `Projector`, `EntryProjector` |
| text changes and the browser's bookkeeping | `TextChange`, `SyncClient`, `SyncManager` |
| the sync protocol as a state machine | `Protocol`, `Quiescence`, `ProtocolSteps`, `ProtocolRuns`, `AnchoredRuns`, `RefusalRun` |
| topological sort and scheduler | `Scheduler`, `TopologicalSort`, `GameSchedule` |
| the game: rules on entities, invariants, the systems in plain terms, whole runs | `GameWorld`, `GameInvariants`, `GameLaws`, `GameRuns` |
| the game: component maps, loops and the class | `Components`, `GameLoops`, `GameVisits`, `ShootingWorld` |
| varints, room messages, snapshots on the wire | `Varint`, `RoomMessage`, `SnapshotFormat`, `SnapshotCodec` |

Convergence rests on one idea. Every attached node has the path of ids from its root; paths are
ordered with a prefix before its extensions and by priority where they part. The sibling scan keeps
the list strictly sorted in that order, and a strictly sorted list over a given set is unique.

The protocol is a state machine whose steps are an edit, the taking of a message, the reading of a
diff, the append, the acknowledgement, the projection, the reading of the subscribers, each single
send of a broadcast and each delivery; handlers of different connections interleave freely.
`Quiescence.Well` is its invariant. It follows every logged operation but the refused ones to the
projection and to every browser, so that what a refusal costs at rest is known exactly.

Every loop over a Go map takes any key still to come, so what is proved of a system holds for every
iteration order. The class `ShootingWorld` has the program's maps as fields; a ghost flag records
whether an id was issued while in use, and every promise is made for as long as it was not.
`GameWorld.Paced` is the condition that keeps it so: no live entity, and no owner of a bullet in
flight, is outlived by 65,536 further issues. Owners are included because a reissued owner id would
merge the bullets of two actors.

## Standing assumptions

- Distinct inserts carry distinct node ids and one request id names one operation (`Buffering.Coherent`).
- Clock counters stay below 2^64 - 1 where an id is made; site ids are canonical lower-case UUID text.
- Text changes need received inserts to be younger than their anchors (`LocalIntent.AnchorsOlder`);
  `AnchoredRuns` proves that of every state in which edits were anchored on characters at hand.
- The protocol has one entry that exists, open connections and successful saves; a browser edits only
  while connected, and its wire ids are new UUIDs.
- A text change works on characters that are one UTF-16 unit each.
- Local request ids of a browser are `req-` and a counter, without the time suffix.
- Coordinates of the game are real numbers; the square root is a parameter of which only its defining
  equation is used, and the random positions are arbitrary within what the code guarantees.

## Where code and comments part

- `AppendVarint` has an error for values above 2^62 - 1 declared beside it
  (`withered/server/domain/protocol/varint.go:15`) but no check: larger values are written and read
  back as something else. `Varint.RoundTripExactly` gives the exact condition.
- `Restore` is announced as rebuilding the projection but does not repeat the refusal check of
  `Apply` (`flourish/server/application/entry_projector.go:66`): `Projector.RestoredAgainstLive`
  gives the exact difference, `Projector.RestartKeepsText` says exactly when the text survives, and
  `Projector.RestartLosesCharacter` is a log of two operations for which it does not.
- A delete by an unauthenticated user is stored and served to late joiners even when the projection
  refuses it, and a character not yet projected counts as authenticated. So browsers and projection
  can end apart: `ProtocolRuns.EveryRunIsConsistentAtRest` says exactly when,
  `RefusalRun.RefusalLeavesThemApart` is such a run.
- The scheduler has an error for a dependency in another phase (`withered/server/application/schedular.go:72-74`), but looks
  dependencies up among the systems of the phase only: such a dependency is reported as missing (`GameSchedule.NeverAcrossPhases`).
- The entity count of a snapshot has 16 bits and wraps for a full world:
  `SnapshotCodec.SnapshotRoundTrip` gives the exact condition.
- The client's `appendVarint` writes nothing for values from 2^30 on: `Varint.ClientWritesAlike`.

## Model

| member | source | states |
|---|---|---|
| `Ids.PriorityIsStrictTotalOrder` | flourish/server/domain/crdt/crdt.go:329-334 | sibling priority (larger timestamp first, then smaller site id) is irreflexive, transitive and total, so siblings have exactly one order |
| `Ids.TextLessAtFirstDifference` | flourish/server/domain/crdt/crdt.go:333-333 | site ids compare as text: by the first index where they differ, the shorter first when there is none |
| `Ids.PathLessTransitive` | flourish/server/domain/crdt/crdt.go:329-403 | the document order of paths (a prefix before its extensions, priority where two paths part) is transitive |
| `Ids.PathLessTotal` | flourish/server/domain/crdt/crdt.go:329-403 | of two different paths one comes before the other |
| `Ids.BetweenIsBelow` | flourish/server/domain/crdt/crdt.go:376-387 | what lies between a node and one of its descendants descends from that node: each subtree is one contiguous block |
| `TreeOrder.ParentComesFirst` | flourish/server/domain/crdt/crdt.go:389-403 | in every path-sorted list a parent stands before its child, which is why the climb of isDescendantOf ends |
| `TreeOrder.DescendantIsBelow` | flourish/server/domain/crdt/crdt.go:389-403 | isDescendantOf answers yes exactly for the nodes whose path extends the path of the parent |
| `TreeOrder.SkipSubtreeIsBlockEnd` | flourish/server/domain/crdt/crdt.go:376-387 | skipSubtree returns exactly the end of the block: everything before it inside the subtree, everything from it on outside |
| `TreeOrder.ScanStopsOutside` | flourish/server/domain/crdt/crdt.go:350-361 | a scan that meets a node with another anchor has left the subtree of the anchor, and all that follows sorts behind the new node |
| `TreeOrder.ScanAdvances` | flourish/server/domain/crdt/crdt.go:350-365 | one round of the sibling scan keeps all skipped nodes in front of the new node in document order |
| `TreeOrder.ScanSplits` | flourish/server/domain/crdt/crdt.go:350-365 | where the scan stops, every node before sorts before the new one and every node behind sorts behind it: the one correct position |
| `TreeOrder.ApplyInsertKeepsTree` | flourish/server/domain/crdt/crdt.go:336-374 | inserting keeps the flat list strictly sorted in document order, with the paths of all other nodes unchanged |
| `TreeOrder.ApplyDeleteKeepsTree` | flourish/server/domain/crdt/crdt.go:416-423 | marking a tombstone keeps the list sorted under the same paths |
| `PreOrder.ListIsPreOrderWalk` | flourish/server/domain/crdt/crdt.go:337-403 | a sorted list is the pre-order walk of a forest in which every child hangs on its after-node and siblings stand in priority order |
| `PreOrder.SiblingsInOrder` | flourish/server/domain/crdt/crdt.go:326-374 | of two nodes on the same anchor the one with the larger timestamp stands first; on equal timestamps the one whose site id is smaller at the first difference |
| `Buffering.PerformKeeps` | flourish/server/domain/crdt/crdt.go:300-317 | carrying out an operation whose dependency is present moves it from the buffered to the applied side and touches no other |
| `Buffering.FlushPassKeeps` | flourish/server/domain/crdt/crdt.go:297-319 | one sweep over the buffer keeps the split of the received operations into applied and buffered |
| `Buffering.IdlePass` | flourish/server/domain/crdt/crdt.go:297-322 | a sweep over operations that are all blocked changes nothing and reports that nothing was applied |
| `Buffering.FlushKeeps` | flourish/server/domain/crdt/crdt.go:294-324 | the repeated sweeps end, lose and repeat nothing, and every operation still buffered is truly blocked |
| `Buffering.ApplyKeeps` | flourish/server/domain/crdt/crdt.go:264-292 | after every Apply the received operations split exactly into applied and buffered, the buffer is blocked and without repeats, the list is sorted, the request ids and the clock are those of what was received; a repeated operation changes nothing |
| `Buffering.ApplyAllKeeps` | flourish/server/domain/crdt/crdt.go:264-324 | the same over every sequence of operations, in any order and with any repeats |
| `Convergence.TombstoneIsExact` | flourish/server/domain/crdt/crdt.go:416-423 | a node is a tombstone exactly when a delete of it is among the received operations |
| `Convergence.DocumentIsItsEdits` | flourish/server/domain/crdt/crdt.go:264-374 | whatever the order of arrival: each node has the id, anchor, character and rights of a received insert and is deleted exactly when a delete of it was received; an insert is missing exactly when it is buffered, and what is buffered waits for a node that is not there |
| `Convergence.OrderedIsUnique` | flourish/server/domain/crdt/crdt.go:337-374 | two sorted lists of the same nodes with the same anchors are the same list |
| `Convergence.SameEditsSameDocument` | flourish/server/domain/crdt/crdt.go:265-374 | replicas that received the same inserts and deletes, under whatever request ids and rights, show the same characters with the same tombstones and the same text |
| `Convergence.TextByTombstones` | flourish/server/domain/crdt/crdt.go:435-444 | of two lists that differ in tombstones only, where one has those of the other and more, the texts agree exactly when the tombstones do |
| `Convergence.MoreDeletesHideMore` | flourish/server/domain/crdt/crdt.go:265-374 | of two replicas with the same inserts, one that received more deletes shows the same text exactly when they hide nothing the other shows |
| `Convergence.HoldsIsUnique` | flourish/server/domain/crdt/crdt.go:265-374 | the set of received operations determines nodes, tombstones, request ids, clock and the set of buffered operations |
| `Convergence.Converge` | flourish/server/domain/crdt/crdt.go:265-374 | any two replicas that applied the same set of operations, in any orders and with any repeats, have the same nodes, tombstones, text, request ids, clock and buffered operations |
| `LocalIntent.TickIsFresh` | flourish/server/domain/crdt/crdt.go:219-230 | Tick gives an id unlike every node id, every received id and every id a buffered operation waits for |
| `LocalIntent.LocalInsertLandsBehindAnchor` | flourish/server/domain/crdt/crdt.go:350-361 | a local insert puts its node immediately behind its anchor, keeps the order of all others and leaves the buffer alone |
| `LocalIntent.LocalInsertKeeps` | flourish/server/domain/crdt/crdt.go:466-477 | after a local insert the received operations are again coherent with older anchors, so the next edit starts from the same ground |
| `LocalIntent.LocalDeleteKeeps` | flourish/server/domain/crdt/crdt.go:479-488 | a local delete of a present node only marks that node |
| `LocalIntent.VisibleStep` | flourish/server/domain/crdt/crdt.go:435-444 | each node adds its character behind those before it, and a tombstone adds none |
| `Replica.Replica.constructor` | flourish/server/domain/crdt/crdt.go:254-262 | a new replica is empty |
| `Replica.Replica.TickClock` | flourish/server/domain/crdt/crdt.go:219-223 | the counter goes up by one, modulo 2^64, and gives the id |
| `Replica.Replica.UpdateClock` | flourish/server/domain/crdt/crdt.go:225-230 | the counter becomes the larger of itself and the received timestamp |
| `Replica.Replica.IsDescendantOf` | flourish/server/domain/crdt/crdt.go:389-403 | climbing through the index gives the same answer as climbing through the list, and terminates |
| `Replica.Replica.SkipSubtree` | flourish/server/domain/crdt/crdt.go:376-387 | the loop returns the end of the subtree |
| `Replica.Replica.ApplyInsert` | flourish/server/domain/crdt/crdt.go:336-374 | the scanning loop and the partial rebuild of the index give the list of the specification with an exact index |
| `Replica.Replica.ApplyDelete` | flourish/server/domain/crdt/crdt.go:416-423 | only the flag of the node with that id changes |
| `Replica.Replica.SweepPending` | flourish/server/domain/crdt/crdt.go:297-319 | the sweep that compacts the buffer in its own array equals a sweep over a copy: no unread operation is overwritten |
| `Replica.Replica.FlushPending` | flourish/server/domain/crdt/crdt.go:294-324 | the outer loop ends and leaves the nodes and the buffer of the specification |
| `Replica.Replica.Apply` | flourish/server/domain/crdt/crdt.go:264-292 | the new state is the specified one, and the answer is yes exactly for an operation not received before |
| `Replica.Replica.IsNodeAuthenticated` | flourish/server/domain/crdt/crdt.go:425-433 | yes unless the node is present and not authenticated |
| `Replica.Replica.GetText` | flourish/server/domain/crdt/crdt.go:435-444 | the values of the nodes without tombstone, in list order |
| `Replica.Replica.Insert` | flourish/server/domain/crdt/crdt.go:466-477 | ticks the clock, makes an insert with the id and applies it |
| `Replica.Replica.Delete` | flourish/server/domain/crdt/crdt.go:479-488 | makes a delete and applies it |
| `Replica.Replica.Export` | flourish/server/domain/crdt/crdt.go:103-133 | the snapshot stands for the whole state, buffer included |
| `Replica.Replica.Import` | flourish/server/domain/crdt/crdt.go:135-182 | a replica read back from a snapshot of a state has exactly that state, with a correct index |
| `Snapshots.ExportState` | flourish/server/domain/crdt/crdt.go:103-133 | the written nodes, request ids, counter and buffer are those of the replica |
| `Snapshots.ImportState` | flourish/server/domain/crdt/crdt.go:135-182 | reading gives the imported state, with missing rights read as authenticated |
| `Snapshots.NodesAsRead` | flourish/server/domain/crdt/crdt.go:135-170 | field by field: a node read back counts as authenticated unless the snapshot says it is not |
| `Snapshots.RestoredReplicaBehavesAlike` | flourish/server/domain/crdt/crdt.go:104-182 | after export and import, every later sequence of operations gets the same answers and ends in the same text |
| `NodeKeys.NodeKeyInjective` | flourish/cockpit/src/crdt/rga.ts:63-65 | two node ids never share a text key |
| `ClientReplica.ClientReplica.SkipSubtree` | flourish/cockpit/src/crdt/rga.ts:124-132 | the loop returns the end of the subtree |
| `ClientReplica.ClientReplica.ApplyInsert` | flourish/cockpit/src/crdt/rga.ts:98-122 | the client places a node where the server does, and its text-keyed index is exact again |
| `ClientReplica.ClientReplica.ApplyDelete` | flourish/cockpit/src/crdt/rga.ts:143-147 | only the flag of the node with that id changes |
| `ClientReplica.ClientReplica.FlushPending` | flourish/cockpit/src/crdt/rga.ts:149-173 | the sweeps end with the nodes and the buffer of the specification the server meets too |
| `ClientReplica.ClientReplica.Apply` | flourish/cockpit/src/crdt/rga.ts:76-96 | client and server replicas meet one specification, so convergence holds between them |
| `ClientReplica.ClientReplica.NodeAtPosition` | flourish/cockpit/src/crdt/rga.ts:181-190 | the id of the character at a visible position, if there is one |
| `EventLog.AppendKeeps` | flourish/server/adapter/memory/event_store.go:29-45 | appending keeps the numbering, extends one log at most and never rewrites an event |
| `EventLog.EveryRunIsNumbered` | flourish/server/adapter/memory/event_store.go:29-45 | over every run each entry's events are numbered 1..n without gaps and each request id is stored once across all entries |
| `EventLog.LogIsFirsts` | flourish/server/adapter/memory/event_store.go:29-45 | from the empty store, the log of an entry is the first arrival of each request id, in order of arrival, operation and type unchanged, numbered 1..n |
| `EventLog.LogIsCoherent` | flourish/server/adapter/memory/event_store.go:33-36 | the de-duplication gives every request id of a log one operation |
| `EventLog.CatchUp` | flourish/server/application/sync_service.go:125-166 | a client that holds the operations numbered up to k and applies the operations that the message of GetDiff(k) carries reaches the document of a new client that applies those of GetDiff(0) |
| `EventLog.DiffIsSuffix` | flourish/server/application/sync_service.go:125-166 | the message carries the operations k + 1 to n of the log with their numbers, and its number is the last one's |
| `EventLog.EventStore.Append` | flourish/server/adapter/memory/event_store.go:29-45 | a fresh request id: the log of the entry grows by this event alone, with its number set to the new length, and that number is returned; a request id already stored: nothing changes and 0 is returned |
| `EventLog.EventStore.ListAfter` | flourish/server/adapter/memory/event_store.go:47-59 | the filter returns exactly the suffix of the log behind the given number |
| `EventLog.EventStore.MaxServerSeq` | flourish/server/adapter/memory/event_store.go:61-66 | the number of the last event, 0 without one |
| `EventLog.GetDiff` | flourish/server/application/sync_service.go:125-166 | the message of the operations behind the given number; on the log alone, it changes nothing |
| `Projector.RefusedExactly` | flourish/server/application/entry_projector.go:65-69 | an operation is refused exactly when it is an unauthenticated delete and no node with its id is unauthenticated |
| `Projector.OrderedHasOneNodeEach` | flourish/server/domain/crdt/crdt.go:337-374 | every sorted list has one node per id, as the condition for a refusal needs it |
| `Projector.AcceptedDeleteHides` | flourish/server/application/entry_projector.go:65-71 | a delete that is authenticated, or whose target is not, turns the target into a tombstone and touches no other node |
| `Projector.NothingIsRefused` | flourish/server/application/entry_projector.go:65-71 | operations without an unauthenticated delete are projected whole |
| `Projector.LiveHolds` | flourish/server/application/entry_projector.go:58-71 | the live projection holds exactly the operations it did not refuse |
| `Projector.ReplayOverState` | flourish/server/application/entry_projector.go:135-156 | replaying a log over a state made from part of it gives what replaying it from nothing gives |
| `Projector.RestoreIsReplay` | flourish/server/application/entry_projector.go:111-180 | importing a snapshot of a live projection, which took any part of the log in any order, and replaying the whole log gives the nodes, request ids, clock and buffer of a replay from nothing |
| `Projector.RestoredAgainstLive` | flourish/server/application/entry_projector.go:65-71 | whatever order the live projection took the log in, the restored one differs from it only in tombstones, request ids, timestamps and blocked deletes of refused operations |
| `Projector.RestartKeepsText` | flourish/server/application/entry_projector.go:65-71 | a restart keeps the text if and only if no refused delete targets a character the live projection shows, for every log and every order of projection |
| `Projector.RestartLosesCharacter` | flourish/server/application/entry_projector.go:65-71 | the failing input: an authenticated insert and an unauthenticated delete of it; the live projection shows the character, the restored one does not |
| `Projector.DiffersWhereAllRefused` | flourish/server/application/entry_projector.go:65-71 | the two differ at a node exactly when it has deletes and every one of them was refused |
| `EntryProjector.FirstLine` | flourish/server/application/entry_projector.go:189-200 | the text up to its first line break, or all of it |
| `EntryProjector.EntryOf` | flourish/server/application/entry_projector.go:189-200 | the title reaches to the first line break or the end, the content to 200 characters or the end |
| `EntryProjector.EntryProjector.Apply` | flourish/server/application/entry_projector.go:47-96 | refused, with nothing changed but a new empty replica, exactly for an unauthenticated delete whose target is absent or authenticated; otherwise the operation is applied, and the entry, if it exists, and the snapshot follow |
| `EntryProjector.EntryProjector.Restore` | flourish/server/application/entry_projector.go:109-180 | each listed entry gets its whole log replayed over its snapshot, without the refusal check, and if it exists its text and a new snapshot; the others get their old snapshots |
| `EntryProjector.RestoredIsWholeLog` | flourish/server/application/entry_projector.go:109-180 | whatever part of a log was projected before and in whatever order, the restored replica is the replay of the whole log, and the entry has its text |
| `EntryProjector.CrdtOpsOfOne` | flourish/server/application/entry_projector.go:145-148 | an event that is no operation is skipped in a replay |
| `EntryProjector.CrdtOpsConcat` | flourish/server/application/entry_projector.go:141-152 | the operations replayed from a log are read in the order of the log, each event on its own |
| `TextChange.FindPrefix` | flourish/cockpit/src/sync/sync-manager.ts:91-99 | the longest common prefix |
| `TextChange.FindSuffix` | flourish/cockpit/src/sync/sync-manager.ts:101-110 | the longest common suffix that does not overlap the prefix |
| `TextChange.DeleteVisible` | flourish/cockpit/src/sync/sync-manager.ts:117-127 | deleting the node at a visible position removes that character and no other |
| `TextChange.InsertVisible` | flourish/cockpit/src/sync/sync-manager.ts:129-154 | inserting behind the node at a visible position puts the character there |
| `TextChange.ChangedIsNewText` | flourish/cockpit/src/sync/sync-manager.ts:87-157 | the result equals the new text if and only if the user is authenticated or nothing in the replaced range is protected |
| `TextChange.ProtectedOne` | flourish/cockpit/src/sync/sync-manager.ts:120-123 | a replaced character is kept exactly when it is authenticated and the user is not |
| `TextChange.ProtectedConcat` | flourish/cockpit/src/sync/sync-manager.ts:117-127 | which characters are kept is decided one by one, and their order stays |
| `SyncManager.SyncManager.MakeEdit` | flourish/cockpit/src/sync/sync-manager.ts:51-85 | the operation has the fields the caller gave, the next id of the clock and the rights of the user; it is applied once, kept as pending and sent |
| `SyncManager.SyncManager.HandleAck` | flourish/cockpit/src/sync/sync-manager.ts:199-205 | the acknowledged request is pending no more and confirmed, the last number only grows, the replica stays, and the invariant of the class with it |
| `SyncManager.SyncManager.HandleAuthStatus` | flourish/cockpit/src/sync/sync-manager.ts:211-214 | the rights change and nothing else, and the invariant of the class stays |
| `SyncManager.SyncManager.HandleSync` | flourish/cockpit/src/sync/sync-manager.ts:222-253 | operations pending or confirmed are skipped, all others applied and counted as received; messages under the standing assumptions keep the invariant of the class, and with it text changes exact |
| `SyncManager.SyncManager.SendSyncRequest` | flourish/cockpit/src/sync/sync-manager.ts:255-262 | asks for what follows the last number seen |
| `SyncManager.SyncManager.DeleteRange` | flourish/cockpit/src/sync/sync-manager.ts:117-127 | deletes the range from its end, except the characters an unauthenticated user may not delete |
| `SyncManager.SyncManager.InsertRange` | flourish/cockpit/src/sync/sync-manager.ts:129-154 | the characters appear at the position, in order, each anchored on the one before |
| `SyncManager.SyncManager.ApplyTextChange` | flourish/cockpit/src/sync/sync-manager.ts:87-157 | the text becomes common prefix, inserted text, protected characters of the replaced range in order, common suffix; every operation applied is sent |
| `SyncClient.SyncKeepsSound` | flourish/cockpit/src/sync/sync-manager.ts:222-253 | a message whose inserts are younger than their anchors leaves the replica ready for exact text changes |
| `SyncClient.OneSynced` | flourish/cockpit/src/sync/sync-manager.ts:227-250 | one operation of a message: a pending one is skipped, a confirmed one is skipped and forgotten, any other is applied |
| `SyncClient.EditKeeps` | flourish/cockpit/src/sync/sync-manager.ts:51-85 | a local edit keeps the replica sound and its local request ids unused |
| `ProtocolSteps.EditKeepsPeer` | flourish/cockpit/src/sync/sync-manager.ts:51-69 | an edit keeps what is known of a browser and its connection |
| `ProtocolSteps.DeliverEchoKeepsPeer` | flourish/cockpit/src/sync/sync-manager.ts:227-231 | the echo of an own operation is recognised, and forgotten with it |
| `ProtocolSteps.DeliverForeignKeepsPeer` | flourish/cockpit/src/sync/sync-manager.ts:227-250 | others' operations are applied and counted as received |
| `ProtocolRuns.StoreKeeps` | flourish/server/handler/ws.go:153-165 | storing an operation of a browser keeps the invariant of the whole system |
| `ProtocolRuns.SendAckKeeps` | flourish/server/handler/ws.go:167-177 | so does acknowledging it |
| `ProtocolRuns.ShareKeeps` | flourish/server/handler/ws.go:179-188 | so does projecting it, refused or not |
| `ProtocolRuns.GatherKeeps` | flourish/server/application/sync_service.go:115-118 | so does reading the list of subscribers, which is a step of its own behind the projection |
| `ProtocolRuns.SendKeeps` | flourish/server/application/sync_service.go:114-123 | so does each send of the broadcast |
| `ProtocolRuns.ReadDiffKeeps` | flourish/server/handler/ws.go:219-231 | so does answering a sync request behind the subscription |
| `ProtocolRuns.DeliverKeeps` | flourish/cockpit/src/sync/sync-manager.ts:188-253 | so does the delivery of any message to a browser |
| `ProtocolRuns.StepKeeps` | flourish/server/handler/ws.go:126-240 | every step of browsers, handlers, log, projector and queues keeps the invariant of the whole system |
| `ProtocolRuns.RunKeeps` | flourish/server/handler/ws.go:126-240 | so does every interleaving of steps |
| `Quiescence.AllProjectedAtRest` | flourish/server/handler/ws.go:179-188 | with nothing under way, exactly the logged operations that were not refused are in the projection |
| `Quiescence.EditsAtRest` | flourish/server/handler/ws.go:126-240 | with nothing under way, every browser has received exactly the inserts of the projection and at least its deletes |
| `Quiescence.ConsistentAtRest` | flourish/server/handler/ws.go:126-240 | with nothing under way, a browser shows the text of the projection if and only if no refused delete that reached it targets a character the projection shows |
| `ProtocolRuns.EveryRunIsConsistentAtRest` | flourish/server/handler/ws.go:126-240 | after every run from the start, refusals or not: once all queues are empty and all handlers idle, a browser's text is the projector's if and only if no refused delete that reached it targets a character the projection shows |
| `ProtocolRuns.RightsAreTheServers` | flourish/server/handler/ws.go:147-151 | in every run, every logged operation is an edit of some browser, under the request id it was sent with and with the rights the server gives that connection |
| `ProtocolRuns.WithoutRefusalsAllAgree` | flourish/server/handler/ws.go:126-240 | so after every run without a refusal all browsers show the projector's text |
| `RefusalRun.RefusalLeavesThemApart` | flourish/server/application/entry_projector.go:65-69 | a run of rule-abiding browsers in which a delete is refused because its character is not projected yet: at rest one browser shows less than the projection |
| `AnchoredRuns.StepKeepsOlder` | flourish/cockpit/src/sync/sync-manager.ts:129-154 | every step keeps inserts younger than their anchors, in the log and in every browser, when edits anchor on characters the browser holds |
| `AnchoredRuns.TextChangesAreAnchored` | flourish/cockpit/src/sync/sync-manager.ts:129-134 | the inserts of a text change anchor on characters the browser holds |
| `AnchoredRuns.TextChangesStayExact` | flourish/cockpit/src/sync/sync-manager.ts:87-157 | in every state of every run with such anchors, every browser meets what an exact text change needs |
| `AnchoredRuns.BrowsersKnowTheirRights` | flourish/cockpit/src/sync/sync-manager.ts:211-214 | in every run, a browser that has read all its messages has the rights the server gives its connection |
| `ProtocolRuns.NoEchoIsApplied` | flourish/cockpit/src/sync/sync-manager.ts:227-231 | in every run, no browser applies the echo of its own operation a second time |
| `TopologicalSort.BuildGraph` | withered/server/application/schedular.go:63-78 | counts every dependency, repeated ones included, or names one that is missing or of another phase |
| `TopologicalSort.Release` | withered/server/application/schedular.go:95-100 | finishing a system lowers the counts of its dependents and queues exactly those that reach zero |
| `TopologicalSort.DryQueueMeansCycle` | withered/server/application/schedular.go:103-105 | a queue that runs dry too early leaves systems that wait for each other in a cycle |
| `TopologicalSort.Sort` | withered/server/application/schedular.go:56-108 | the result is a permutation with every dependency before its dependents; a cycle is reported if and only if there is one, and any other error names its cause |
| `Scheduler.OrderedHasNoCycle` | withered/server/application/schedular.go:56-108 | an order that respects all dependencies rules out a cycle |
| `GameSchedule.CheckIds` | withered/server/application/schedular.go:21-30 | an empty or repeated id is refused, and only then; the id named is one that two systems carry |
| `GameSchedule.NewScheduler` | withered/server/application/schedular.go:18-46 | every phase gets a respecting order of all its systems if and only if no id is empty or repeated, no dependency is missing from its phase and no phase has a cycle; the error names what is wrong |
| `GameSchedule.OrderedIsNotRefused` | withered/server/application/schedular.go:18-108 | where every phase has an order there is no reason to refuse one: with NewScheduler, a scheduler is built if and only if there is none |
| `GameSchedule.NeverAcrossPhases` | withered/server/application/schedular.go:56-78 | the error for a dependency across phases is never reported: it is reported as missing |
| `GameSchedule.OfPhaseDistinct` | withered/server/application/schedular.go:19-30 | the systems of a phase are exactly those registered with it, each once |
| `GameSchedule.SystemIsOrdered` | withered/server/application/schedular.go:32-40 | every system is in the order of its phase |
| `GameSchedule.GameOrderIsForced` | withered/server/application/phase.go:37-244 | the dependencies of the game's systems admit one order only, the one they are registered in |
| `Components.ShapeIsKeySets` | withered/server/application/world.go:23-43 | the shape invariant says that each component map's key set is exactly the entities of its kind |
| `Components.ActorSpawns` | withered/server/application/world.go:71-82 | the component updates of a spawn are one new actor, given that the id is not in use |
| `Components.BulletSpawns` | withered/server/application/world.go:84-92 | the component updates of a shot are one new bullet, given that the id is not in use |
| `Components.ActorLeaves` | withered/server/application/world.go:94-109 | removing an actor removes it and its session and nothing else |
| `Components.BulletLeaves` | withered/server/application/world.go:94-109 | removing a bullet removes nothing else |
| `Components.TakenIsInUse` | withered/server/application/world.go:64-69 | an id is taken in the maps exactly when an entity, or the owner of a bullet in flight, has it |
| `Components.ReissueSpoilsShape` | withered/server/application/world.go:84-92 | a shot keeps the shape if and only if its id is not that of a living actor |
| `GameInvariants.ReissuedExactly` | withered/server/application/world.go:64-69 | the next id is one in use exactly when 65,536 issues, or a multiple, lie between |
| `GameInvariants.IssuedIsFresh` | withered/server/application/world.go:64-69 | as long as no id in use is outlived by 65,536 issues, the wrapping counter issues none of them |
| `ShootingWorld.ShootingWorld.constructor` | withered/server/application/world.go:45-62 | a new world is empty |
| `ShootingWorld.ShootingWorld.AllocEntity` | withered/server/application/world.go:64-69 | the 16-bit counter goes up by one and wraps; a reissue of an id in use is recorded |
| `ShootingWorld.ShootingWorld.SpawnActor` | withered/server/application/world.go:71-82 | the maps after a spawn, inside the spawn area |
| `ShootingWorld.ShootingWorld.SpawnBullet` | withered/server/application/world.go:84-92 | the maps after a shot |
| `ShootingWorld.ShootingWorld.RemoveEntity` | withered/server/application/world.go:94-109 | the id leaves every map, and its session |
| `ShootingWorld.ShootingWorld.RandomPosition` | withered/server/application/world.go:111-119 | a position at least the margin away from every edge |
| `ShootingWorld.ShootingWorld.Respawn` | withered/server/application/phase.go:40-54 | for every order of the iteration: timers go down by one, and exactly the actors whose timer runs out revive |
| `ShootingWorld.ShootingWorld.InputMove` | withered/server/application/phase.go:63-84 | the queue is drained in order; living actors move and stay on the map |
| `ShootingWorld.ShootingWorld.Nearest` | withered/server/application/phase.go:111-136 | for every order of the search: a nearest living rival, or none if there is none |
| `ShootingWorld.ShootingWorld.Aim` | withered/server/application/phase.go:138-149 | the velocity is the unit vector towards the target times the bullet speed, given a square root; too close exactly below 0.001 |
| `ShootingWorld.ShootingWorld.AutoShoot` | withered/server/application/phase.go:93-156 | for every order of the iteration: exactly the living actors whose cooldown runs out and who have a rival, none on their own spot, fire once, each at a nearest rival; at a good pace no id in use is issued |
| `ShootingWorld.ShootingWorld.BulletMove` | withered/server/application/phase.go:165-177 | every bullet moves by its velocity and ages by one |
| `ShootingWorld.ShootingWorld.StrikeOne` | withered/server/application/phase.go:194-230 | a bullet strikes one living non-owner in reach, or there is none |
| `ShootingWorld.ShootingWorld.CollisionDamage` | withered/server/application/phase.go:186-236 | for every order of both iterations: each spent bullet hit one actor alive at that moment, damage adds up per actor, and no bullet left reaches a living non-owner |
| `ShootingWorld.ShootingWorld.BulletCleanup` | withered/server/application/phase.go:245-258 | exactly the bullets with no time to live are removed |
| `ShootingWorld.ShootingWorld.RunTick` | withered/server/application/schedular.go:48-54 | whatever order the scheduler found, a tick is the six systems in their one possible order; the shape survives every tick at a good pace |
| `ShootingWorld.ShootingWorld.OnJoin` | withered/server/application/withered_application.go:43-50 | a new player at full health, with its session |
| `ShootingWorld.ShootingWorld.OnLeave` | withered/server/application/withered_application.go:52-64 | the session's actor is removed; an unknown session changes nothing |
| `ShootingWorld.ShootingWorld.HandleInput` | withered/server/application/withered_application.go:108-126 | the input is queued for the session's actor; an unknown session changes nothing |
| `GameInvariants.RespawnKeeps` | withered/server/application/phase.go:40-54 | respawning keeps the invariant of the world |
| `GameInvariants.InputMoveKeeps` | withered/server/application/phase.go:63-84 | so does moving |
| `GameInvariants.ShootKeeps` | withered/server/application/phase.go:93-156 | so does shooting: a new bullet is at least 30 ticks younger than any other of its owner |
| `GameInvariants.BulletMoveKeeps` | withered/server/application/phase.go:165-177 | the 16-bit time to live does not underflow, and the gaps between bullets of one owner stay |
| `GameInvariants.HitActor` | withered/server/application/phase.go:215-226 | the hits on a living actor take exactly 20 each and never underflow; it falls exactly at 0, keeps its kind bits and gets the full respawn timer |
| `GameInvariants.CollisionKeeps` | withered/server/application/phase.go:186-236 | collisions keep the invariant of the world |
| `GameInvariants.CleanupKeeps` | withered/server/application/phase.go:245-258 | after the cleanup every bullet has 1 to 119 ticks to live |
| `GameInvariants.JoinKeeps` | withered/server/application/withered_application.go:43-50 | a join at a good pace keeps the invariant of the world |
| `GameInvariants.LeaveKeeps` | withered/server/application/withered_application.go:52-64 | so does a leave |
| `GameInvariants.InputsMoveInOrder` | withered/server/application/withered_application.go:128-143 | each queued input moves its actor, if alive, one unit per key: W up, S down, A left, D right, opposite keys cancel, the edge of the map stops it; the others stay; one input after the other, in order |
| `GameLaws.BitsOfLife` | withered/server/application/world.go:121-131 | alive is bit 0 and respawning bit 1 of the life state; waking and falling keep the four kind bits |
| `GameLaws.DistanceIsPlain` | withered/server/application/phase.go:126-128 | distances take both coordinates and are symmetric |
| `GameLaws.RespawnIsPlain` | withered/server/application/phase.go:40-54 | actor by actor: a timer above 1 goes down by one, otherwise 100 health, alive, of the same kind, no timer, 5 to 95 in both coordinates; nothing else changes |
| `GameLaws.VolleyIsPlain` | withered/server/application/phase.go:93-156 | exactly the living actors with a cooldown of at most 1 and a target get one new bullet, from their position, with 120 ticks to live, at velocity 1.5 straight to a nearest living rival, and wait 30 ticks; all else stays |
| `GameLaws.FlightIsPlain` | withered/server/application/phase.go:165-177 | a bullet moves by its velocity in both coordinates and loses one tick |
| `GameLaws.CollisionIsPlain` | withered/server/application/phase.go:186-236 | a removed bullet touched, at a distance of at most 0.8, a living actor not its owner; a bullet left touches none it could hit; each hit takes 20 health, at 0 the actor falls, of the same kind, for 180 ticks |
| `GameLaws.CleanupIsPlain` | withered/server/application/phase.go:245-258 | exactly the bullets with 0 ticks to live go |
| `GameLaws.JoinIsPlain` | withered/server/application/withered_application.go:43-50 | one new player with 100 health, no cooldown, alive, 5 to 95 in both coordinates, with its session; nothing else changes |
| `GameLaws.LeaveIsPlain` | withered/server/application/withered_application.go:52-64 | the actor of the session and the session go, nothing else |
| `GameLaws.PressIsPlain` | withered/server/application/withered_application.go:108-126 | the input goes behind the others, for the actor of the session |
| `GameRuns.DamageIsConserved` | withered/server/application/phase.go:186-236 | for every iteration order the total health falls by exactly 20 times the number of bullets removed |
| `GameRuns.AtMostFourBullets` | withered/server/application/bullet.go:5-8 | no owner has more than four bullets in flight |
| `GameRuns.TickKeeps` | withered/server/application/schedular.go:48-54 | the invariant through all stages of a tick: actors alive with 20 to 100 health in steps of 20 or respawning with none and a timer of 1 to 180, inside the map; bullets with their lifetimes and gaps |
| `GameRuns.EveryRunIsSound` | withered/server/application/withered_application.go:43-126 | in every world of every run of joins, leaves, inputs and ticks at a good pace the invariant holds and no owner has more than four bullets |
| `GameRuns.SameEntity` | withered/server/application/world.go:64-109 | across an event an id not issued since names the same entity |
| `GameRuns.BulletsCountTicks` | withered/server/application/phase.go:165-177 | over any stretch of a run a bullet's time to live falls by the number of ticks, and its owner stays |
| `GameRuns.BulletsFlyStraight` | withered/server/application/phase.go:165-177 | over any stretch of a run a bullet flies n times its velocity in n ticks, and velocity and owner stay |
| `GameRuns.BulletsExpire` | withered/server/application/phase.go:165-258 | after 119 ticks every bullet in flight was fired since |
| `GameRuns.KindNeverChanges` | withered/server/application/phase.go:40-226 | an actor keeps its kind bits, its tag and its session as long as it is there |
| `GameRuns.KilledRevivesOnTime` | withered/server/application/phase.go:40-54 | an actor killed in tick t that stays is dead through every stage of the next 179 ticks and revives, at full health in the spawn area, in tick t+180 |
| `Varint.ReadVarint` | withered/server/domain/protocol/varint.go:22-47 | reads a value below 2^62 and never looks or reports behind the buffer; too short exactly when the announced length is not there |
| `Varint.WrittenIsWire` | withered/server/domain/protocol/varint.go:50-63 | the written bytes are the value in the fewest of 1, 2, 4 or 8 bytes, with the length in the top two bits |
| `Varint.WrittenBytes` | withered/server/domain/protocol/varint.go:50-63 | the bytes in numbers: big-endian, 0, 1, 2 or 3 in the top two bits for 1, 2, 4 or 8 bytes |
| `Varint.ReadIsJoined` | withered/server/domain/protocol/varint.go:22-47 | the value read is the announced bytes as one number, without the two top bits |
| `Varint.RoundTripExactly` | withered/server/domain/protocol/varint.go:22-77 | reading inverts writing and consumes VarintLen bytes, with any trailing bytes, if and only if the value is below 2^62 |
| `Varint.AppendIsConcat` | withered/server/domain/protocol/varint.go:50-77 | writing appends exactly VarintLen bytes |
| `Varint.WrittenIsShortest` | withered/server/domain/protocol/varint.go:66-77 | no encoding of a value is shorter than the written one |
| `Varint.ShortestIsUnique` | withered/server/domain/protocol/varint.go:22-77 | bytes that read as a value in its shortest form are the bytes written for it |
| `Varint.ClientReadsServer` | withered/client/src/protocol.ts:7-37 | the client reads every value below 2^30 that the server writes, with its length |
| `Varint.ClientWritesAlike` | withered/client/src/protocol.ts:39-52 | client and server write the same bytes exactly for the values below 2^30 |
| `RoomMessage.ParseTransportHeader` | withered/server/domain/protocol/protocol.go:37-49 | type and length are two varints one behind the other inside the buffer, found whenever there are two |
| `RoomMessage.ParseRoomId` | withered/server/domain/protocol/protocol.go:53-65 | a room id is the bytes of the buffer behind their length; refused exactly when the length points behind the buffer |
| `RoomMessage.ParseRoomHeader` | withered/server/domain/protocol/protocol.go:69-75 | the type is the varint at the front, inside the buffer; too short exactly when there is none |
| `RoomMessage.EncodePing` | withered/server/domain/protocol/protocol.go:81-86 | parses as a ping with an empty payload |
| `RoomMessage.EncodePong` | withered/server/domain/protocol/protocol.go:90-95 | parses as a pong with an empty payload |
| `RoomMessage.EncodeAssign` | withered/server/domain/protocol/protocol.go:99-105 | parses as an assignment whose payload is the session id |
| `RoomMessage.EncodeRoomMessage` | withered/server/domain/protocol/protocol.go:109-122 | the appended pieces are the framed room payload, with its length computed first |
| `RoomMessage.RoomMessageRoundTrip` | withered/server/domain/protocol/protocol.go:37-122 | the three parsers recover type, length, room id, room message type and application data, and nothing is left over |
| `RoomMessage.FrameLayout` | withered/server/domain/protocol/protocol.go:109-122 | a frame is type, length and payload, the first two in the shortest varint form |
| `RoomMessage.PayloadLayout` | withered/server/domain/protocol/protocol.go:109-122 | a room payload is the length of the room id, the room id, the room message type and the data |
| `RoomMessage.ClientParsesFrame` | withered/client/src/protocol.ts:137-142 | the client finds type and payload in every server frame of fewer than 2^30 bytes |
| `RoomMessage.ClientEncodeRoomMessage` | withered/client/src/protocol.ts:160-184 | the pieces the client pushes, nothing for a length or a type from 2^30 on |
| `RoomMessage.ClientMessageExactly` | withered/client/src/protocol.ts:160-184 | the client's message is byte for byte the server's if and only if the type and the length of the payload stay below 2^30 |
| `SnapshotFormat.MaskReads` | withered/server/application/codec.go:62-84 | setting the bits of a mask and reading them back are inverse |
| `SnapshotFormat.EntityReads` | withered/client/src/protocol.ts:216-262 | reading a record gives exactly the components its mask names, zeros for the others, and leaves what is behind it |
| `SnapshotCodec.SortedIds` | withered/server/application/codec.go:37-41 | the ids in strictly ascending order, each once, for every order of the iteration |
| `SnapshotCodec.EncodeEntity` | withered/server/application/codec.go:62-116 | appends the record of the entity, with the mask collected bit by bit |
| `SnapshotCodec.EncodeSnapshot` | withered/server/application/codec.go:20-49 | header, 16-bit count and the records of all entities in ascending order of their ids |
| `SnapshotCodec.ReadEntity` | withered/client/src/protocol.ts:216-262 | the cursor reads a record or runs out of range, exactly as the format says |
| `SnapshotCodec.DecodeSnapshot` | withered/client/src/protocol.ts:198-272 | the cursor loop returns the state the format gives and stops at the byte it says |
| `SnapshotCodec.SnapshotRoundTrip` | withered/client/src/protocol.ts:198-272 | decoding an encoded world gives the views of its actors and bullets and consumes every byte, if and only if there are fewer than 65,536 entities |
| `SnapshotCodec.ActorsInOrder` | withered/client/src/protocol.ts:264-266 | the views of the actors come in ascending order of their ids, each once |
| `SnapshotCodec.BulletsInOrder` | withered/client/src/protocol.ts:266-268 | the views of the bullets come in ascending order of their ids, each once |
| `SnapshotCodec.ClientGetsTheWorld` | withered/server/application/codec.go:20-116 | what the client decodes from the bytes of a world has every actor and bullet once, in ascending order, with the bits of both coordinates, health, the whole life state and tag, and velocity, ticks to live and owner, as they stand in the component maps |
| `SnapshotCodec.AliveForBoth` | withered/client/src/protocol.ts:91-93 | the client takes an actor for alive exactly when the server does |
| `SnapshotCodec.SnapshotStarts` | withered/server/application/codec.go:20-46 | the bytes start with 5, 0 and the number of entities, low byte first |
| `SnapshotFormat.ActorRecord` | withered/server/application/codec.go:86-116 | the bytes of an actor: id, mask 0x4d, both coordinates, health, life state, tag |
| `SnapshotFormat.BulletRecord` | withered/server/application/codec.go:86-116 | the bytes of a bullet: id, mask 0x73, both coordinates, both components of the velocity, ticks to live, owner, tag |
| `SnapshotFormat.BytesOf16` | withered/server/application/codec.go:86-86 | two bytes, the low one first |
| `SnapshotFormat.BytesOf32` | withered/server/application/codec.go:89-92 | four bytes, the low one first |

## Left out

- Parsing of JSON, UUIDs and stored files: operations and snapshots are values.
- WebSocket, HTTP, tickets, tokens, logging and tracing.
- Reconnects, lost messages, failed stores and `Unsubscribe`: the protocol is proved for connections that stay open.
- Several entries in the protocol: one entry is modelled; the event log is proved for all entries together.
- The two reads of `GetDiff` (events, then the last number) are one step in the protocol.
- Inserted values of more than one code point, and text changes on characters of two UTF-16 units.
- `TextFiltered`, `NodeCount` and the listener callbacks: simple reads.
- Pages, hooks, canvas renderer, input manager and other user interface code.
- Goroutines, channels, PubSub and heartbeats of withered: join, leave, input and tick are atomic steps.
- Fixed-size field packing in `withered/server/application/protocol/protocol.go`.
- Floating-point rounding; the codec treats coordinates as 32-bit patterns.
- The eight-byte varint form of the client.
- Infrastructure and deployment files.
- EntryProjector.EntryProjector.Restore: the listed entry ids are distinct, as the event store lists them; the markdown files are not modelled.
- ShootingWorld.ShootingWorld.AutoShoot: bullets fired during the iteration are not visited, which makes no difference because visiting a bullet does nothing.
- ShootingWorld.ShootingWorld.RunTick: runs the simulation phase only; the one system of the network phase does nothing.
- RoomMessage.EncodeRoomMessage: the lengths of room id and data together stay below 2^62, as lengths in memory do.
- Replica.Replica.Insert: the clock stands below 2^64 - 1; the source lets it wrap, after which ids could repeat.
- Replica.Replica.Import: the snapshot is of a state that some operations lead to; others need not be sorted.
- SyncManager.SyncManager.ApplyTextChange: received inserts are younger than their anchors and every character is one UTF-16 unit; without either the text need not come out as typed.
- ShootingWorld.ShootingWorld.OnLeave: the effect on the maps is stated always, its meaning for the entities while sessions point to their actors, which every run keeps, and no id in use was reissued.
