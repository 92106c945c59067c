# Verified model of the collection, analysis and governance core

This Dafny project models seven parts of the repository and proves what each is there for.

- **Realtime delivery** (`Collector`, `Delivery`, `Agent`). Watch events go through a bounded channel and one flush
  loop, then over a lossy network to a server that drops duplicates. Posts may be lost before or after they were
  applied, any store call on the server may fail, and the queue file may be unreadable or not rewritable. `Delivery`
  is the protocol as a step machine, `Collector` the server's batch handler, `Agent` the runner. The class methods
  are proved against the step functions, and the laws about whole runs are proved about those.
- **Full synchronisation** (`SnapshotSync`, `ClusterListing`). Paged listings, the upserts of a snapshot, and the
  pruning of rows that a full snapshot no longer mentions.
- **Analysis** (`ResourceGraph`, `JsonDiff`, `CollectSlo`). Blast-radius search, structural diff of two revisions with
  its inverse, and nearest-rank percentiles with the roll-up of collect runs.
- **Pod exec** (`WebSocket`, `ExecStream`, `CommandLine`). The frame format of RFC 6455, the channel demultiplexer
  with its byte limits, and the quoting tokenizer.
- **Change sets** (`ChangeSets`). Settings as defaults under a stored map, applied in bundles and rolled back.
- **Data products** (`PublishGate`, `ProductGate`, `ProductLifecycle`, `ProductCatalog`, `Contracts`). The publish
  gate, every handler that writes a product, and the ownership of contract scopes and API entitlements.

`Text`, `Sorting`, `StringKeys`, `Timestamps` and `Octets` hold shared vocabulary.

`ProductCatalog` carries with each published product the gate evaluation behind it, `ChangeSets.Gateway` every request
made for a set, and `Agent.Runner` the history of its run; these are ghost fields that only specifications see.

A failing database is a number of calls that succeed before one fails (`calls`) or a set of failing positions
(`faults`). A lost request, a lost answer and a failing queue file are fields of a `Fate`. Clocks, random keys and
generated identifiers are parameters. Map iteration is an arbitrary choice, so results hold for every order.

## Where the code falls short of its own promises

Each of these is proved, with the exact condition under which the promise holds.

- `Delivery.TornUpsertIsLost`: the idempotency key is recorded before the inventory row is written. When that write
  fails, the redelivered event is taken for a duplicate and its row is never written. `Delivery.DrainedExactly` says
  when the inventory is right all the same, `Delivery.SampleUpsertIsLost` gives a run in which it is not.
- `Collector.BatchCellGrowth`, `Collector.ReservedKindCountsTwice`: the offset table keeps the batch totals in the cell
  of the kind `__batch__`; an event of a kind with that name is counted there too.
- `SnapshotSync.KindlessSync`: a full snapshot that names no kinds prunes only the kind of its first resource, because
  the guard looks at the set it is filling.
- `ChangeSets.ValidatedApplyIsComplete`: the comment promises that validating first prevents a partial apply; a blank
  secret passes validation and is refused by the write.
- `ChangeSets.EmptySecretIsNotRestored`, `ChangeSets.SampleRetryForgets`, `ChangeSets.SampleUnlistedRollback`: a
  rollback does not bring back an empty secret, the settings from before a failed and then repeated apply, or
  overrides that could not be listed when the priors were captured. `ChangeSets.StackExact`,
  `ChangeSets.RetryForgetsOriginals` and `ChangeSets.UnlistedRollback` say exactly what comes back.
- `ProductLifecycle.OutcomePublishesUngated`, `ProductLifecycle.RescoreUngates`: a proof-of-concept outcome publishes an
  approved product without asking the gate, and rescoring can leave a published product unable to pass.
  `ProductLifecycle.GuardIsExact` and `ProductLifecycle.RescoreIsExact` say from the stored row and the request alone
  which requests are safe.
- `Contracts.CommaFieldAccepted`: the check for at least one allowed field looks at the list before it is stored with
  commas, so a field that is only a comma passes it and the contract serves nothing. `Contracts.WriteServes` and
  `Contracts.FieldsReadBack` say exactly when a contract serves a field and when its fields survive storage.
- `ProductGate.ClosingContractOpensGate`: the gate is monotone in time only with masking fixed; an unmasked contract that
  closes lets a product pass that did not pass before.
- `Contracts.SpacedKeyIsLost`, `Contracts.LiteralKeyFound`: an entitlement keeps its contract key untrimmed, so only a
  lookup that trims finds it.
- `WebSocket.TruncatedFrame`: a frame cut exactly on a read boundary looks like a clean end of input.
- `CommandLine.QuoteRoundTrip`: an empty quoted argument disappears.

## Model

| member | source | states |
|---|---|---|
| Collector.WatchEventKeyInjective | internal/collector/agent.go:240-251 | fields without the separator: two events share an idempotency key only if all seven key fields agree |
| Collector.TypeInAnyCase | internal/collector/agent.go:91-94 | the type of an event is read in any letter case and with any blanks around it |
| Collector.Reading | internal/collector/agent.go:82-101 | an event is skipped exactly when its type is unknown or its kind or name blank; else its write names the trimmed row, carries the trimmed dated item, and deletes exactly for DELETED |
| Collector.WriteKeyExact | internal/collector/agent.go:103-105 | fields without the separator: two unskipped events give writes of one key if and only if cluster, agent, version, type, kind, namespace and name agree |
| Collector.WritesAreDeeds | internal/collector/agent.go:82-157 | a loop that gets through leaves the store as doing what each event says in turn, repeated observations excepted |
| Collector.LastFreshWins | internal/collector/agent.go:127-156 | a row is what the last new observation of it says: gone, or its item |
| Collector.OtherRowsKept | internal/collector/agent.go:127-156 | a row that no new observation is about stays as it was |
| Collector.BatchDone | internal/collector/agent.go:60-157 | the whole batch on the store, and for one new event the row spelt out by type, kind and name |
| Collector.CountsAreDeeds | internal/collector/agent.go:118-147 | upserts and deletions count the new observations that set and that remove a row, and the counters of each kind its new and its repeated observations |
| Collector.OneAccounts | internal/collector/agent.go:103-156 | one write moves exactly one of the duplicate, upsert and delete counters, and the per-kind counters with it |
| Collector.ApplyWritesAccounts | internal/collector/agent.go:82-157 | over a whole event list: writes = new + duplicates, new = upserts + deletes, per-kind counters sum to the batch counters, and as many new keys are seen as events were new |
| Collector.EnoughCalls | internal/collector/agent.go:103-156 | three working store calls per event always get through the event loop |
| Collector.TouchedKinds | internal/collector/agent.go:120-126 | only kinds of the batch's own writes ever get a counter |
| Collector.HealthyStoreAccepts | internal/collector/agent.go:60-238 | a store that keeps answering accepts every valid batch |
| Collector.AcceptedPays | internal/collector/agent.go:103-237 | an acknowledged batch paid one call for each repeated event, two for each deletion, three for each upsert, and one for each recorded Kubernetes event, finding (if a row was set), heartbeat and offset row |
| Collector.OffsetRowsAddUp | internal/collector/agent.go:209-236 | the per-kind offset rows sum to the batch's seen and duplicate counts, whatever order the maps are walked in |
| Collector.KindOffsetRows | internal/collector/agent.go:209-236 | the two loops together give exactly one row per touched kind |
| Collector.SeenKindRows | internal/collector/agent.go:209-223 | the first loop writes the kinds with new events and leaves for the second those with duplicates only |
| Collector.DuplicateKindRows | internal/collector/agent.go:224-236 | the second loop completes the rows without repeating a kind |
| Collector.Database.InsertWatchEvent | internal/store/k8s_agent.go:100-117 | inserted exactly when the key was new and the call worked |
| Collector.Database.DeleteInventoryItem | internal/store/k8s_agent.go:196-201 | removes exactly the named row |
| Collector.Database.UpsertInventory | internal/store/k8s.go:307-340 | sets exactly the named row |
| Collector.Database.ApplyEvents | internal/collector/agent.go:82-157 | the loop over events does to the store exactly what its writes do up to the first failed call; skipped + writes = events; the last version named for each kind |
| Collector.Database.ApplyWrite | internal/collector/agent.go:103-156 | one event: insert-or-skip, inventory row, revision row, with each failure point leaving what was done before it |
| Collector.Database.RecordK8sEvents | internal/collector/agent.go:159-172 | records in order what the recordable events are, and a failed call leaves exactly the ones before it |
| Collector.RecordedExact | internal/collector/agent.go:159-172 | exactly the events with a reason or a message are recorded, in order, a missing time filled from the batch or the other time |
| Collector.Database.UpsertOffsets | internal/store/k8s_agent.go:148-166 | the rows written one call at a time, each adding its counters to its own cell; the rows before a failed call stay |
| Collector.KindCellGrowth | internal/store/k8s_agent.go:148-166 | over all rows of a batch, each kind's counters are added once to the cell of that kind, which takes the kind's version; every other cell stays |
| Collector.LastVersionWins | internal/collector/agent.go:99-102 | the version kept for a kind is that of the last unskipped event of the kind that names one, its own or else the batch's |
| Collector.StoredVersion | internal/collector/agent.go:209-236 | the offset cell of a kind ends at that version |
| Collector.BatchCellGrowth | internal/collector/agent.go:197-236 | an applied batch adds to each kind's cell as many events as it has of the kind; the batch cell grows by exactly the batch totals if and only if no event, skipped ones apart, is of the kind `__batch__` |
| Collector.KindCounted | internal/collector/agent.go:103-126 | every write of a kind is counted once under that kind, as new or as a duplicate |
| Collector.MentionsCounted | internal/collector/agent.go:82-101 | some unskipped event is of a kind if and only if some write is |
| Collector.ReservedKindCountsTwice | internal/collector/agent.go:197-236 | a concrete call with one new event of the kind `__batch__`, reported once and counted twice |
| Collector.Database.ApplyAgentBatch | internal/collector/agent.go:60-238 | acknowledged exactly when every call it needs succeeds; then the inventory is what the events say one by one (a single new event spelt out: deleted, set to the trimmed dated item, or ignored), the counters count new upserts and deletions by kind, and the offset rows sum to the totals; a blank cluster or agent is refused and changes nothing |
| Collector.Database.WriteTail | internal/collector/agent.go:159-237 | everything after the event loop leaves inventory and keys alone and succeeds exactly with enough calls |
| Delivery.ApplySegment | internal/collector/agent.go:103-126 | applying any segment of the stream that starts in the part already applied only extends that part: redelivery is harmless |
| Delivery.AckedExact | internal/agent/runner.go:381-407 | a post counts as acknowledged if and only if it arrived, the server accepted the whole batch, and the answer came back |
| Delivery.PostKeepsProgress | internal/agent/runner.go:381-407 | a post, lost before or after the server applied it or partly applied, keeps the store on a prefix of the stream |
| Delivery.ReplayKeepsProgress | internal/agent/runner.go:422-443 | the replay loop stops no later than the first batch not yet acknowledged |
| Delivery.FlushKeeps | internal/agent/runner.go:292-313 | every flush keeps the protocol invariant, whatever network, store and queue file do |
| Delivery.RunInvariant | internal/agent/runner.go:254-313 | the invariant holds after every run |
| Delivery.FlushedIsPayload | internal/agent/runner.go:464-467 | the history of flushed batches is the payload-bearing batches in flush order |
| Delivery.PayloadExact | internal/agent/runner.go:464-467 | the payload batches are exactly those with a watch event or a Kubernetes event, in order |
| Delivery.StoreFollowsStream | internal/collector/agent.go:103-156 | at every moment the store is that of some prefix of the flushed events, each key applied once and in order; of all of them once the queue is empty |
| Delivery.DeliveredExactlyOnce | internal/collector/agent.go:103-156 | empty queue and no torn write: the inventory is the fold, in flush order, of the first occurrence of each key |
| Delivery.NoLossNoReordering | internal/agent/runner.go:292-313 | with a working queue file, acknowledged batches followed by queued ones are the payload batches in flush order |
| Delivery.RowsAfterDrain | internal/collector/agent.go:127-156 | with torn writes as well: once the queue is empty a row is what its last event says, unless that event was torn |
| Delivery.DrainedExactly | internal/collector/agent.go:103-156 | once the queue is empty the inventory is the fold of the first occurrences if and only if each row whose last event was torn is what its earlier events say anyway |
| Delivery.TornUpsertIsLost | internal/collector/agent.go:103-139 | a two-flush run in which a torn upsert is lost although the queue drains |
| Delivery.SampleUpsertIsLost | internal/collector/agent.go:103-139 | a concrete run against this server: one pod event, acknowledged on redelivery, and no row |
| Delivery.HealthyFlushDrains | internal/agent/runner.go:409-448 | after any history one flush over a healthy network empties the queue and brings the store level with the stream |
| Agent.Runner.constructor | internal/agent/runner.go:85-93 | starts with empty channel, pending list, queue and history |
| Agent.Runner.Enqueue | internal/agent/runner.go:366-379 | accepts an event exactly when the channel has room, behind those waiting |
| Agent.Runner.BuildBatch | internal/agent/runner.go:315-364 | an entry for each named object of the flush and for each Kubernetes event that still exists and says something, at the position its predecessors leave it, with its type, version and stamped contents; the last version the flush names, else the one before |
| Agent.BatchCarries | internal/agent/runner.go:315-364 | the same of the batch built from any list of events |
| Agent.RunCarries | internal/agent/runner.go:254-313 | over a whole run: the events of all batches, in order, are the kept ones of all flushes |
| Agent.Runner.PostBatch | internal/agent/runner.go:381-407 | one post is one step of the protocol; an error exactly when it was not acknowledged |
| Agent.Runner.ReplayQueued | internal/agent/runner.go:409-462 | one replay is one step of the protocol, unreadable and unrewritable files included |
| Agent.Runner.ReplayLines | internal/agent/runner.go:422-443 | the loop posts in order until the first failure and keeps that line and all after it |
| Agent.Runner.ReplayLine | internal/agent/runner.go:430-442 | one line: posted, kept after a failed post, kept unposted after an earlier failure |
| Agent.Runner.QueueBatch | internal/agent/runner.go:464-479 | appends a batch unless it is a bare heartbeat |
| Agent.Runner.FlushEvents | internal/agent/runner.go:292-313 | one flush is one step of the protocol |
| Agent.Runner.FlushPending | internal/agent/runner.go:269-273 | flushes exactly the pending events and keeps the invariant |
| Agent.Runner.Receive | internal/agent/runner.go:263-268 | takes the oldest waiting event; a full batch is flushed at once |
| Agent.Runner.TakeTurn | internal/agent/runner.go:262-288 | every turn keeps: accepted = flushed ++ pending ++ waiting, pending below the batch size, no flush above it |
| Agent.Runner.FlushLoop | internal/agent/runner.go:254-290 | for any interleaving up to shutdown: accepted = flushed ++ waiting; the batches of this very loop carry exactly the kept events of the flushes in order; and the delivery laws hold for them with the exact condition for the inventory |
| SnapshotSync.IdentityInjective | internal/collector/snapshot.go:181-183 | fields without NUL: equal identities mean equal folded kind, namespace and name |
| SnapshotSync.UpsertedRow | internal/collector/snapshot.go:55-91 | after the upserts a row shows the last resource with its trimmed kind, namespace and trimmed name, dated by the snapshot if it has no time, or is what it was |
| SnapshotSync.Store.ListIdentities | internal/store/k8s.go:381-405 | the rows of one cluster and kind, letter case apart, each once |
| SnapshotSync.Store.PruneKind | internal/collector/snapshot.go:153-167 | no stale row of the kind is left, only stale ones went, and the count is exact |
| SnapshotSync.Store.PruneMissing | internal/collector/snapshot.go:148-169 | over all kinds in any order; on failure only stale rows are gone |
| SnapshotSync.Store.UpsertRow | internal/collector/snapshot.go:69-90 | the two database calls of a resource; the row stays when the second fails |
| SnapshotSync.Store.UpsertResources | internal/collector/snapshot.go:54-92 | the loop's rows, present identities, kinds and count; on failure a prefix was upserted |
| SnapshotSync.Store.ApplySnapshot | internal/collector/snapshot.go:38-100 | the synchronised inventory and the exact deletion count; a failed upsert deletes nothing; enough calls always succeed |
| SnapshotSync.SyncedRow | internal/collector/snapshot.go:53-100 | the exact fate of every row: kept with its last contents if mentioned, untouched if not, removed only by a full sync and only if stale |
| SnapshotSync.OtherRowsStay | internal/collector/snapshot.go:148-167 | other clusters and kinds keep their rows, apart from upserts |
| SnapshotSync.SyncKindsExact | internal/collector/snapshot.go:54-67 | the synchronised kinds are the named ones trimmed; a full snapshot that names none takes the kind of its first listed resource |
| SnapshotSync.SyncExact | internal/collector/snapshot.go:53-100 | after a full sync the identities stored for a synchronised kind are exactly the snapshot's |
| SnapshotSync.KindlessSync | internal/collector/snapshot.go:65-67 | without named kinds nothing is left over, whatever was stored, if and only if all resources are of one kind |
| ClusterListing.ListPages | internal/kube/client.go:176-200 | the paging loop gives the whole listing or a failure |
| ClusterListing.ListingIsWhole | internal/kube/client.go:176-200 | a listing succeeds with some items if and only if they are all pages up to the first without a continue token |
| ClusterListing.Collect | internal/kube/client.go:127-141 | the loop over targets gives the kinds and objects of the answered ones, or nothing |
| ClusterListing.CollectionIsFaithful | internal/kube/client.go:127-141 | fails if and only if a required target fails; otherwise names and lists exactly what the answered targets gave |
| ClusterListing.OfTargetExact | internal/kube/client.go:127-141 | what a target contributes is each listed object with the kind of the target |
| ClusterListing.OptionalExact | internal/kube/client.go:576-580 | a listing may fail without failing the collection if one of six parts stands in its path |
| ClusterListing.UnlistedKindUntouched | internal/kube/client.go:129-137 | a kind whose optional listing failed on any page keeps every row: nothing deleted, added or changed |
| ClusterListing.ListedKindExact | internal/kube/client.go:127-141 | a listed kind is stored exactly as listed |
| ResourceGraph.NodeIdInjective | internal/analyzer/resource_graph.go:185-187 | fields without the separator: equal node ids mean the same resource |
| ResourceGraph.EdgeIdInjective | internal/analyzer/resource_graph.go:105 | although the ends contain the separator themselves, equal edge ids over separator-free fields mean the same relation between the same ends |
| ResourceGraph.SameIdSameEdge | internal/analyzer/resource_graph.go:105-108 | with separator-free fields, what sits under the id of an edge is that edge |
| ResourceGraph.NodesKeyed | internal/analyzer/resource_graph.go:79-92 | the node table holds exactly the ids of the inventory, each node under the id of its own fields |
| ResourceGraph.NodesAreLast | internal/analyzer/resource_graph.go:79-92 | every resource has a node under its four names joined by bars, and a node tells of the last resource listed under its id |
| ResourceGraph.IndexNodes | internal/analyzer/resource_graph.go:79-92 | the loop builds that table |
| ResourceGraph.IdsSpelt | internal/analyzer/resource_graph.go:105-107 | how node and edge ids are spelt |
| ResourceGraph.EdgeTable.constructor | internal/analyzer/resource_graph.go:79-94 | one node per resource, the last listed; no edges yet |
| ResourceGraph.EdgeTable.AddEdge | internal/analyzer/resource_graph.go:95-110 | first edge of an id wins; self loops and unknown ends are dropped; with separator-free fields the edge asked for is in the table afterwards, so one that is dropped was there already |
| ResourceGraph.EmptyFrontier | internal/analyzer/resource_graph.go:241-243 | once a layer is empty the ball is the same for every larger radius, so the early exit is sound |
| ResourceGraph.ScanAdvances | internal/analyzer/resource_graph.go:230-240 | a scan of the edges in any order moves from distance at most k, frontier at distance k, to the same for k + 1 |
| ResourceGraph.VisitEdge | internal/analyzer/resource_graph.go:232-239 | one edge adds exactly the ends reached from the frontier |
| ResourceGraph.Scan | internal/analyzer/resource_graph.go:231-239 | one pass adds exactly the new neighbours of the frontier, in any order |
| ResourceGraph.Reach | internal/analyzer/resource_graph.go:226-245 | included if and only if some walk of at most `radius` edges leads there |
| ResourceGraph.MaterializeGraph | internal/analyzer/resource_graph.go:224-283 | the nodes are the ball and the edges its induced subgraph, each once, sorted |
| ResourceGraph.GraphClosed | internal/analyzer/resource_graph.go:94-111 | the ends of every returned edge are two different returned nodes |
| ResourceGraph.SortedInOrder | internal/analyzer/resource_graph.go:257-281 | the sorts order nodes by kind, namespace and name, and edges by source, relation and target |
| ResourceGraph.EdgeTable.Graph | internal/analyzer/resource_graph.go:170-175 | the graph of the stored edges, closed, nodes by kind, namespace and name, edges by source, relation and target; a radius that is not positive means two |
| JsonDiff.DiffValue | internal/analyzer/diff.go:70-120 | appends exactly the diff of the two values, its paths seen from the given one |
| JsonDiff.DiffFields | internal/analyzer/diff.go:73-90 | the map case, keys in sorted order |
| JsonDiff.DiffElements | internal/analyzer/diff.go:91-109 | the array case, the shorter one padded with null |
| JsonDiff.UnderKeeps | internal/analyzer/diff.go:110-119 | seen from the root a change keeps old value, new value and kind, and its path is prefixed |
| JsonDiff.UnderRoot | internal/analyzer/diff.go:55 | from the root itself nothing changes |
| JsonDiff.DiffRevisions | internal/analyzer/diff.go:39-68 | the code's own output for two revisions: patching the old one with it gives the new one, every entry names a differing place with both values and the right kind, it is empty if and only if they are equivalent, and it is sorted by rendered path |
| StringKeys.OrderedKeys | internal/analyzer/diff.go:81-85 | collecting the keys in any order and sorting them has one result |
| JsonDiff.EquivReflexive | internal/analyzer/diff.go:70-112 | equivalence with absent as null is reflexive |
| JsonDiff.EquivSymmetric | internal/analyzer/diff.go:70-112 | and symmetric |
| JsonDiff.EquivTransitive | internal/analyzer/diff.go:70-112 | and transitive |
| JsonDiff.EmptyIffEquivalent | internal/analyzer/diff.go:70-120 | nothing is reported if and only if the two values are equivalent |
| JsonDiff.DiffMirror | internal/analyzer/diff.go:70-120 | the reverse diff is the same list with old and new, added and removed exchanged |
| JsonDiff.PatchRoundTrip | internal/analyzer/diff.go:70-120 | applying the changes from a to b to a gives b up to equivalence |
| JsonDiff.DiffTruthful | internal/analyzer/diff.go:110-119 | every change names a place where the values differ, with both values and the right kind |
| JsonDiff.DiffIndependent | internal/analyzer/diff.go:70-120 | no change lies at or below the path of another |
| JsonDiff.PatchAnyOrder | internal/analyzer/diff.go:55 | independent changes give the same value in any order |
| JsonDiff.ReportedOrderRoundTrip | internal/analyzer/diff.go:39-68 | so the round trip survives the unstable sort by rendered path |
| WebSocket.FrameRoundTrip | internal/kube/exec.go:316-387 | a written frame is read back with nothing else consumed if and only if it is at most 16 MiB, in all three length encodings; a larger one is refused |
| WebSocket.StreamRoundTrip | internal/kube/exec.go:316-387 | any sequence of frames with any mask keys is read back in order with no byte left |
| WebSocket.TruncatedFrame | internal/kube/exec.go:318-350 | a cut frame is never read as a frame; it reads as a clean end exactly when cut on a read boundary |
| WebSocket.Writer.WriteFrame | internal/kube/exec.go:359-387 | the appended bytes, one by one: final bit and opcode, mask bit and length in its shortest form, the key, then each payload byte XORed with the key byte at its position modulo four (sections 5.2 and 5.3) |
| WebSocket.FrameHeader | internal/kube/exec.go:364-376 | header and length bytes for the three length encodings |
| WebSocket.EncodedWire | internal/kube/exec.go:359-387 | the bytes of a client frame, for every payload and key |
| WebSocket.ParseExact | internal/kube/exec.go:316-357 | the parser returns a frame if and only if the input spells that frame, given byte by byte |
| WebSocket.Mask | internal/kube/exec.go:378-381 | a new array holds the masking of the payload, which `EncodedWire` spells byte by byte |
| WebSocket.Reader.ReadFrame | internal/kube/exec.go:316-357 | a frame is returned if and only if the input begins with one, byte for byte, masked or not; what follows it stays unread |
| WebSocket.Reader.ReadLength | internal/kube/exec.go:323-340 | the extended lengths, and the refusal of negative and oversized ones |
| WebSocket.Reader.ReadBody | internal/kube/exec.go:341-356 | mask key and payload, with the two ways an input can end inside them |
| WebSocket.Unmask | internal/kube/exec.go:351-355 | in place, the array ends up as the masking of what it held; masking twice is the identity |
| ExecStream.MaxExecResponseBytes | internal/kube/exec.go:436-441 | a limit from 1 byte to 1 MiB is taken, any other means 1 MiB |
| ExecStream.WriteLimited | internal/kube/exec.go:389-398 | the result is the beginning of old and new data together, all of it or as much as the limit allows |
| ExecStream.AnswerPing | internal/kube/exec.go:290-292 | every ping consumed is answered by a pong with its payload, in order |
| ExecStream.Dispatch | internal/kube/exec.go:293-310 | one data frame goes to its channel and sets the exit code |
| ExecStream.ReadExec | internal/kube/exec.go:275-314 | the loop ends on every input; its capture and error are those of the session, its pongs answer the consumed pings |
| ExecStream.CapturedOutput | internal/kube/exec.go:279-312 | each output is the beginning, up to the limit, of what follows byte 1 (or bytes 2 and 3) at the start of the text and binary frames; only the last consumed frame can be cut, both together stay within 2·limit − 1, and the exit code is the last one named, else 0 if all status messages are blank and 1 if not |
| ExecStream.HandleByFirstByte | internal/kube/exec.go:293-310 | one frame by its first byte: 1 adds to the output, 2 and 3 to the error output, 3 may set the exit code, any other frame changes nothing |
| ExecStream.ExitCodeExact | internal/kube/exec.go:303-310 | the exit code after any frames: the last code named, else 0 or 1 by whether all messages are blank |
| ExecStream.PongsExact | internal/kube/exec.go:290-292 | one pong for each ping, in order, with its payload |
| ExecStream.ExitCodeSticks | internal/kube/exec.go:303-310 | a non-zero exit code never returns to zero |
| ExecStream.StreamCapture | internal/kube/exec.go:275-357 | from wire bytes to capture: any well-formed message sequence gives the demultiplexed messages and no error |
| CommandLine.SplitCommandLine | internal/kube/exec.go:443-486 | the one-pass loop over the trimmed command gives the words, or the refusal, of the scan the laws are about |
| CommandLine.SplitAlways | internal/kube/exec.go:467-485 | no returned word is empty, and the command is refused if and only if its scan ends inside a quote |
| CommandLine.SplitOfBare | internal/kube/exec.go:443-486 | words without blanks, quotes and backslashes, separated by any runs of blanks, are the words returned |
| CommandLine.SplitOfLine | internal/kube/exec.go:443-486 | adjacent plain, single-quoted, double-quoted and escaped pieces form one word, whose text is the literal of each piece; empty words are left out |
| CommandLine.AdjacentPieces | internal/kube/exec.go:443-486 | in particular a plain, a double-quoted and a single-quoted piece written together |
| CommandLine.SplitOfDangling | internal/kube/exec.go:478-480 | a backslash at the end stands for itself |
| CommandLine.SampleBare | internal/kube/exec.go:443-486 | `ls -la` gives its two words |
| CommandLine.SplitOfQuoted | internal/kube/exec.go:443-486 | quoting and escaping a word list and splitting it gives its non-empty words |
| CommandLine.QuoteRoundTrip | internal/kube/exec.go:443-486 | exactly the list itself if and only if no word is empty |
| ChangeSets.ValidatedWritable | internal/proxy/admin_settings.go:1315-1328 | of the values that pass validation only a blank secret is refused by the write |
| ChangeSets.WritableExact | internal/proxy/admin_settings.go:1316-1328 | valid means accepted, trimmed, by the parser of the type and the validator of the key; writable means also not a blank secret, and not blank where text is not free |
| ChangeSets.PlanReadsPriors | internal/proxy/admin_change_sets.go:218-236 | every prior is the effective value from before the first write, every planned value is valid |
| ChangeSets.PlanExact | internal/proxy/admin_change_sets.go:217-236 | there is a plan if and only if every setting of the set is known and accepted |
| ChangeSets.PlanHolds | internal/proxy/admin_change_sets.go:217-236 | a plan holds exactly the settings of the set, in order, each with the value asked for and the override or environment value in force |
| ChangeSets.WrittenValue | internal/proxy/admin_change_sets.go:238-245 | a touched key ends with its last value; keys outside the set are never touched |
| ChangeSets.RestoredValue | internal/proxy/admin_change_sets.go:268-280 | a rollback sets each key with a write that does not fail to its prior when that is writable, and leaves every other key |
| ChangeSets.SuccessesExact | internal/proxy/admin_change_sets.go:268-280 | the reported count is that of the priors that are known, accepted, and at no failing position |
| ChangeSets.RollbackExact | internal/proxy/admin_change_sets.go:262-288 | whatever writes fail, apply then roll back restores a setting if and only if it is untouched, or its prior can be written, lands and is trimmed, or else the set had put it there |
| ChangeSets.RollbackRestores | internal/proxy/admin_change_sets.go:210-288 | when no touched key fails at all its positions, every effective setting comes back, repeated keys included, if the touched keys without override have a writable environment value; for an apply that went through, only if |
| ChangeSets.StackExact | internal/proxy/admin_change_sets.go:210-288 | the same for one key: back if and only if untouched, overridden before, or writable from the environment; failing rollbacks of later sets do not matter |
| ChangeSets.FaultlessLands | internal/proxy/admin_change_sets.go:268-280 | without failing writes the first set to touch a key always gets its prior written |
| ChangeSets.StackRestores | internal/proxy/admin_change_sets.go:210-288 | any number of overlapping sets rolled back in reverse order leave every effective setting as it was if and only if the touched keys without override have a writable environment value, as long as the first set to touch a key gets its prior written |
| ChangeSets.ValidatedApplyIsComplete | internal/proxy/admin_change_sets.go:211-245 | the writes of a validated set all go through, database willing, if and only if no item is a blank secret |
| ChangeSets.EmptySecretIsNotRestored | internal/proxy/admin_settings.go:1325-1328 | a secret whose environment value is empty keeps the new value after a rollback |
| ChangeSets.UnlistedRollback | internal/proxy/admin_change_sets.go:159-167 | with priors captured while the overrides could not be listed, and any writes failing: exactly which settings come back |
| ChangeSets.RetryForgetsOriginals | internal/proxy/admin_change_sets.go:238-243 | after a failed and repeated apply, rolling back gives the settings from before if and only if the half-applied ones were the same and the repeated set can be reversed |
| ChangeSets.SampleRetryForgets | internal/proxy/admin_change_sets.go:238-243 | a concrete retry after which a setting keeps the value of the half-applied set |
| ChangeSets.SampleUnlistedRollback | internal/proxy/admin_change_sets.go:159-167 | a concrete rollback that loses an override which could not be listed |
| ChangeSets.WorkflowOrder | internal/proxy/admin_change_sets.go:176-181 | whatever is requested, a set is submitted, approved, applied and rolled back at most once each and in that order |
| ChangeSets.Gateway.HowFar | internal/proxy/admin_change_sets.go:96-103 | at every moment the effects a stored set has had are the first steps of the chain, and its status says how many |
| ChangeSets.Gateway.OnlyAccepted | internal/proxy/admin_settings.go:1316-1328 | at every moment each stored override is one its own parser and validator accept, and no secret is empty |
| ChangeSets.Gateway.Create | internal/proxy/admin_change_sets.go:37-47 | a new set is a draft without priors |
| ChangeSets.Gateway.Delete | internal/proxy/admin_change_sets.go:85-90 | removes the record in any status, and nothing else |
| ChangeSets.Gateway.Transition | internal/proxy/admin_change_sets.go:171-198 | moves the status exactly from the required one, and only if the record is saved |
| ChangeSets.Gateway.ApplySet | internal/proxy/admin_change_sets.go:202-259 | refusals change nothing; a failed write leaves the writes before it and the status; success records the priors |
| ChangeSets.Gateway.PlanItems | internal/proxy/admin_change_sets.go:217-236 | stops at the first unknown key or invalid value; otherwise one entry per setting item, in order, with its prior |
| ChangeSets.Gateway.WriteItems | internal/proxy/admin_change_sets.go:238-245 | stops at the first refused or failing write and leaves exactly the writes before it |
| ChangeSets.Gateway.WritePriors | internal/proxy/admin_change_sets.go:268-280 | the rollback loop passes over unknown keys and refused or failing writes, and counts exactly the ones it made |
| ChangeSets.Gateway.RollbackSet | internal/proxy/admin_change_sets.go:262-288 | writes the priors back in order, passing over failures; the count is exact and the status moves exactly when the record is saved |
| ChangeSets.ApplyWhole | internal/proxy/admin_change_sets.go:202-259 | with a working database an approved set applies exactly when every item validates and can be written; other sets are untouched |
| ChangeSets.RollBackWhole | internal/proxy/admin_change_sets.go:262-288 | rolling back a set that was just applied, with a working database: settings restored if and only if it is undoable |
| ChangeSets.ApplyThenRollBack | internal/proxy/admin_change_sets.go:202-288 | through the handlers: the settings are restored if and only if the set is undoable, and other sets are untouched; it applies exactly when every item validates and can be written |
| PublishGate.ReadinessLookup | internal/dataworks/domain.go:105-109 | the index holds the normalized last listed row of each asset, letter case apart |
| PublishGate.ScoreBounds | internal/dataworks/domain.go:41-56 | components end up within 0 and 100 and stay if they are there; a positive overall score counts as given up to 100, any other is the rounded-down mean |
| PublishGate.StrictBands | internal/dataworks/domain.go:58-68 | at risk 70 always strict, from 55 for sensitive products and APIs, below that for sensitive ones only |
| PublishGate.SensitiveExact | internal/dataworks/domain.go:63-65 | sensitive if and only if one of the five words stands in the label, letter case apart |
| PublishGate.AssetKeysRead | internal/dataworks/domain.go:806-815 | the text up to a comma, line end, semicolon or bar names one asset, trimmed, unless it is blank; the rest names the others |
| PublishGate.IndexReadiness | internal/dataworks/domain.go:105-109 | the loop leaves the normalized last row of each asset |
| PublishGate.CheckReadiness | internal/dataworks/domain.go:114-124 | a reason for exactly the assets without a score and those below 70 |
| PublishGate.BestStatusPasses | internal/dataworks/domain.go:668-695 | the best status passes if and only if some trace of the step is approved or waived and not expired |
| PublishGate.StepMetExact | internal/dataworks/domain.go:668-695 | a step is met if and only if some trace of it is approved or waived and has no expiry or one still ahead; never by one at or past its expiry, or with one that cannot be read |
| PublishGate.BestStatusShown | internal/dataworks/domain.go:668-695 | the status shown is that of the first trace that counts, else of the last trace of the step: expired, pending when blank, or its own; without a trace it stays as it was |
| PublishGate.BestApprovalStatus | internal/dataworks/domain.go:668-695 | the first passing trace decides, else the last matching one; it passes if and only if the step is met |
| PublishGate.RequiredApprovalSteps | internal/dataworks/domain.go:135-161 | exactly the standing steps when strict and every step marked required, none twice, the further ones sorted |
| PublishGate.CheckSteps | internal/dataworks/domain.go:89-96 | one status per step, and a reason for exactly the unmet ones |
| PublishGate.CheckApprovals | internal/dataworks/domain.go:88-96 | a missing-approval reason for exactly the required steps that no live trace meets |
| PublishGate.CheckAssets | internal/dataworks/domain.go:104-124 | an asset reason exactly when no asset is linked, one is unscored, or one is below 70 |
| PublishGate.EvaluatePublishGate | internal/dataworks/domain.go:70-133 | gives exactly the reasons it knows of |
| PublishGate.CheckQuality | internal/dataworks/domain.go:189-201 | a reason for exactly the failed results; no results at all is no reason |
| PublishGate.EvaluatePublishGateV2 | internal/dataworks/domain.go:163-240 | each reason is given if and only if it applies, and allowed if and only if the five conditions hold (strict) or the required approvals do (not strict) |
| PublishGate.NoObjections | internal/dataworks/domain.go:88-132 | no reason applies if and only if the conditions hold |
| PublishGate.AllowedEarlier | internal/dataworks/domain.go:683-688 | with the data fixed, allowed at a later time implies allowed at every earlier one |
| PublishGate.GateReadsOnly | internal/dataworks/domain.go:58-68 | the verdict ignores status, author, plans, prices and revenue |
| PublishGate.LowerRiskStillAllowed | internal/dataworks/domain.go:58-68 | a lower risk score never blocks |
| PublishGate.RescoredStillAllowed | internal/dataworks/domain.go:58-68 | nor does any score that leaves the product outside the strict gate or finds it there |
| ProductGate.EmptyRecordsPass | internal/proxy/admin_dataworks.go:1774-1841 | records that can be read and hold nothing let a product pass if and only if it is not strict |
| ProductGate.MaskingConfigured | internal/proxy/admin_dataworks.go:1828-1838 | configured if and only if the scopes could be listed and every one that can still serve is masked |
| ProductGate.ProductReadiness | internal/proxy/admin_dataworks.go:1894-1910 | assets linked under two spellings are read once |
| ProductGate.ProductQuality | internal/proxy/admin_dataworks.go:1806-1813 | results of all linked assets; a listing that fails is passed over |
| ProductGate.ProductPublishGate | internal/proxy/admin_dataworks.go:1774-1841 | no verdict exactly when a required read fails; otherwise the gate on the gathered evidence |
| ProductGate.GateAllowsExact | internal/proxy/admin_dataworks.go:1774-1841 | the verdict read off the stored records: readable, the required steps of the product's own approvals met, and for a strict product assets scored at least 70, a pack, no failed result and no servable contract without masking |
| ProductGate.GatheredExact | internal/proxy/admin_dataworks.go:1806-1813 | every readiness row of the first spelling of each asset and every quality result is gathered, and nothing else |
| ProductGate.PassesEarlier | internal/proxy/admin_dataworks.go:1821-1840 | records fixed, passing later: passed earlier if and only if the masking it needs held earlier |
| ProductGate.MaskingGained | internal/proxy/dataworks_runtime.go:295-307 | masking is never lost by waiting, and gained if and only if some unmasked contract could serve at first and each of those closes in between |
| ProductGate.ClosingContractOpensGate | internal/proxy/dataworks_runtime.go:299-305 | one unmasked contract closing at t blocks a sensitive product at t and not right after |
| ProductLifecycle.WrittenKeepsBy | internal/store/data_products.go:71-132 | one write keeps every published row certified if and only if the written row is unpublished or has a passing check |
| ProductLifecycle.HowPublished | internal/proxy/admin_dataworks.go:925-985 | a product goes live only by a request or a publish behind a passed gate, or by a successful outcome, recorded as a contract candidate, of an approved product |
| ProductLifecycle.StatusesStored | internal/proxy/admin_factory.go:444-450 | what the handlers without a class method leave: approved or archived, in risk review, in review; plans, scores and feedback keep the status and touch only their own field |
| ProductLifecycle.DefaultsSameForGate | internal/store/data_products.go:74-82 | what the store fills in does not change the verdict |
| ProductLifecycle.StepCertified | internal/proxy/admin_dataworks.go:925-985 | any handler keeps "published means the gate passed on the stored fields" if and only if it does not go round the gate (an outcome that publishes, a rescoring that brings a published product under the strict gate) or the old check happens to pass the new row |
| ProductLifecycle.GuardIsExact | internal/proxy/admin_dataworks.go:925-985 | whatever checks let the published rows through: a request keeps all such catalogs certified if and only if it does not go round the gate, read off the stored row and the request alone |
| ProductLifecycle.RescoreIsExact | internal/proxy/admin_factory.go:444-450 | a new score keeps every certified catalog with that published row certified if and only if strict afterwards implies strict before |
| ProductLifecycle.RunCertified | internal/proxy/admin_data_products.go:95-115 | over every run in which no request goes round the gate a published product passed the gate on exactly the fields stored |
| ProductLifecycle.GatedHandlersOnly | internal/proxy/admin_dataworks.go:733-743 | in particular over every run of upsert, publish, transitions, reviews, definitions, risk checks, plans, feedback and deletions |
| ProductLifecycle.LowerRiskIsSafe | internal/proxy/admin_factory.go:444-450 | a rescoring that does not raise the risk keeps the promise |
| ProductLifecycle.RescoreUngates | internal/proxy/admin_factory.go:444-450 | rescoring a published product without assets into the strict range leaves it published and never able to pass |
| ProductLifecycle.OutcomePublishesUngated | internal/proxy/admin_dataworks_ops.go:1025-1029 | four calls publish a product that no records at all would let through |
| ProductLifecycle.RetiredForGood | internal/store/data_products.go:246-272 | a retired key never names a product again |
| ProductCatalog.Catalog.Store | internal/store/data_products.go:71-132 | the row with its key trimmed and internal, custom and draft filled in; retired keys refused, nothing else changed |
| ProductCatalog.Catalog.UpsertProduct | internal/proxy/admin_data_products.go:74-123 | refused exactly when key or name is blank, the text is not clean, or source type or status is unknown; stores the trimmed request with its defaults; publishes only behind an allowed gate on that row; the catalog stays certified |
| ProductCatalog.Catalog.PublishProduct | internal/proxy/admin_dataworks.go:925-941 | on success the stored row passed the gate and only its status and author change; the catalog stays certified |
| ProductCatalog.Catalog.MoveProduct | internal/proxy/admin_dataworks.go:942-985 | draft to review, review or risk review to approved, those or approved back to draft, published to archived; refused exactly otherwise; only status and author change and the catalog stays certified |
| ProductCatalog.Catalog.ReviewProduct | internal/proxy/admin_dataworks.go:727-748 | from any status an approval stores approved and a rejection draft, with the author and nothing else changed; the catalog stays certified |
| ProductCatalog.Catalog.ApplyOutcome | internal/proxy/admin_dataworks_ops.go:1017-1035 | eight points up or four down within 0 and 100, published exactly for a successful contract candidate that was approved; certified afterwards if and only if it did not publish |
| ProductCatalog.Catalog.RescoreProduct | internal/proxy/admin_factory.go:444-450 | sets both scores and the author and nothing else; certified afterwards unless the score brings a published product under the strict gate and the old check does not pass the new row |
| ProductCatalog.Catalog.DeleteProduct | internal/store/data_products.go:246-272 | removes the row and retires its key together |
| Contracts.FieldsDistinct | internal/proxy/dataworks_runtime.go:450-462 | kept fields are trimmed, non-empty and different up to case |
| Contracts.FieldKept | internal/proxy/dataworks_runtime.go:450-462 | some spelling of every non-blank field is kept |
| Contracts.FirstSpellingsKept | internal/proxy/dataworks_runtime.go:450-462 | what is kept of a field is its first spelling, trimmed, and first spellings keep their order |
| Contracts.NormalizeFieldList | internal/proxy/dataworks_runtime.go:450-462 | the loop with its set of seen names keeps the first spelling of each field |
| Contracts.FieldsReadBack | internal/store/data_products.go:215-223 | the stored column gives back a list of trimmed fields if and only if no field has a comma |
| Contracts.ReadBackEmpty | internal/store/dataworks_operations.go:376-386 | it gives back no field if and only if all fields are commas and blanks |
| Contracts.ServableKept | internal/proxy/dataworks_runtime.go:450-462 | normalizing neither gains nor loses a field that is more than commas and blanks |
| Contracts.ScopeRowSound | internal/proxy/admin_dataworks.go:1451-1490 | a scope that is not refused is sound as read back; it reads back the fields it was given if and only if none has a comma, and any field if and only if the request names one that is more than commas and blanks |
| Contracts.ScopeAccepted | internal/proxy/admin_dataworks.go:1451-1508 | a scope write is taken if and only if its times are readable and in order, the rate is not negative, some field is not blank, policy and status are known, the key is not another product's, and key and product are given |
| Contracts.GrantAccepted | internal/proxy/admin_dataworks.go:1525-1573 | an entitlement write is taken if and only if it names a contract of the product, its expiry is readable, its status known, its id not another product's, and an API key is named |
| Contracts.WriteServes | internal/proxy/admin_dataworks.go:1465-1473 | a write keeps every stored contract able to serve some field if and only if it is not an accepted scope of commas and blanks only |
| Contracts.RunServes | internal/proxy/admin_dataworks.go:1465-1473 | over every run whose scope requests name a legible field, every stored contract serves one |
| Contracts.CommaFieldAccepted | internal/store/dataworks_operations.go:301-330 | a request whose only field is a comma is accepted and its contract serves none |
| Contracts.CommaFieldSplits | internal/store/data_products.go:215-223 | a field with a comma comes back as two, which can repeat one that was listed |
| Contracts.ScopeWriteKeeps | internal/proxy/admin_dataworks.go:1490-1508 | no scope write takes a contract key from a product or an entitlement's contract away |
| Contracts.GrantWriteKeeps | internal/proxy/admin_dataworks.go:1548-1571 | an entitlement names a contract of its own product, and its id stays with its product |
| Contracts.RunKeepsOwners | internal/proxy/admin_dataworks.go:1445-1577 | over every run of writes, refused and failed ones included: scopes sound as read back, entitlements owned, nothing ever changes product |
| Contracts.LiteralKeyFound | internal/store/dataworks_operations.go:388-421 | in every reachable state the stored contract key of an entitlement is itself a scope key if and only if it has no blanks around it |
| Contracts.SpacedKeyIsLost | internal/proxy/admin_dataworks.go:1548-1571 | a concrete run: an entitlement accepted with a blank in its contract key, whose stored key names no contract |
| Contracts.Registry.UpsertScope | internal/proxy/admin_dataworks.go:1445-1510 | taken exactly when acceptable; the stored row has the sent key or the generated one, folded policy and status (active by default) and the other fields as sent; ownership kept |
| Contracts.Registry.VetEntitlement | internal/proxy/admin_dataworks.go:1525-1573 | the checks of an entitlement write in their order |
| Contracts.Registry.UpsertEntitlement | internal/proxy/admin_dataworks.go:1525-1573 | taken exactly when acceptable; the stored row is the request with its id, trimmed product and folded status; ownership kept |
| Contracts.Registry.ContractOf | internal/proxy/dataworks_runtime.go:263-277 | the runtime's lookup of an entitlement's contract always finds one of the same product |
| CollectSlo.PercentileExact | internal/analyzer/collectslo.go:190-211 | strictly between 0 and 100 the result is the only value of the input with at least p percent at or below it and less than p percent below it |
| CollectSlo.PercentileEnds | internal/analyzer/collectslo.go:197-202 | at the ends the least and the greatest value |
| CollectSlo.PercentileMonotone | internal/analyzer/collectslo.go:191-211 | a higher percentile is never a lower value, hence P50 ≤ P95 |
| CollectSlo.FoldBalances | internal/analyzer/collectslo.go:100-121 | attempts = successes + failures by category; rate-limited is one category; latencies are positive |
| CollectSlo.FoldCounts | internal/analyzer/collectslo.go:100-117 | attempts, successes and each failure category count the runs of that sort |
| CollectSlo.OwnExact | internal/analyzer/collectslo.go:87-91 | a cluster's own runs are those that name it and start in the window or at no known time, in order |
| CollectSlo.FoldLatencies | internal/analyzer/collectslo.go:101-103 | the latencies are the positive ones of those runs, in order |
| CollectSlo.FoldTimes | internal/analyzer/collectslo.go:104-120 | the latest start of a success and of a failure, or no time |
| CollectSlo.FoldName | internal/analyzer/collectslo.go:97-99 | the name is the last one a run gives |
| CollectSlo.TopKey | internal/analyzer/collectslo.go:213-229 | the most frequent key, the least in string order among equals, empty when nothing occurred |
| CollectSlo.TopsUnique | internal/analyzer/collectslo.go:213-229 | no two keys stand out, so map order cannot change the answer |
| CollectSlo.BandExact | internal/analyzer/collectslo.go:165-184 | the band in terms of the counts, exact ties of the rounding apart: above 94.995 percent healthy and below not, above 69.995 percent not failing and below failing |
| CollectSlo.RateNearest | internal/analyzer/collectslo.go:179-184 | the rate is within half a hundredth of a percent of the share |
| CollectSlo.RateMonotone | internal/analyzer/collectslo.go:179-184 | rounding never reverses the order of two shares, however ties fall |
| CollectSlo.RunsAddUp | internal/analyzer/collectslo.go:87-100 | runs of any sort, counted cluster by cluster, add up to those in the window |
| CollectSlo.Accumulate | internal/analyzer/collectslo.go:87-122 | each accumulator is the fold of its cluster's own runs in the window, in order of first appearance |
| CollectSlo.FirstSeenExact | internal/analyzer/collectslo.go:91-96 | the clusters with a run in the window, each listed before those that had none when it had its first |
| CollectSlo.AbsorbRun | internal/analyzer/collectslo.go:87-121 | one run changes its own cluster only, and only inside the window |
| CollectSlo.BuildRows | internal/analyzer/collectslo.go:124-159 | one row per cluster in order of first appearance, with the running totals and the tallies of bands |
| CollectSlo.BuildRow | internal/analyzer/collectslo.go:125-147 | counts, rate, percentiles, latest times, most frequent failure with its tie-break, breakdown and, rounding ties apart, band of one cluster |
| CollectSlo.RowsRank | internal/analyzer/collectslo.go:156-159 | worst first, and clusters of the same rate in order of first appearance |
| CollectSlo.Summarize | internal/analyzer/collectslo.go:65-160 | exactly the clusters with a run in the last hours (a day if the window is not positive), each row from its own runs, ranked; totals, overall rate and tallies are those of the window |
| Text.NormalizeOf | internal/dataworks/domain.go:59-60 | a word is recognised in any letter case and with any blanks around it |
| Text.ContainsExact | internal/kube/client.go:576-580 | one text contains another if and only if it stands somewhere in it |
| Sorting.StringLeExact | internal/analyzer/resource_graph.go:257-266 | one string is at most another if and only if it is a beginning of it or has the smaller character where they part |

## Left out

- Agent.Runner.FlushLoop: the queue file is configured, appends succeed, and encoding a batch and decoding it again gives the batch; a corrupt line is not modelled. One agent talks to a server whose store starts empty; restarting from saved resource versions is not part of the model.
- Delivery.DeliveredExactlyOnce: speaks of the flushed watch events, not of the state of the Kubernetes API; Kubernetes events get new identifiers on redelivery and are not delivered once.
- Agent.Runner.BuildBatch: reconnect and event counters, the last error and the watch lag are left out.
- Collector.Database.ApplyAgentBatch: identifiers, risk scoring, revision and finding contents, and telemetry fields are left out, each call they cost being counted; a missing batch time stays missing.
- SnapshotSync.Store.ApplySnapshot: ends with the pruning; events, metrics and findings come later and do not touch the inventory. The database's `lower()` is taken to fold case as the program does.
- ResourceGraph.EdgeTable.Graph: which edges the selectors, volumes and owners of the inventory give is left out, and so are the impact tallies.
- JsonDiff.ReportedOrderRoundTrip: paths are structured and values raw; rendered paths, formatted values and highlight labels are left out.
- ExecStream.ReadExec: how a status message is read as JSON is a parameter; continuation frames are ignored as the code does. Dialing, TLS and the upgrade handshake are left out.
- ChangeSets.Gateway.HowFar: requests for one set come one after another. The handlers read the record and write it back without a guard, so two that overlap can both take effect; that interleaving is not part of the model.
- ChangeSets.Gateway.ApplySet: encryption and JSON encoding of stored values are taken as the identity; reloading the runtime and auditing are left out.
- ProductGate.ProductPublishGate: parsing of timestamps is left out; contracts, readiness and the other records are what the store returns at one moment. SLA, price and API flags only feed warnings.
- ProductCatalog.Catalog.UpsertProduct: each handler is one step; products are looked up by key, not by id; the check for corrupted text is a parameter. Scores and plans the factory computes are arbitrary values.
- ProductLifecycle.StepCertified: the factory's own publish, approve and archive, its definitions, risk checks, plans and the proposal feedback are steps of the state machine without a class method of their own.
- Contracts.Registry.UpsertScope: purposes, restrictions and quotas of the runtime gate are left out.
- CollectSlo.Summarize: the floating-point quotient is taken as exact except on a rounding tie, where which way it falls is a parameter of the share (18999 of 20000 falls below 95 percent in the program); times are instants and are not formatted; a missing current time is the caller's.
- Text: upper and lower case are those of ASCII plus the four letters whose folding meets ASCII; other scripts are left unfolded.
- HTTP decoding, authorization, audit records and responses.
- Redaction, classifiers, cost, freshness and carbon scores, exports, command-line tools, web pages, and the ClickHouse and Prometheus clients.
- Simple tallies, groupings and set differences, which would only add easy members.
