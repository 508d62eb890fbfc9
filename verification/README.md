# Verified models of the A2A Go SDK

The SDK serves agents that work on long-lived tasks. This project models the four places where its
correctness is hardest to see from the code, and proves what they promise for every input, every run
and every interleaving.

**Diff and patch of task snapshots** (`Tasks.dfy`, `Patch.dfy`, `Recovery.dfy`, `SharedHeap.dfy`).
`a2aevent.ApplyShallowUpdate` applies an event to a task, `a2aevent.Recover` finds events that lead from
one snapshot to another. `Patch` gives the meaning of one event and of a run of events as functions on
values. `Recovery` has the loops of `Recover` with the function they compute, and proves the round trip:
when replaying is accepted, what the patched task is, when it equals the current snapshot, and that a
second diff finds nothing. `SharedHeap` has the update functions on mutable objects that share artifacts,
backing arrays and metadata maps, with Go's `append` writing into spare room, and proves that they compute
`Patch.Apply` and write to no object that existed before. A replay therefore leaves every earlier snapshot
and every event as it was.

**The broadcast broker** (`Broker.dfy`, `EventQueues.dfy`, `PullReader.dfy`). `Broker` is a transition
system of the broker goroutine, its bounded queues, and any number of goroutines in `Write`, `Read`,
`Close`, `connect` and `destroy`. Its invariant carries the agreed delivery order, the meaning of an
acknowledged write, the lifetime of channels, and a measure for progress. `EventQueues` has the loops of
the goroutine and the queue operations, each with the trace of transitions it performs, and the manager that owns one
broker for each task ID. `PullReader` is the polling goroutine of the pull-based reader.

**Canonical JSON** (`Json.dfy`, `Utf8.dfy`, `KeyOrder.dfy`, `Canonical.dfy`, `CanonicalWriter.dfy`,
`SurrogateScanner.dfy`). `Canonical` defines the text that is printed for a decoded value, and a parser
that undoes it whatever text follows; so two cards have the same canonical bytes exactly when they agree
without their signatures. `KeyOrder` is the UTF-16 order of section 3.2.3 of RFC 8785 with the sorting of
keys, `CanonicalWriter` the functions that write to a buffer, `SurrogateScanner` the check of `\u` escapes
on raw bytes.

**Execution over a versioned store** (`OptimisticStore.dfy`, `Execution.dfy`). `OptimisticStore` is a
transition system of any number of actors that read, materialize and compare-and-set one stored task.
`Execution` has the store, the update manager, the event processor and the loading of execution contexts
as one actor runs them; before each of its store operations any other actors may take any steps of the
transition system, and the operation itself may fail. Both kinds of materializer are covered: a full one,
which is `ApplyShallowUpdate`, and a partial one with arbitrary output, for which the store derives the
task it keeps from the event.

A precondition that is not a check of the code is a hypothesis of a theorem, such as unique artifact IDs
in a snapshot. Where the code does not give a property in general, the exact condition is proved:
`Recovery.ReplayAcceptedIff`, `Recovery.PatchedArtifactsIff`, `Recovery.PatchedMetadataIff`, `Broker.RestingIff`,
`KeyOrder.DiffersFromCodePointOrder` and `OptimisticStore.AtMostOnceIff` are such statements. The comment on
`Recover` (a2aevent/diff.go:25-26) promises the state of the second argument; the code compares status messages
by their ID only and ignores the history, dropped artifacts and removed keys. The models follow the code, and
`Recovery.ReplayReachesCurrentIff` says when the promise is kept.

`dafny verify dfyconfig.toml` checks the whole project.

## Model

| member | source | states |
|---|---|---|
| Patch.MessageAcceptedIff | a2aevent/event.go:158-178 | a message is accepted exactly from a user, on a task that has not ended, with IDs that are left out or the task's |
| Patch.WholeTaskAcceptedIff | a2aevent/event.go:42-46 | a whole task is accepted exactly with the IDs of one that has not ended, and replaces it |
| Patch.StatusAcceptedIff | a2aevent/event.go:158-178 | a status is accepted exactly with the IDs of a task that has not ended |
| Patch.ArtifactAcceptedIff | a2aevent/event.go:79-92 | an artifact is accepted exactly, in addition, with a part, and a chunk with an artifact of its ID to append to |
| Patch.RefusedBecause | a2aevent/event.go:158-178 | every error names a fault that the event has |
| Patch.ArchivedIff | a2aevent/event.go:149-156 | the status message moves to the end of the history unless a message with its non-empty ID is there |
| Patch.MessageComesLast | a2aevent/event.go:139-147 | a user message comes last, behind the status message if that moves, and changes nothing else |
| Patch.FinalIff | a2aevent/event.go:181-197 | an accepted event is final exactly when it is a message or, not being an artifact, leaves the task ended or in need of input |
| Patch.ApplyKeeps | a2aevent/event.go:37-178 | an accepted event finds a non-terminal task, keeps both IDs and, unless it is a whole task, keeps the old history and the old artifact IDs as prefixes and the IDs distinct |
| Patch.RunKeepsIdentity | a2aevent/event.go:158-178 | over every accepted run the task and context IDs stay the same |
| Patch.NothingAfterTerminal | a2aevent/event.go:163-165 | every proper prefix of an accepted run leaves a non-terminal task: nothing is accepted after a terminal state |
| Patch.RunOnlyGrows | a2aevent/event.go:79-147 | over every accepted run without whole tasks, history and artifact-ID sequence only grow at the end and IDs stay distinct |
| Patch.ConservesOnce | a2aevent/event.go:121-156 | one event with a fresh message loses no message ID and repeats none |
| Patch.StatusMessagesConserved | a2aevent/event.go:121-156 | over every run of fresh messages each status message ever set is the current one or has its ID in the history, whose IDs stay distinct |
| Patch.ChunksAccumulate | a2aevent/event.go:105-118 | through any accepted events other than whole tasks and replacements, an artifact keeps its place and takes exactly the appended chunks |
| Patch.StreamedArtifact | a2aevent/event.go:79-119 | a streamed artifact ends with the parts of all its chunks in order, its metadata merged with later chunks winning, and the header of the first chunk |
| SharedHeap.CloneSlice | a2aevent/event.go:93-93 | a clone has the same elements in a backing array of its own |
| SharedHeap.AppendAll | a2aevent/event.go:107-107 | append gives the longer slice and never changes elements that the old slice shows, even when it writes into the shared backing array |
| SharedHeap.MergedMap | a2aevent/event.go:110-117 | the merged map is new; neither source map is written |
| SharedHeap.WithArtifact | a2aevent/event.go:84-102 | a new task whose own artifact list has the artifact put in, everything else shared |
| SharedHeap.PutArtifact | a2aevent/event.go:93-103 | the list with the artifact itself replaced or added, source task and artifact unchanged |
| SharedHeap.ExtendedCopy | a2aevent/event.go:105-117 | the extended artifact is a new object with its own parts and metadata |
| SharedHeap.ExtendArtifact | a2aevent/event.go:105-118 | the task with one artifact extended by a chunk, source task and chunk unchanged |
| SharedHeap.ApplyShallowArtifactUpdate | a2aevent/event.go:79-119 | on shared objects, with no existing one written, computes the artifact update on values, errors included |
| SharedHeap.StatusMessageInHistory | a2aevent/event.go:149-156 | true exactly when the status message has an ID and a message with that ID is in the history |
| SharedHeap.ApplyShallowStatusUpdate | a2aevent/event.go:121-137 | a new task with the status message archived, metadata merged and status set, sharing the artifacts |
| SharedHeap.ApplyShallowHistoryUpdate | a2aevent/event.go:139-147 | a new task with the status message archived first and the user message last |
| SharedHeap.ValidatesView | a2aevent/event.go:158-178 | the checks on the objects give the same verdict as on the values they stand for |
| SharedHeap.ShallowCopy | a2aevent/event.go:42-46 | a whole-task event is copied with an artifact list and metadata map of its own |
| SharedHeap.ApplyShallowUpdate | a2aevent/event.go:37-56 | writes no existing object and returns a new task that stands for what the event does to the old value, or the same error |
| SharedHeap.Replay | a2aevent/event.go:34-56 | after replaying any events every snapshot on the way, and every event, still stands for the value it had |
| Recovery.DiffMetadata | a2aevent/diff.go:67-78 | the entries that merging needs: the previous map merged with them is the previous map overridden by the current one |
| Recovery.HasRemovedKeys | a2aevent/diff.go:80-87 | false exactly when every previous key is still there |
| Recovery.DiffParts | a2aevent/diff.go:95-113 | nothing exactly for equal parts; a suffix to append exactly for a proper extension; otherwise all current parts |
| Recovery.Recover | a2aevent/diff.go:27-65 | the loops build the event list that the round-trip lemmas are about, artifact events in order and the status last |
| Recovery.DiffDeterminesArtifact | a2aevent/diff.go:38-54 | what is sent for an artifact is enough to rebuild it exactly, and nothing is sent only if it is equal |
| Recovery.PatchReproducesRecovered | a2aevent/diff.go:27-65 | replaying the recovered events gives the patched task, or fails for a missing part exactly when an artifact to send has none |
| Recovery.AppendsIff | a2aevent/diff.go:42-47 | what is sent for an artifact is an append exactly when some chunk with parts extends the previous artifact to the current one |
| Recovery.LeastChunk | a2aevent/diff.go:42-47 | an append sends the new parts alone, and only metadata that every chunk to the same effect has |
| Recovery.LeastMetadata | a2aevent/diff.go:67-78 | the entries sent are contained in any map that merges to the same effect |
| Recovery.RecoveredShape | a2aevent/diff.go:56-64 | every event has the current IDs; a status event comes last, with the current status and the entries to merge; artifact events carry nothing beside their artifact |
| Recovery.NothingToRecoverIff | a2aevent/diff.go:27-65 | no event is recovered if and only if every current artifact and metadata entry is in the previous snapshot as it is, and the status does not count as changed |
| Recovery.ReplayAcceptedIff | a2aevent/diff.go:27-65 | the replay is accepted if and only if nothing of the current snapshot is missing, or the IDs agree, the previous task is not terminal and every artifact without parts is there already |
| Recovery.PatchedArtifactsIff | a2aevent/diff.go:30-54 | the artifacts come back if and only if the previous IDs are a prefix of the current ones |
| Recovery.PatchedMetadataIff | a2aevent/diff.go:56-62 | the task metadata comes back if and only if no key was removed |
| Recovery.PatchedStatus | a2aevent/diff.go:115-128 | the patched status never counts as changed against the current one |
| Recovery.RoundTrip | a2aevent/diff.go:25-113 | diff then patch never errors and gives the previous artifacts in their latest versions followed by the new ones, merged metadata, and the current state, status message ID and timestamp |
| Recovery.PatchedIsCurrentIff | a2aevent/diff.go:25-26 | the patched task is the current snapshot itself if and only if the IDs agree, no artifact was dropped or reordered, no key was removed, and history and status are what a status event makes of the old ones, or unchanged without one |
| Recovery.ReplayReachesCurrentIff | a2aevent/diff.go:25-26 | the promise of the function's comment, with its exact condition on the two snapshots |
| Recovery.EditedMessageIsMissed | a2aevent/diff.go:115-121 | where it fails: a status message edited under the same ID is not recovered |
| Recovery.MidwayHolds | a2aevent/diff.go:30-54 | an artifact that has been patched in stays as it is through the later events |
| Recovery.Convergence | a2aevent/diff.go:27-128 | recovering again from the patched task finds nothing, even when artifacts or keys were dropped |
| Recovery.SelfDiffIsEmpty | a2aevent/diff.go:27-128 | a task with unique artifact IDs has no difference from itself |
| Broker.InvKept | a2asrv/eventqueue/queue_in_memory_impl.go:50-181 | every step of any goroutine keeps bookkeeping, channel lifetime, delivery, provenance, acknowledgement and bounds |
| Broker.Reachable | a2asrv/eventqueue/queue_in_memory_impl.go:50-181 | the invariant holds in every interleaving of any number of goroutines, for every buffer size |
| Broker.PositionsExact | a2asrv/eventqueue/queue_in_memory_impl.go:61-64 | the log positions due to a queue are strictly increasing and exactly those of other senders since it joined |
| Broker.AgreedOrder | a2asrv/eventqueue/queue_in_memory_impl.go:58-87 | what a queue took followed by its buffer is exactly its due part of the broadcast log, also when destroy interrupts a dispatch |
| Broker.ReadersAgree | a2asrv/eventqueue/queue_in_memory_impl.go:60-71 | any two queues that are due two broadcasts have both received the payloads, in the same order |
| Broker.BroadcastAtMostOnce | a2asrv/eventqueue/queue_in_memory_impl.go:125-149 | a write is broadcast at most once, whether it succeeds or fails |
| Broker.AcknowledgedIsLogged | a2asrv/eventqueue/queue_in_memory_impl.go:140-148 | a successful write has one log entry with its sender and payload, within what its whole audience has been served |
| Broker.AcknowledgedReachesAll | a2asrv/eventqueue/queue_in_memory_impl.go:60-72 | when a write returns nil, every other queue registered when it was accepted has the payload in what it took or in its buffer |
| Broker.ChannelsAreSafe | a2asrv/eventqueue/queue_in_memory_impl.go:50-87 | no send reaches a closed queue, no queue is destroyed twice, a registered queue of a running broker is open, a stopped broker leaves none open |
| Broker.ClosedQueueOnlyDrains | a2asrv/eventqueue/queue_in_memory_impl.go:151-161 | readers of a closed queue get exactly what is buffered, in order, and the error exactly after that |
| Broker.NeverStuck | a2asrv/eventqueue/queue_in_memory_impl.go:58-87 | a broadcast in flight can always move on while its receiver is read or closed or destroy was called |
| Broker.LexicographicProgress | a2asrv/eventqueue/queue_in_memory_impl.go:60-72 | a delivery lowers the number of receivers left, a drain keeps it and lowers the buffer of the closing queue |
| Broker.QuietStepsShrinkWork | a2asrv/eventqueue/queue_in_memory_impl.go:58-87 | every step by which the goroutine moves on or a message leaves a buffer shrinks one bound over all queues and the goroutine |
| Broker.WorkNeverGrows | a2asrv/eventqueue/queue_in_memory_impl.go:50-181 | calls that begin, return or give up never raise that bound; only a new broadcast or a new queue does |
| Broker.QuietStepsAreBounded | a2asrv/eventqueue/queue_in_memory_impl.go:58-87 | so in any run without a new broadcast or queue, whatever calls are made or return, only boundedly many such steps are taken |
| Broker.RestingIff | a2asrv/eventqueue/queue_in_memory_impl.go:58-87 | when no such step is left the broker is idle or stopped, if and only if its dispatch does not hang on a queue that nobody reads or closes |
| Broker.HangsOnlyWhenFull | a2asrv/eventqueue/queue_in_memory_impl.go:66-70 | at rest a dispatch hangs only on a queue whose buffer is full: while there is room the broadcast goes through |
| Broker.CapacityStays | a2asrv/eventqueue/queue_in_memory_impl.go:92-96 | the buffers keep the size they were made with |
| Broker.ReadReadyIff | a2asrv/eventqueue/queue_in_memory_impl.go:151-161 | a pending read has a ready branch exactly for a buffered or handed message or a closed queue |
| Broker.DestroyStops | a2asrv/eventqueue/queue_in_memory_impl.go:105-112 | once destroy was called the broker can only come to rest stopped |
| Broker.HangsOn | a2asrv/eventqueue/manager_in_memory_impl.go:76-84 | a dispatch that hangs on a full queue stays so through all other calls until that queue is read or closed or destroy is called, which the manager cannot do while a connect holds its mutex |
| Broker.CloseReadyIff | a2asrv/eventqueue/queue_in_memory_impl.go:163-175 | a pending close can go on exactly on an idle broker, with a message to drain, or with its channel closed |
| Broker.CloseCanFinish | a2asrv/eventqueue/queue_in_memory_impl.go:163-175 | in any run without a new broadcast or queue, once the bounded steps are taken, every close has returned or has its broker idle or its channel closed, unless the dispatch hangs |
| Broker.WriteCanReturn | a2asrv/eventqueue/queue_in_memory_impl.go:125-149 | on an idle or stopped broker every write that has not returned has a ready branch |
| EventQueues.EventBroker.SendTo | a2asrv/eventqueue/queue_in_memory_impl.go:66-70 | the inner select serves exactly one receiver, sees the destroy signal of a destroy call, or hangs on a full queue that nobody attends; other queues are untouched |
| EventQueues.EventBroker.Dispatch | a2asrv/eventqueue/queue_in_memory_impl.go:60-72 | a completed dispatch gave every registered queue but the sender's the payload once, at its end; it completes whenever all registered queues have room and nobody calls destroy, and hangs only on a full buffer |
| EventQueues.EventBroker.RunDeferred | a2asrv/eventqueue/queue_in_memory_impl.go:51-56 | the deferred function destroys every registered queue and then reports the end, whatever the iteration order |
| EventQueues.EventBroker.Connect | a2asrv/eventqueue/queue_in_memory_impl.go:91-103 | on a live broker the new queue is registered and open; the destroyed branch is taken only by a stopped one; at rest it blocks only on a dispatch that hangs |
| EventQueues.EventBroker.Shutdown | a2asrv/eventqueue/queue_in_memory_impl.go:105-112 | when destroy returns the broker has stopped and all its queues are closed; until then the broker is still moving |
| EventQueues.EventBroker.Write | a2asrv/eventqueue/queue_in_memory_impl.go:125-149 | when it returns nil, its entry stands in the log where the broker accepted it, and every queue registered then, other than the sender, has been served it; each error has its cause, and it waits only while no branch is ready |
| EventQueues.EventBroker.OfferBroadcast | a2asrv/eventqueue/queue_in_memory_impl.go:132-138 | the broadcast enters the log once, with the other registered queues as audience, or nothing is sent |
| EventQueues.EventBroker.AwaitDispatch | a2asrv/eventqueue/queue_in_memory_impl.go:140-148 | nil is returned only once the dispatch of its own entry is complete |
| EventQueues.EventBroker.Read | a2asrv/eventqueue/queue_in_memory_impl.go:151-161 | takes the next message due to the queue, and reports the end only for a closed queue with nothing left |
| EventQueues.EventBroker.Close | a2asrv/eventqueue/queue_in_memory_impl.go:163-175 | the draining loop ends with the queue closed, or blocks only on a busy broker with nothing left to drain |
| EventQueues.OthersKeepRunning | a2asrv/eventqueue/manager_in_memory_impl.go:86-96 | without a destroy call a broker stays alive through any steps of other goroutines |
| EventQueues.InMemoryManager.Background | a2asrv/eventqueue/manager_in_memory_impl.go:75-96 | whatever other goroutines do on a broker between two calls, every broker in the map stays live |
| EventQueues.InMemoryManager.BrokerFor | a2asrv/eventqueue/manager_in_memory_impl.go:78-82 | the broker in the map, or a new one added for this task ID only |
| EventQueues.InMemoryManager.CreateReadWriter | a2asrv/eventqueue/manager_in_memory_impl.go:75-84 | never fails: every broker in the map is live; other brokers are untouched; at rest it blocks only on a dispatch that hangs |
| EventQueues.InMemoryManager.Destroy | a2asrv/eventqueue/manager_in_memory_impl.go:86-96 | removes exactly this broker, stopped and with all its queues closed; until then it waits for a broker that is still moving |
| PullReader.UpToFinalCuts | a2asrv/eventqueue/pull_event_queue_impl.go:195-208 | the events up to the first final one are a prefix with that event as the only final one, or everything |
| PullReader.CutIsUnique | a2asrv/eventqueue/pull_event_queue_impl.go:195-208 | nothing else has these properties |
| PullReader.Reader.DispatchMessages | a2asrv/eventqueue/pull_event_queue_impl.go:191-209 | sends a prefix of the non-empty messages cut after the first final one; unless cancelled it stops exactly at a final one |
| PullReader.Reader.PollOnce | a2asrv/eventqueue/pull_event_queue_impl.go:169-185 | a round leaves sent exactly the messages before the cursor, or stops with the cut reached or after a cancellation |
| PullReader.Reader.Poll | a2asrv/eventqueue/pull_event_queue_impl.go:155-187 | with any failed pulls and any cancellation point the sent events are a prefix of the queue's events cut after the first final one, and all of those pulled so far while the loop goes on; the channel is closed exactly once, on return |
| KeyOrder.Utf16Compare | a2acrypto/canonical.go:206-225 | compares the UTF-16 code units lexicographically |
| KeyOrder.EncodeInjective | a2acrypto/canonical.go:207-208 | different strings have different code units |
| KeyOrder.TotalOrder | a2acrypto/canonical.go:206-225 | a strict total order that is 0 only on equal strings |
| KeyOrder.UnitsShape | a2acrypto/canonical.go:207-208 | a character is its own unit and no surrogate, or the pair of a high and a low surrogate that stands for it |
| KeyOrder.LessIff | a2acrypto/canonical.go:209-224 | less means a proper prefix, or a smaller unit at the first difference |
| KeyOrder.DiffersFromCodePointOrder | a2acrypto/canonical.go:194-225 | disagrees with code-point order exactly when the first differing characters are one in U+E000..U+FFFF and one above U+FFFF |
| KeyOrder.SortedUnique | a2acrypto/canonical.go:195-204 | a set of keys has one sorted listing |
| KeyOrder.ListingExists | a2acrypto/canonical.go:195-204 | every set of keys has a strictly sorted listing |
| KeyOrder.SortedKeysOf | a2acrypto/canonical.go:195-204 | whatever the iteration order of the map and whichever sorted arrangement the sort leaves, the keys come out as the one sorted listing |
| Utf8.DecodeUndoesEncode | a2acrypto/canonical.go:182-182 | the bytes of a character determine it and their own number, whatever follows |
| Utf8.CharShape | a2acrypto/canonical.go:182-182 | the bytes of a character are its one shortest well-formed sequence |
| Utf8.EncodeInjective | a2acrypto/canonical.go:182-182 | different texts have different bytes |
| Canonical.UnescapeEscape | a2acrypto/canonical.go:145-187 | every escaped character can be read back, whatever follows |
| Canonical.EscapeForms | a2acrypto/canonical.go:145-187 | a character has a two-character escape exactly for the seven of section 3.2.2.2 of RFC 8785, four lower-case digits for the other control characters, and is itself otherwise |
| Canonical.ShortestSpelling | a2acrypto/canonical.go:138-140 | what is printed for a character is the one shortest spelling that reads back |
| Canonical.ParseEscaped | a2acrypto/canonical.go:141-192 | every printed string can be read back up to its closing quote |
| Canonical.ParsePrint | a2acrypto/canonical.go:62-192 | the parser undoes the printer on every value and every following text that does not continue a number |
| Canonical.PrintObjectExample | a2acrypto/canonical.go:91-116 | an object prints its members in order, with no space and each after its quoted name |
| Canonical.PrintArrayExample | a2acrypto/canonical.go:118-136 | an array prints its items, literals in lower case, with no space |
| Canonical.NormalizedIsValue | a2acrypto/canonical.go:62-89 | nothing but numbers is changed on the way to the printer |
| Canonical.NormalizedIsPrinted | a2acrypto/canonical.go:74-79 | every number is formatted, however deep, so a format that yields tokens meets the hypothesis of the canonical form |
| Canonical.KeepsOtherMembers | a2acrypto/canonical.go:272-276 | dropping the signatures keeps every other member, and anything that is no object |
| Canonical.SameWithoutSignaturesIff | a2acrypto/canonical.go:270-276 | cards agree without the signatures exactly when they agree on every other member |
| Canonical.CanonicalForm | a2acrypto/canonical.go:34-60 | two decoded cards have the same canonical bytes if and only if they agree after dropping the top-level signatures, numbers compared by printed token |
| CanonicalWriter.WriteJCSString | a2acrypto/canonical.go:141-192 | appends exactly the printed string |
| CanonicalWriter.WriteJCSArray | a2acrypto/canonical.go:118-136 | appends exactly the printed array |
| CanonicalWriter.WriteJCSObject | a2acrypto/canonical.go:91-116 | appends exactly the printed object, members in sorted order |
| CanonicalWriter.WriteJCS | a2acrypto/canonical.go:62-89 | appends exactly the printed value, numbers in canonical format |
| CanonicalWriter.CanonicalizeJSON | a2acrypto/canonical.go:34-60 | succeeds exactly on valid UTF-8 without unpaired surrogate escapes that decodes, with the canonical bytes of the decoded value; reports the first unpaired escape at its offset |
| SurrogateScanner.EscapeIsToken | a2acrypto/canonical.go:312-321 | an escape is recognised exactly where the left-to-right reading has a unit, with the same value |
| SurrogateScanner.HexIff | a2acrypto/canonical.go:319-320 | four bytes are read as a unit exactly when they are hex digits of either case that spell it |
| SurrogateScanner.PlainToken | a2acrypto/canonical.go:285-287 | a byte other than a backslash is read alone |
| SurrogateScanner.SimpleToken | a2acrypto/canonical.go:298-301 | a backslash that starts no unit is read together with the byte after it |
| SurrogateScanner.UnitToken | a2acrypto/canonical.go:312-321 | a backslash, `u` and four digits are read as the unit they spell |
| SurrogateScanner.SurrogatesOfCharacter | a2acrypto/canonical.go:302-308 | the units of a character are a high and a low surrogate, or neither |
| SurrogateScanner.PairIsCharacter | a2acrypto/canonical.go:302-308 | and every pair of them is a character |
| SurrogateScanner.EscapeEnds | a2acrypto/canonical.go:297-310 | fails exactly when the unit there is unpaired, and otherwise moves past whole tokens, to behind no high surrogate |
| SurrogateScanner.ValidateUnicode | a2acrypto/canonical.go:280-295 | stays in range, ends, accepts exactly the inputs without an unpaired surrogate unit, and otherwise reports the first one's offset |
| OptimisticStore.CommitApplies | internal/taskupdate/manager.go:176-210 | a successful compare-and-set was made at the latest version and adds the event applied to it |
| OptimisticStore.InvKept | internal/taskupdate/manager.go:176-216 | every step of any actor keeps the versions linear, the handles exact and versioned, and messages new to the history they join |
| OptimisticStore.Reachable | a2asrv/taskstore/inmemory.go:82-153 | so in every interleaving of any number of actors |
| OptimisticStore.OneLinearRun | internal/taskupdate/manager.go:181-195 | the stored versions are one accepted run of ApplyShallowUpdate from the created task |
| OptimisticStore.TerminalIsLast | internal/taskupdate/manager.go:181-195 | only the latest version can be terminal |
| OptimisticStore.StoredForGood | a2asrv/taskstore/inmemory.go:141-152 | no step of anyone changes a stored version, and none adds one after a terminal one |
| OptimisticStore.LoserCommitsNothing | a2asrv/taskstore/inmemory.go:141-143 | an actor behind the latest version commits nothing until it reloads, whatever it and the others do |
| OptimisticStore.OneWinner | a2asrv/taskstore/inmemory.go:141-143 | of two actors on one version at most one commits, and the other gets the conflict |
| OptimisticStore.AppendedOnceIff | a2aevent/event.go:139-147 | a new message is in the history once after it is applied if and only if its ID is not the current status message's |
| OptimisticStore.AtMostOnce | a2asrv/agentexec.go:242-261 | however many executions are started for one user message, by however many actors, no stored version has it twice, if its ID is no status message's and no agent stores a whole task that has it twice |
| OptimisticStore.AtMostOnceIff | a2asrv/agentexec.go:242-261 | exactly when no version has a message with a given ID twice: no whole task brought it twice, and no such message was appended while the current status message had its ID |
| Execution.TaskStore.Get | a2asrv/taskstore/inmemory.go:156-180 | the latest task with its version |
| Execution.TaskStore.Create | a2asrv/taskstore/inmemory.go:82-111 | stores version 1 only when there is no task |
| Execution.TaskStore.Update | a2asrv/taskstore/inmemory.go:114-153 | adds one version at the given previous version or changes nothing; a conflict means that others have moved on |
| Execution.Manager.InMemorySnapshot | internal/taskupdate/manager.go:63-68 | with a full materializer, and only then, gives a stored version without asking the store |
| Execution.Manager.Create | internal/taskupdate/manager.go:163-174 | tracks the created task, or keeps everything on an error that is never a conflict |
| Execution.Manager.Apply | internal/taskupdate/manager.go:176-210 | stores the event applied to the tracked version and tracks the outcome, or keeps what it tracks; a conflict means a later stored version |
| Execution.Manager.Reload | internal/taskupdate/manager.go:144-157 | takes over the latest version for the next attempt, or stops at an ended task |
| Execution.Manager.UpdateStatus | internal/taskupdate/manager.go:133-161 | commits the status, or adopts another actor's cancelation, or fails without a commit and for a reason it names; it gives up on a cancelation only after ten versions by others |
| Execution.FailedEventApplies | internal/taskupdate/manager.go:80-80 | the failed event applies to a task exactly when it has not ended and has the manager's IDs, and leaves the failed state with the status message archived |
| Execution.Manager.SetTaskFailed | internal/taskupdate/manager.go:73-82 | stores the failed version of the one before it, or keeps everything; a running task with the manager's IDs is refused only for a lost race or a failing store |
| Execution.Manager.Process | internal/taskupdate/manager.go:85-131 | accepts a message only before a task is tracked and, in a terminal state, only the initial task itself; otherwise commits the event once or meets a cancelation; on an error it commits nothing and the error has its cause in what it tracked or what the others stored |
| Execution.Processor.ResolveConflict | a2asrv/agentexec.go:467-486 | after a lost race the stored terminal task replaces the event, and a task that has not ended is an error |
| Execution.Processor.LoadResult | a2asrv/agentexec.go:547-556 | the result is a stored version, no older than the tracked one |
| Execution.Processor.SetTaskFailed | a2asrv/agentexec.go:530-545 | on success the stored task has ended as failed and replaces the event; it errs only where the manager is refused or the store fails |
| Execution.Processor.FailExecution | a2asrv/agentexec.go:515-528 | on success the latest stored task, which is failed, is the result |
| Execution.Processor.Process | a2asrv/agentexec.go:464-511 | a call that has not stored its event ends with the stored terminal task or an error; a result is always a stored version, present exactly for final events and failures; processing continues only with the version of the stored event; every error and failure cause is justified |
| Execution.UpdateHistory | a2asrv/agentexec.go:279-297 | stores the message applied to the version that was read, or nothing |
| Execution.LoadExecutionContext | a2asrv/agentexec.go:209-277 | the agent gets the full stored task of the tracked version with the message in its history, for full and partial materializers, and the message is stored only if it was missing; every refusal has its cause |
| Execution.CreateExecutor | a2asrv/agentexec.go:167-201 | the manager starts with the materializer's output at the version whose full task the agent gets; nothing but the message is stored, also when the push configuration is refused after it; every refusal has its cause |
| Execution.CreateCanceler | a2asrv/agentexec.go:315-346 | the manager starts with the latest task, which is not terminal unless it is already canceled |

## Left out

- HTTP, gRPC, REST, JSON-RPC and SSE handlers and clients, generated protobuf code, conversions to older protocol versions, logging: plumbing over libraries.
- `a2aevent.ApplyUpdate`: a deep copy of the shallow update; deep copies are equal values in the models, so the copy itself would add nothing.
- Nil and empty slices or maps are not told apart, and a timestamp is an instant without its location.
- SharedHeap.Replay: messages and parts are values, since no update function writes into one.
- Nil artifacts and nil messages inside a task, which the code does not check for before it uses an artifact.
- `encoding/json` decoding, `utf8.Valid` and the formatting of numbers (`strconv`, `normalizeExponent`): parameters of CanonicalWriter.CanonicalizeJSON; a canonical number is any token over digits, signs, point and exponent letters.
- Values that the decoder never yields (`float64`, unsupported types) and failing writers in the `writeJCS` functions: a `bytes.Buffer` does not fail.
- KeyOrder.SortedKeysOf: `sort.Slice` is any arrangement of the collected keys that `utf16Compare` finds sorted, not an algorithm on the slice; KeyOrder.SortedUnique shows that there is only one.
- Signing, verification, key resolution and JWKS fetching: only the payload bytes matter here.
- Goroutine scheduling below the channel operations, and the unsynchronised field `q.closed`: every step is atomic, and a select may take any ready branch.
- EventQueues.EventBroker.Connect: `waiting` stands for what other goroutines do until its select is looked at; a call for which no branch is ready by then is reported as still blocked.
- EventQueues.EventBroker.Shutdown: the same for the moment at which the goroutine may take the destroy signal.
- EventQueues.EventBroker.Close: reports that it blocks on a busy broker instead of waiting there.
- PullReader.Reader.Poll: the loop is left after an arbitrary number of rounds, because without a final message it has no last one; ticker, inactivity timeout and its callback are not modelled, nor a nil response without an error.
- `pullReader.Read` and `pullReader.Close`: one select on the channel that PullReader.Reader.Poll feeds and closes, and a cancellation.
- Patch.StatusMessagesConserved: no whole-task events, which may bring any history, and no anonymous messages, which are archived each time.
- OptimisticStore.AtMostOnce: excludes IDs that a status message has, and whole tasks that an agent stores with the message in them twice; OptimisticStore.AtMostOnceIff has the exact condition for non-empty IDs.
- Execution.Processor.Process: sending push notifications is a parameter that succeeds or fails; with a partial materializer nothing is said about the result of emitting the initial task again after the end, because the tracked state may then be anything.
- Execution.TaskStore.Update: one task, without owner names, authentication, validation of metadata types, update times or listing; their failures are arbitrary faults of the operation.
- The order in which a partial materializer's store derives the task: it is `ApplyShallowUpdate` on the stored task, and an event that this refuses is not stored.
- `canceler.Cancel`, interceptors, cleaners and the work queue around executors: they emit events or call user code.
- Agent cards' other handling, service parameters, ETags, caches and transport selection: one-branch code.
