# EventMesh, verified

A Dafny model of EventMesh: topics stored as append-only logs, nodes that forward events to
the peers that asked for them, and clients that follow topics over a server-sent event
stream and resume where they left off. The model follows the Go code branch by branch and
proves what the system is for.

* **Storage.** `ByteOrder`, `PebbleKeys` and `KeyValueStore` model the byte-ordered key space;
  `PebbleEventLog` is the durable log over it, `InMemoryEventLog` the default one, `EventLogSpec`
  the sequence per topic both stand for. `LogRefinement` proves that the two logs give the same
  answers over whole runs, and exactly when.
* **Streaming.** `ResumeProtocol` is the server and a streaming client as one state machine with
  disconnects at any point. Its invariant gives the guarantee that a client never skips an event
  on resuming. `OffsetFlow` holds the arithmetic, `StreamCursor` the client's cursor, `SseReplay` the
  replay budget and the replay loops, `SseFraming` the text of the stream, `SseAttachment` the
  registration for live delivery.
* **Mesh.** `TopicPattern` and `RoutingTable` find the subscribers of a topic. `Interest` is a node's
  subscription records and what peers are told of them; `InterestGossip` is the network of nodes
  under every interleaving, `GossipGaps` what that leaves out; `MeshDelivery` follows events from node
  to node; `MeshNode` is the node object whose methods are tied to the functions of these.
* **Links.** `OutboundQueues` are the two bounded queues to a peer as a state machine, `PeerLink` the
  object that runs them.

Objects that the program updates in place are classes here. Their methods are proved against
specification functions, and the laws are lemmas about those functions. Text is a sequence of
bytes, except in `SseFraming`, where the client trims characters. Counters of the program that could
reach their range are wrapped explicitly.

Where the code does not do what one might expect, the model keeps the code and says so:

* A topic's scan window holds another topic's keys when the two names' lengths differ by a
  multiple of 2^32 and one is a prefix of the other (`TopicWindowExact`).
* The in-memory log's end index can wrap to a negative slice bound, and its offsets wrap where the
  durable log refuses (`AnswersAgreeExactly`).
* The budget sum of a replay plan can wrap. For every budget and every gap that does not fit beside
  it there is a plan whose verdict depends on the order in which the cursor is walked
  (`OrderMattersWithoutRoom`). A plan that fits is accepted in every order, and for any budget up to
  half of int64 no other plan is (`AcceptedInEveryOrderExactly`).
* A stream that ends takes its routing entries along but leaves the subscription records, so what is
  routed is recorded but not the other way round (`DetachAgreesExactly`): a client is routed on a
  recorded pattern exactly when the end of a stream was not the last that happened to the two
  (`RoutedExactlyOverRuns`). Peers go on choosing the node for the patterns left behind, in vain exactly
  when nothing else matches (`ForwardedInVainExactly`, `EndedStreamIsStillChosen`).
* A client that reconnects with its patterns before the server has noticed the loss gets nothing live: the
  old handler's cleanup goes by the client ID and takes the new stream's routing away
  (`OvertakenReconnectIsSilent`).
* A snapshot that was taken before a subscription and queued after its update, and a connection that
  drops and returns between two ticks of the resync loop, each leave a peer uninformed
  (`StaleSnapshotLosesInterest`, `QuickReconnectLosesInterest`). It stays so until a tick does not find
  it connected, the node restarts, the control queue is tampered with, or a matching pattern gets its
  first subscriber and the peer takes the update (`UninformedIsNeverChosen`).
* Publishing answers with an error although the event is stored, when one subscriber's channel or
  one peer's queue refuses it or its context is done half-way (`PublishEventWithResult`).
* Removing one subscription by its ID removes every subscription of that client to the same pattern;
  it removes just the one exactly when there is no other (`OneRecordExactly`).
* A message is read back as written exactly when its event ID hides no message behind a line break;
  space around the ID does no harm, since the client goes by the ID in the body
  (`MessageSurvivesExactly`).

## Model

| member | source | states |
|---|---|---|
| ByteOrder.BigEndianMonotone | internal/eventlog/pebble_keys.go:43-47 | fixed-width big-endian encodings compare bytewise as the numbers do |
| ByteOrder.DecodeEncode | internal/eventlog/pebble_keys.go:43-51 | decoding an encoded number gives the number back, for every width it fits |
| ByteOrder.EncodeDecode | internal/eventlog/pebble_keys.go:43-51 | encoding a decoded string of bytes gives the bytes back |
| PebbleKeys.PrefixUpperBound | internal/eventlog/pebble_keys.go:32-41 | the in-place loop computes the successor of the prefix |
| PebbleKeys.PrefixRangeExact | internal/eventlog/pebble_keys.go:32-41 | for every prefix and key: the key is in [prefix, bound) exactly when it starts with the prefix |
| PebbleKeys.UnboundedExactly | internal/eventlog/pebble_keys.go:32-41 | there is no bound exactly for a prefix of 0xff bytes only |
| PebbleKeys.EventKeyInjective | internal/eventlog/pebble_keys.go:18-30 | an event key determines its topic and offset |
| PebbleKeys.EventKeyOrder | internal/eventlog/pebble_keys.go:18-30 | within a topic, byte order is offset order over all of uint64 |
| PebbleKeys.OffsetKeyInjective | internal/eventlog/pebble_keys.go:14-16 | a counter key determines its topic |
| PebbleKeys.EventAndOffsetKeysDisjoint | internal/eventlog/pebble_keys.go:10-30 | event keys and counter keys never collide |
| PebbleKeys.TopicWindowExact | internal/eventlog/pebble.go:327-333 | which topics' events a topic's iterator sees: its own, and those of a longer name with the same length modulo 2^32 that it is a prefix of |
| PebbleKeys.TopicWindowIsolated | internal/eventlog/pebble.go:327-333 | for names shorter than 2^32 bytes the iterator sees its own topic and no other, even when one name is a prefix of another |
| PebbleKeys.OffsetKeyDecodes | internal/eventlog/pebble_keys.go:53-64 | decoding a counter key accepts exactly what encoding makes and inverts it |
| PebbleKeys.OffsetWindowExact | internal/eventlog/pebble.go:214-234 | the statistics window holds every counter key and nothing else |
| KeyValueStore.Store.Commit | internal/eventlog/pebble.go:67-78 | both writes of a batch take effect together |
| KeyValueStore.RangeIterator.SeekGE | internal/eventlog/pebble.go:308-310 | lands on the least key of the window that is not before the target |
| KeyValueStore.RangeIterator.Next | internal/eventlog/pebble.go:308-310 | moves to the least key after the current one |
| PebbleEventLog.RepresentationUnique | internal/eventlog/pebble.go:53-78 | the stored keys and values determine the log: two logs coupled to one key space are equal |
| PebbleEventLog.AppendRepresents | internal/eventlog/pebble.go:53-78 | writing an event key and the next counter keeps the coupling: event keys are exactly 0 up to the counter |
| PebbleEventLog.TopicWindowKeys | internal/eventlog/pebble.go:327-333 | under the coupling, a topic's window holds exactly the keys of its offsets |
| PebbleEventLog.CounterOfTopic | internal/eventlog/pebble.go:285-299 | a topic has a counter exactly when it has events, and the counter is their number |
| PebbleEventLog.Collect | internal/eventlog/pebble.go:301-325 | the seek and next loop returns exactly the slice from the start offset, up to the limit or the end |
| PebbleEventLog.Send | internal/eventlog/pebble.go:139-193 | the replay loop sends everything from the start offset, or on cancellation a prefix of it |
| PebbleEventLog.Count | internal/eventlog/pebble.go:214-271 | the counter scan sums every topic once, and fails exactly when a counter is beyond int64 |
| PebbleEventLog.PebbleEventLog.AppendEvent | internal/eventlog/pebble.go:35-81 | checks in order, then appends one event at the end offset of its topic; the coupling is kept |
| PebbleEventLog.PebbleEventLog.ReadEvents | internal/eventlog/pebble.go:83-108 | the answer the specification gives for every argument, the error cases included |
| PebbleEventLog.PebbleEventLog.ReadEventsLocked | internal/eventlog/pebble.go:301-325 | the slice of the topic's sequence |
| PebbleEventLog.PebbleEventLog.GetTopicEndOffset | internal/eventlog/pebble.go:110-133 | the number of events, or an overflow error beyond int64 |
| PebbleEventLog.PebbleEventLog.ReplayEvents | internal/eventlog/pebble.go:135-197 | everything from the start offset, each error of its guard, a prefix on cancellation |
| PebbleEventLog.PebbleEventLog.GetStatistics | internal/eventlog/pebble.go:214-271 | per-topic counts and their total, or an overflow error |
| InMemoryEventLog.InMemoryEventLog.AppendEvent | internal/eventlog/inmemory.go:42-74 | appends one event; its offset and counter wrap as int64 does |
| InMemoryEventLog.InMemoryEventLog.ReadEvents | internal/eventlog/inmemory.go:76-123 | the slice, or the slice-bounds failure when start plus limit wraps |
| InMemoryEventLog.InMemoryEventLog.ReplayEvents | internal/eventlog/inmemory.go:145-200 | everything from the start offset, a prefix on cancellation |
| InMemoryEventLog.InMemoryEventLog.GetStatistics | internal/eventlog/inmemory.go:219-246 | wrapped counts and their wrapped total |
| EventLogSpec.AppendCountsOne | internal/eventlog/inmemory.go:219-246 | an append adds one to the total and to its topic, whatever order topics are summed in |
| LogRefinement.AnswersAgreeExactly | internal/eventlog/pebble.go:35-271 | for every state and operation the two logs answer alike exactly under a condition on the arguments and the end offset, and then move to the same log |
| LogRefinement.RunsAgreeExactly | internal/eventlog/inmemory.go:42-246 | over every sequence of operations the answers are equal exactly when each step meets that condition |
| LogRefinement.RunConservesEvents | internal/eventlog/pebble.go:35-81 | over every run the stored events are those at the start plus the acknowledged appends |
| LogRefinement.OffsetsNeverWrap | internal/eventlog/pebble.go:57-62 | no run takes a topic's counter beyond 2^63 |
| LogRefinement.FullTopicRefuses | internal/eventlog/pebble.go:57-62 | a full topic refuses every later append and end-offset read |
| LogRefinement.AppendMeans | internal/eventlog/pebble.go:35-81 | an append succeeds exactly with a topic, an event, an open log, room and an encoding; it stores the given event with only its offset filled in, last in its topic; each refusal and its condition |
| LogRefinement.ReadMeans | internal/eventlog/pebble.go:83-197 | reads, replays and end offsets succeed exactly for the arguments named, and answer with the events at the offsets asked for, as many as there are |
| LogRefinement.StatisticsMean | internal/eventlog/pebble.go:214-271 | the statistics list each topic once with its number of events, and the total |
| LogRefinement.AppendedIsReadBack | internal/eventlog/pebble.go:35-108 | an acknowledged event is read back at its offset, unchanged, after any further operations on an open log |
| LogRefinement.DriveBoth | internal/eventlog/pebble.go:35-271 | the two log objects, driven through one sequence of calls, give equal answers exactly under that condition |
| TopicPattern.JoinSplit | internal/routingtable/inmemory.go:35-36 | joining what splitting at dots gives returns the text |
| TopicPattern.SegmentsHaveNoDot | internal/routingtable/inmemory.go:35-36 | no segment of a split text has a dot: it is cut at every one |
| TopicPattern.SplitJoin | internal/routingtable/inmemory.go:35-36 | splitting joined dot-free segments gives those segments back, however many |
| TopicPattern.MatchesSegmentwise | internal/routingtable/inmemory.go:35-49 | the law of matching without splitting: patterns and topics of dot-free segments match exactly when there are as many on either side and each of the pattern's is a star or the topic's |
| TopicPattern.MatchesPattern | internal/routingtable/inmemory.go:29-49 | the loop with its fast path decides the segment-wise match (`MatchesSegmentwise` says which that is) |
| TopicPattern.LiteralMatchesOnlyItself | internal/routingtable/inmemory.go:29-49 | a pattern without a star segment matches itself and nothing else |
| TopicPattern.StarMatchesOneSegment | internal/routingtable/inmemory.go:29-49 | a lone star matches exactly the topics of one segment |
| TopicPattern.TopicCovered | internal/httpapi/handlers.go:523-530 | whether some subscription matches the topic |
| RoutingTable.OneEntryChanges | internal/routingtable/inmemory.go:52-98 | subscribing and unsubscribing change one ID under one pattern, the last subscriber wins, no empty inner map stays |
| RoutingTable.InMemoryRoutingTable.Subscribe | internal/routingtable/inmemory.go:52-75 | the new table, or each error with the table as it was |
| RoutingTable.InMemoryRoutingTable.Unsubscribe | internal/routingtable/inmemory.go:78-98 | the new table, or the closed error |
| RoutingTable.InMemoryRoutingTable.GetSubscribers | internal/routingtable/inmemory.go:101-135 | each subscriber as often as matching patterns route to it: the exact pass loses none and doubles none |
| RoutingTable.InMemoryRoutingTable.GetAllSubscriptions | internal/routingtable/inmemory.go:138-157 | lists exactly the pairs in the table |
| RoutingTable.InMemoryRoutingTable.RebuildFromGossip | internal/routingtable/inmemory.go:160-186 | the table of the listing; from a listing of itself, the same table |
| RoutingTable.RebuildRestores | internal/routingtable/inmemory.go:138-186 | rebuilding from any listing of a table, in any order, gives the table |
| RoutingTable.RebuiltRoutesTheLast | internal/routingtable/inmemory.go:160-186 | from any listing, with repeats and conflicts: of each pattern and ID the subscriber listed last is routed, and nobody else |
| StreamCursor.CursorHoldsMaxima | pkg/httpclient/streaming.go:390-413 | while one node serves, the cursor holds the maximum per topic of what was recorded, in any order and with repeats |
| StreamCursor.NewNodeStartsOver | pkg/httpclient/streaming.go:398-413 | over whole sequences of events: once another node takes over, the cursor is of that node, holds exactly the topics of its events, each at its maximum, and nothing of what was held before |
| StreamCursor.StreamClient.RecordResumeEventID | pkg/httpclient/streaming.go:390-413 | the new cursor as a function of the old and the decoded ID |
| StreamCursor.StreamClient.ResumeCursorHeader | pkg/httpclient/streaming.go:375-388 | the whole cursor, or none when there is nothing to resume |
| ResumeProtocol.StepKeeps | internal/httpapi/handlers.go:337-430 | every step of publishing, delivery, opening, registering, replaying, live draining, parsing and disconnecting keeps the invariant |
| ResumeProtocol.NoGapResume | internal/httpapi/handlers.go:380-425 | in every run, what a client holds of a topic is one range of offsets from its first to its cursor, and each event is the log's |
| ResumeProtocol.DrainedMeansCaughtUp | internal/httpapi/handlers.go:417-425 | when a live stream has drained, the client holds everything delivered since its first event; with delivery up to date, the rest of the log |
| ResumeProtocol.NothingLost | internal/httpapi/handlers.go:68-92 | a run in which no live event meets a full channel loses none, which is the condition of the two guarantees |
| ResumeProtocol.ParseKeepsNoGapExactly | pkg/httpclient/streaming.go:410-412 | after parsing an event of a known topic what the client holds has no hole exactly when the event is a repeat or the one after the cursor |
| ResumeProtocol.LastEventKeepsNoGapExactly | internal/meshnode/node_publish.go:185-193 | why the order and the completeness of delivery matter: once everything in flight is parsed, the client holds a topic without a hole exactly when the last event was not beyond the next offset |
| ResumeProtocol.OpenKeeps | internal/httpapi/handlers.go:350-386 | opening a stream with a cursor keeps the invariant, and takes a topic that lost an event back in if the client has parsed nothing past the hole |
| ResumeProtocol.DeliverKeeps | internal/meshnode/node_publish.go:185-193 | offering an event to a stream in any phase keeps the invariant |
| ResumeProtocol.WriteReplayKeeps | internal/httpapi/handlers.go:500-509 | writing a replayed event keeps the invariant |
| ResumeProtocol.FinishTopicKeeps | internal/httpapi/handlers.go:510-513 | after the last short batch, replay and live buffer join without a hole |
| ResumeProtocol.ParseKeeps | pkg/httpclient/streaming.go:297-333 | parsing an event and recording its ID keeps the invariant |
| ResumeProtocol.ClientDropKeeps | internal/httpapi/handlers.go:1132-1136 | losing everything in flight keeps the invariant |
| OffsetFlow.SmoothConcat | pkg/httpclient/streaming.go:410-412 | two stretches of offsets join without a hole exactly when the second starts no later than where the first reaches |
| SseReplay.ValidateReplayPlan | internal/httpapi/handlers.go:453-482 | the verdict is the tally of the gaps in the order the cursor is walked; accepted whenever the plan fits: the topics are within the limit, every covered end offset is read, no covered offset is the last one, and the gaps sum to no more than the budget; with room for the sum, only then |
| SseReplay.AcceptedInEveryOrderExactly | internal/httpapi/handlers.go:453-482 | for every budget up to half of int64, without any condition on the gaps: a plan is accepted in every order exactly when it fits |
| SseReplay.TallyFitsExactly | internal/httpapi/handlers.go:458-481 | with room for the sum a tally accepts exactly the plans that fit, in any order |
| SseReplay.CountTopic | internal/httpapi/handlers.go:464-479 | one covered topic adds its gap as int64 adds it, and is refused for a failed read, a last offset or a sum past the budget |
| SseReplay.OrderMattersWithoutRoom | internal/httpapi/handlers.go:476-479 | for every budget and every gap that does not fit beside it: a cursor of two topics that is accepted in one order and refused in the other |
| SseReplay.ReplayTopic | internal/httpapi/handlers.go:490-514 | the batches of a topic end and are what follows the cursor, or a prefix when a write fails |
| SseReplay.TopicRunWrites | internal/httpapi/handlers.go:490-514 | the protocol's replay steps of a topic write what the loop writes: a prefix of what follows the cursor, all of it once the topic is done |
| SseReplay.TopicCanFinish | internal/httpapi/handlers.go:490-514 | from any point within a topic the replay steps can be taken to its end |
| SseReplay.ReplayCursor | internal/httpapi/handlers.go:484-521 | on an unchanged log replay writes, per covered topic, exactly what follows the cursor: as many events as the plan counted; it fails on a failed write or a last offset only |
| SseReplay.WantedFollowsTheCursor | internal/httpapi/handlers.go:490-495 | what a covered topic is owed are the log's events at the offsets after the cursor, and nothing of other topics |
| SseReplay.CoveredIsDelivered | internal/httpapi/handlers.go:523-530 | a topic is replayed exactly when the live stream of the same subscriptions delivers it |
| SseFraming.WriteSSEMessage | internal/httpapi/handlers.go:1100-1114 | the message is appended unless it has no event ID or does not marshal |
| SseFraming.ProcessStream | pkg/httpclient/streaming.go:293-362 | the line loop computes the parse of the text: an ID in the body goes before that of the id line, data that do not decode are skipped and leave the ID pending |
| SseFraming.RoundTripExactly | internal/httpapi/handlers.go:1100-1142 | any mixture of messages and pings that the server writes is read back as those messages exactly when no event ID hides a message behind a line break |
| SseFraming.MessageSurvivesExactly | internal/httpapi/handlers.go:1100-1114 | a message is read back as itself exactly when its event ID hides no message, so always when the ID has no line break, whatever space surrounds it |
| SseFraming.BodyWithoutIdTakesTheLines | pkg/httpclient/streaming.go:329-331 | a body without an ID gets that of its id line, trimmed |
| SseFraming.IdIsUsedOnce | pkg/httpclient/streaming.go:310-333 | the ID of an id line goes to the next message without an ID of its own, past comments, blank lines and data that do not decode, and to none after it |
| SseFraming.CommentRead | internal/httpapi/handlers.go:1138-1144 | a ping is read as nothing and leaves a pending ID alone |
| SseAttachment.RegisterSSEClient | internal/httpapi/handlers.go:551-570 | subscribes the stream once per distinct pattern; after an error half-way what was subscribed stays |
| SseAttachment.UnregisterSSEClient | internal/httpapi/handlers.go:572-585 | takes the stream out of every listed pattern unless the table is closed |
| SseAttachment.AttachedStreamIsOffered | internal/httpapi/handlers.go:551-585 | a stream registered on some patterns is offered one copy of an event per matching pattern, as the resume protocol has it; after its end none |
| SseAttachment.DeliverStepIsDelivery | internal/meshnode/node_publish.go:75-121 | the delivery step of the resume protocol leaves in the handler's channel what local delivery through the routing table leaves there |
| SseAttachment.LateUnregisterTakesFromTheNew | internal/httpapi/handlers.go:384-385 | when a stream under the same client ID registers before the old one is taken out, it is then offered one copy per matching pattern that only the new one has |
| SseAttachment.OvertakenReconnectIsSilent | internal/httpapi/handlers.go:572-585 | so a reconnect with the same patterns that overtakes the old handler's cleanup is offered nothing |
| Interest.SubscribeAgreesExactly | internal/meshnode/node_subscriptions.go:46-60 | after a client subscribes, its routing and records agree exactly when the subscription ID was new or did not overwrite a last record |
| Interest.SubscribeKeepsRouted | internal/meshnode/node_subscriptions.go:46-60 | with a new ID, what is routed stays recorded, and every client's agreement is kept |
| Interest.UnsubscribeKeepsRouted | internal/meshnode/node_subscriptions.go:112-123 | what is routed stays recorded, and every client's agreement is kept |
| Interest.SubscribeChangesOne | internal/meshnode/node_subscriptions.go:46-60 | the very subscriber given is routed under its ID and pattern and recorded under the subscription's ID; all other routing and records stay |
| Interest.UnsubscribeChangesOne | internal/meshnode/node_subscriptions.go:112-123 | what is routed under the ID and pattern and the client's records of the pattern go, and nothing else |
| Interest.PeersAreTold | internal/meshnode/node_subscriptions.go:46-137 | connected peers that take messages get one update when a pattern gets its first subscription or loses its last client, and none otherwise |
| Interest.AttachKeepsRouted | internal/httpapi/handlers.go:551-570 | attaching a stream on recorded patterns keeps routed implies recorded and every agreement; on all of its client's patterns it restores that client's |
| Interest.DetachAgreesExactly | internal/httpapi/handlers.go:572-585 | the end of a stream keeps routed implies recorded; its client's routing and records still agree exactly if it had no record of the patterns taken away |
| Interest.OneRecordExactly | internal/meshnode/node_subscriptions.go:356-390 | unsubscribing the pattern of one record removes just that record exactly when the client has no other record of the pattern |
| Interest.SecondSubscriptionGoesToo | internal/meshnode/node_subscriptions.go:392-410 | two subscriptions to one pattern: removing the first by its ID takes both |
| Interest.InterestAdded | internal/meshnode/node_subscriptions.go:316-334 | a new record adds its pattern to the node's interest and changes nothing else |
| Interest.InterestRemoved | internal/meshnode/node_subscriptions.go:392-410 | removing a client's records of a pattern takes away at most that pattern |
| Interest.FoldedLast | internal/meshnode/node_peer_events.go:168-221 | a message queued last is the last to change the receiver's view |
| Interest.InterestedPeersExactly | internal/meshnode/node_peer_events.go:225-246 | a peer is chosen as often as it is listed if one of its patterns matches, and not otherwise |
| InterestGossip.StepKeepsSound | internal/meshnode/node_subscriptions.go:17-140 | every step of every node, streams attached and ended among them, keeps the tables and that what is routed is recorded |
| InterestGossip.RunKeepsAgreement | internal/httpapi/handlers.go:551-585 | in every run, a client's routing and records that agree go on agreeing until a stream of that client ends |
| InterestGossip.InSyncExactly | internal/meshnode/node_subscriptions.go:46-137 | with a peer in sync, folding the pending messages over its view gives the node's interest after every step; short of faults and restarts, exactly the named disturbances break it |
| InterestGossip.SnapshotHealsExactly | internal/meshnode/node_subscriptions.go:260-285 | after any history, and whatever is queued before it, a snapshot brings a peer in sync exactly when it lists the interest of the moment, the empty one included |
| InterestGossip.GossipConverges | internal/meshnode/node_subscriptions.go:215-285 | from a current snapshot on, in every undisturbed run, an empty queue means that the peer's view is the node's interest |
| InterestGossip.RoutingIsExact | internal/meshnode/node_peer_events.go:225-265 | with the queue drained a peer is chosen for a topic exactly when it has a matching subscription, and so whenever it routes the topic |
| InterestGossip.RoutedExactlyOverRuns | internal/httpapi/handlers.go:551-585 | in every run from fresh nodes, a client is routed on a pattern exactly when it has a record of it and the end of a stream was not the last that happened to the two |
| InterestGossip.RoutedIsTheLastSubscribed | internal/meshnode/node_subscriptions.go:46-123 | in every run, the subscriber routed under a client ID and a pattern is the one last subscribed or attached there, and none once it was unsubscribed or detached |
| InterestGossip.UnroutedExactlyOverRuns | internal/httpapi/handlers.go:572-585 | in every run from fresh nodes, nobody is routed for a topic exactly when every matching subscription lost its stream last |
| InterestGossip.ForwardingIsExact | internal/meshnode/node_publish.go:124-137 | of the connected peers each with a matching subscription is chosen once and no other |
| InterestGossip.ExactFromFreshNodes | internal/meshnode/node_subscriptions.go:215-285 | from fresh nodes, after any run, a current snapshot and an undisturbed run that empties the queue, the peer is chosen exactly when it has a matching subscription, and in vain exactly when all of those lost their streams last |
| InterestGossip.ServedFromFreshNodes | internal/meshnode/node_subscriptions.go:46-123 | in every run from fresh nodes, a client none of whose streams has ended is routed on a pattern exactly when it has a record of it |
| InterestGossip.TickIsRun | internal/meshnode/node_subscriptions.go:224-256 | the steps of a tick of one node's loop are a run of the network that changes that node alone |
| GossipGaps.UninformedIsNeverChosen | internal/meshnode/node_subscriptions.go:233-255 | a peer that knows of no interest in a topic and counts as seen is never chosen, over every run without a tick that misses it, a restart, a fault or a first subscription whose update it takes |
| GossipGaps.ReconnectInSyncExactly | internal/meshnode/node_subscriptions.go:233-255 | a pair in sync whose connection drops and returns is in sync again exactly when the node's interest is what it was at the loss |
| GossipGaps.RelinkAfterDisconnectExactly | internal/peerlink/grpc.go:928-966 | a pair that was disconnected, and whose queue went with it, is in sync again exactly when the node's interest is what the peer knew of it at the loss |
| GossipGaps.StaleSnapshotLosesInterest | internal/meshnode/node_subscriptions.go:260-285 | a run: a snapshot taken too early undoes a subscription at the peer; in every continuation without an informing step the node is not chosen |
| GossipGaps.QuickReconnectLosesInterest | internal/meshnode/node_subscriptions.go:233-255 | a run: a peer back before the next tick misses a subscription; in every continuation without an informing step the node is not chosen |
| GossipGaps.EndedStreamIsStillChosen | internal/httpapi/handlers.go:572-585 | a run: the only subscriber's stream has ended, and its node is still chosen |
| MeshDelivery.PersistBeforeDeliver | internal/meshnode/node_publish.go:185-201 | in every run, each event in a client's channel or a peer's queue is the local log's entry at its topic and offset, what is queued was published here, and an entry from a peer repeats one published there |
| MeshDelivery.OneHop | internal/meshnode/node_peer_events.go:91-153 | in every run, an entry that came from a peer is in no peer's queue |
| MeshDelivery.WhoIsOffered | internal/meshnode/node_publish.go:75-121 | local delivery puts one copy per matching pattern into the channels of the local subscribers routed, as far as a hundred places reach, and touches no other channel |
| MeshDelivery.RoutedIsOffered | internal/meshnode/node_publish.go:75-121 | a local subscriber routed on a matching pattern, with room in its channel, has the event in it |
| MeshDelivery.ArrivalIsOffered | internal/meshnode/node_peer_events.go:91-153 | an event that arrives from a peer is put into the channels of the receiver's own matching subscribers, with the content it was sent with |
| MeshDelivery.ForwardedExactly | internal/meshnode/node_publish.go:124-158 | a peer in sync is sent a published event exactly when it has a matching subscription, and so whenever it routes the topic |
| MeshDelivery.ForwardedInVainExactly | internal/meshnode/node_publish.go:124-158 | in every run from fresh nodes, a peer in sync is sent an event in vain exactly when it has matching subscriptions and all of them lost their streams last |
| MeshDelivery.SentArrivesInOrder | internal/meshnode/node_peer_events.go:91-153 | in every run in which a peer's queue meets no fault, crash or disconnection, the entries the peer has from the node, followed by what waits for it, are per topic exactly what the node sent it, in order and once each |
| MeshNode.MeshNode.Start | internal/meshnode/node_lifecycle.go:14-63 | the errors, idempotence, and a resync loop that has seen no peer |
| MeshNode.MeshNode.PeerConnected | internal/peerlink/grpc.go:1175-1191 | the linking step of the gossip model, with the data queue |
| MeshNode.MeshNode.StreamEnded | internal/peerlink/grpc.go:237-246 | the unlinking step: the queues stay |
| MeshNode.MeshNode.PeerDisconnected | internal/peerlink/grpc.go:928-966 | the disconnecting step: the queues go |
| MeshNode.MeshNode.LocalTopicInterestCount | internal/meshnode/node_subscriptions.go:287-300 | the nested loops count the records of a pattern |
| MeshNode.CountIsInterest | internal/meshnode/node_subscriptions.go:46-46 | the count is positive exactly when the pattern is in the node's interest |
| MeshNode.EachRecordCounts | internal/meshnode/node_subscriptions.go:287-300 | a new record adds one to the count of its pattern and to no other |
| MeshNode.MeshNode.LocalInterestSnapshot | internal/meshnode/node_subscriptions.go:272-285 | lists exactly the node's interest, each pattern once, in byte order |
| MeshNode.MeshNode.RemoveSubscriptionMetadataByTopic | internal/meshnode/node_subscriptions.go:392-410 | removes the client's records of the pattern and an emptied client |
| MeshNode.MeshNode.PropagateInterestUpdate | internal/meshnode/node_subscriptions.go:144-213 | queues the update for every connected peer that takes it; an error exactly when there are peers and all refuse |
| MeshNode.MeshNode.ResyncTick | internal/meshnode/node_subscriptions.go:224-256 | a snapshot of the interest for exactly the connected peers not seen before; who is remembered afterwards; the whole is a run of the gossip model's steps |
| MeshNode.MeshNode.Subscribe | internal/meshnode/node_subscriptions.go:17-85 | each error and exactly when it is given, with nothing changed; otherwise the subscriber given is routed, its record kept, and nothing else of either changed, and the peers told |
| MeshNode.MeshNode.Unsubscribe | internal/meshnode/node_subscriptions.go:89-140 | each error and exactly when it is given, with nothing changed; otherwise the client's routing and records of the pattern go and nothing else of either, and the peers are told |
| MeshNode.MeshNode.UnsubscribeByID | internal/meshnode/node_subscriptions.go:356-390 | the two not-found errors, or the effect of unsubscribing from the record's pattern |
| MeshNode.MeshNode.ProcessIncomingInterestMessage | internal/meshnode/node_peer_events.go:155-221 | the patterns the peer is known to want: one more, one less, as before for an unknown action, or the non-empty ones of a snapshot; other peers' as they were |
| MeshNode.MeshNode.GetInterestedPeers | internal/meshnode/node_peer_events.go:225-246 | the listed peers with a matching pattern, in order |
| MeshNode.MeshNode.DeliverEvent | internal/httpapi/handlers.go:68-92 | the event is in the channel unless it was full |
| MeshNode.MeshNode.DeliverToLocalSubscribers | internal/meshnode/node_publish.go:75-121 | those reached before the context is done are offered the event, with exact counts of taken and refused; if it is not done, each subscriber gets one copy per routing pattern, and there is no failure exactly when all had room |
| MeshNode.CountsAreGrowth | internal/meshnode/node_publish.go:75-121 | the counts are right: the channels of all reached have together grown by the offers made less those refused |
| MeshNode.LocalPlaces | internal/meshnode/node_publish.go:88-118 | offers are made to the local subscribers in the list, once for each place, and to no other |
| MeshNode.MeshNode.ForwardToPeers | internal/meshnode/node_publish.go:124-159 | the event is queued for those of the interested peers reached before the context is done that take it, with exact counts; if it is not done, for every one and no other |
| MeshNode.MeshNode.PublishEventWithResult | internal/meshnode/node_publish.go:176-230 | the log grows by exactly the given event when node and log are open and started, client and event present, the client authenticated, the topic non-empty, the payload at most 1048576 bytes and the context not done, and stays as it was otherwise, with each refusal named; offered and queued, with success exactly when every channel had room and every chosen peer took it; offered and queued in part when the context is done half-way |
| MeshNode.SubscribeThenPublish | internal/meshnode/node_publish.go:176-230 | end to end: when a local client subscribes and an event its pattern matches is published with success, the event is in that client's own channel |
| MeshNode.MeshNode.ProcessIncomingUserEvent | internal/meshnode/node_peer_events.go:91-153 | stored, in the channel of every local subscriber routed on a matching pattern with room, and in no peer queue |
| OutboundQueues.RunConserves | internal/peerlink/grpc_metrics.go:33-74 | in every run, per plane, accepted messages are the sent, queued, in-flight and dropped ones; the counters add up; no message is offered more than the allowed attempts plus one |
| OutboundQueues.StepKeepsAccounted | internal/peerlink/grpc.go:849-1038 | every step keeps each accepted message in exactly one place, and the order while nothing failed |
| OutboundQueues.StepKeepsBounded | internal/peerlink/grpc.go:720-744 | every step keeps the queues within their size and a held message's attempts equal to its offers |
| OutboundQueues.ControlMessagesGoFirst | internal/peerlink/grpc.go:849-869 | when a data message can be taken, every queued control message was accepted after that selection began; the next selection takes a control message first |
| OutboundQueues.EventsWaitForControl | internal/peerlink/grpc.go:849-869 | in every run, when an event is taken to be sent, no interest message or heartbeat was queued when that selection began |
| OutboundQueues.AcceptPlaces | internal/peerlink/grpc.go:969-1142 | kind by kind: an accepted event lengthens the data queue and its counter by one, an interest message or heartbeat the control queue and its counter; refusals count a drop of that plane |
| OutboundQueues.FailedIsRetriedExactly | internal/peerlink/grpc.go:720-744 | in every run, a message whose send fails is dropped exactly when it has been offered once more than allowed or its queue is full, and is last in its own queue otherwise |
| OutboundQueues.PlaneIsFifo | internal/peerlink/grpc.go:849-904 | while no send of a plane fails, sent, in flight and queued together are the accepted messages in order |
| OutboundQueues.DrainTerminates | internal/peerlink/grpc.go:720-744 | with every send failing the loop takes at most a bounded number of steps, and stops only with both queues empty |
| PeerLink.GRPCPeerLink.RegisterPeer | internal/peerlink/grpc.go:1175-1191 | a new peer gets empty queues and counters, a known one keeps its own |
| PeerLink.GRPCPeerLink.RecordPlaneDrop | internal/peerlink/grpc_metrics.go:47-60 | one more drop in total and on its plane |
| PeerLink.GRPCPeerLink.Send | internal/peerlink/grpc.go:969-1142 | closed and unknown peers refused; otherwise accepted exactly when the queue of its kind has room and the wait has not expired: an event into the data queue, anything else into the control queue, each with its counter; a refusal counts one drop; no other peer touched |
| PeerLink.GRPCPeerLink.FirstSelect | internal/peerlink/grpc.go:853-857 | takes the oldest control message if there is one |
| PeerLink.GRPCPeerLink.SecondSelect | internal/peerlink/grpc.go:859-868 | takes the head of a queue that has one, or reports the end of the stream |
| PeerLink.GRPCPeerLink.HandleSendFailure | internal/peerlink/grpc.go:720-744 | counts the failure, then requeues the message or drops and counts it |
| PeerLink.GRPCPeerLink.RunBidirectionalStreamLoop | internal/peerlink/grpc.go:873-904 | turn after turn, each as the selects and the send decide it, up to the first failed send or the end of the stream; the whole is a run of queue steps that keeps the invariant |
| PeerLink.LoopSendsAll | internal/peerlink/grpc.go:873-904 | with as many undisturbed turns as messages the loop sends everything queued, each queue in its order |
| PeerLink.LoopStopsAtFailure | internal/peerlink/grpc.go:878-903 | nothing follows a failed send or the end of the stream |
| PeerLink.TurnOffers | internal/peerlink/grpc.go:849-869 | a turn offers the oldest control message if there is one, failing that the oldest event unless the stream has ended, and otherwise nothing |
| PeerLink.GRPCPeerLink.TakeTurn | internal/peerlink/grpc.go:878-903 | one turn: the first select, the second if it came up empty, and the send; the oldest control message is offered if there is one, else the oldest event unless the stream has ended |

## Left out

- PebbleEventLog.PebbleEventLog.AppendEvent: requires topic names shorter than 2^32 bytes, as do reading and replay, because longer ones can share a scan window (`TopicWindowExact` says exactly when); errors of the store on commit, get and iteration are not modelled.
- PebbleEventLog.PebbleEventLog.ReadEvents: does not model that a large limit makes Go reserve memory for as many events beforehand.
- ResumeProtocol.NoGapResume: excludes topics of which a live event met a full channel (`NothingLost` gives the condition), until a stream opens while the client has parsed nothing past the hole; assumes that a topic's events reach its subscribers in offset order, that no second stream registers under the same client ID before the first is taken out (an ordinary reconnect does so when the server has not yet noticed the loss; `OvertakenReconnectIsSilent` says what the new stream is then offered), that the subscriptions do not change and that the node stays the same. Concurrent publishers can break the order, because publishing holds only a read lock; `LastEventKeepsNoGapExactly` says what happens then.
- ResumeProtocol.StepKeeps: covers what the client has parsed; that a full client channel then drops an event after its cursor was recorded is not part of the guarantee.
- ResumeProtocol.DrainedMeansCaughtUp: has the same assumptions; after a reconnect that overtakes the old handler's cleanup a drained stream is not caught up, since nothing live is offered to it.
- SseReplay.ValidateReplayPlan: for a plan that does not fit, without room for the sum of its covered gaps, the verdict in one given order is the tally; what holds in every order is said exactly by `AcceptedInEveryOrderExactly` for budgets up to half of int64.
- SseFraming.ProcessStream: takes every line to be within the scanner's limit; the codec of the body is a parameter that decodes what it encodes on one line; the client's own topic filter, its cancellation and its event channel are left out.
- InterestGossip.GossipConverges: assumes fresh subscription IDs, one physical stream per pair of peers, and snapshots taken together with their queueing; the two runs named above show what happens otherwise.
- MeshDelivery.SentArrivesInOrder: a crash keeps the log, as the durable log does; the in-memory log that `MeshNode` holds would be gone. The two sides of a link are named by node, with one queue from each to each.
- MeshNode.MeshNode.PropagateInterestUpdate: does not model the error when the connected peers cannot be listed, which is when the peer link is closed; nothing is queued then.
- MeshNode.MeshNode.ForwardToPeers: does not model that error either; nothing is queued then, and the publish goes by the local deliveries alone.
- MeshNode.MeshNode.PublishEventWithResult: does not model subscribers without an error-returning delivery method.
- MeshNode.MeshNode.Start: does not model discovery and heartbeats beyond that starting them may fail.
- MeshNode.MeshNode.ResyncTick: is one atomic step; the program takes no lock between taking and queueing a snapshot, which the steps of `InterestGossip` allow for.
- PeerLink.GRPCPeerLink.Send: takes as an argument whether the wait for room expires; queueing and counting are one step.
- OutboundQueues.RunConserves: holds on the client's stream path; the server's stream path loses a message on a failed send without counting it, and disconnecting closes queues with messages inside.
- OutboundQueues.DrainTerminates: excludes turns that end because the stream does, of which there is no bound.
- Peer health, heartbeats' effect on it, reconnect backoff and discovery.
- Authentication, the HTTP and gRPC layers, the command line, configuration, logging and the admin and statistics endpoints.
- Compaction, Pebble's own storage and recovery, and the stored-event encoding beyond being one that decodes what it encodes.
- The three other copies of the wildcard matcher, which repeat the one modelled.
