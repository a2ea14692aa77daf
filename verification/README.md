# QClient in Dafny

QClient is a C++ client for Redis-compatible servers such as QuarkDB. This project models its core and
proves properties of it that hold over every input, every run and every cut of the byte stream.

The requirements come from the program itself and from the Redis serialization protocol specification (RESP),
sections "Simple strings", "Simple errors", "Integers", "Bulk strings", "Arrays" and "Pushes". Where the
program's code and its own comments disagree, the model follows the code.

## How the project is built

Each part has a value model (datatypes, functions, and a machine whose steps are what one thread does under one
lock) and, where the program updates fields, buffers or lists in place, classes with the same fields whose
methods are proved against the value model. The theorems are about the value model, so they carry over to the
objects.

| file | what it models |
|---|---|
| `Common.dfy` | options, bytes, 64-bit bounds |
| `Decimal.dfy` | decimal text of 64-bit integers in both directions |
| `Resp.dfy`, `RespRoundTrip.dfy`, `RespErrors.dfy`, `RespReader.dfy` | the resumable reply parser: machine, printing and reading, which bytes are refused, and the reader object with its nine task slots and its tree filled in place |
| `Printers.dfy` | encoded requests, fused MULTI blocks, and the formatter |
| `BlockQueue.dfy`, `Queues.dfy` | the block-list queue with long-lived iterators, the waitable queue, the request queue with its hidden item |
| `Handshakes.dfy`, `HandshakeProtocol.dfy` | leaf handshakes and chainers, and the exchanges that complete them |
| `ConnectionModel.dfy`, `ConnectionObjects.dfy` | the connection core, the future handler and the callback executor |
| `Pipeline.dfy`, `PipelineTheorems.dfy` | whole runs: stagers, writer, wire, server, reconnections, purges and executor in any interleaving |
| `PipelineRuns.dfy` | runs that show where the pipeline's guarantees end |
| `Writer.dfy` | the writer thread's loop with partial writes, and the executor's shutdown |
| `Client.dfy`, `ClientRuns.dfy`, `ClientLife.dfy` | the client: execute, feed and cleanup; why reading bytes is delivering replies; and what its retry mode promises over its whole life |
| `BlockReplies.dfy` | which replies a connection survives, and what a MULTI block has to hear |
| `LastN.dfy`, `Listener.dfy` | the windows over the last N inserts, and the listener that de-duplicates with them |
| `Binary.dfy`, `Framing.dfy` | big-endian cursors and the payloads of the shared data structures |
| `Retries.dfy`, `Communicator.dfy` | the vault of pending requests and its retry schedule |
| `SharedHash.dfy` | the replica fed by revisions and snapshots |
| `Durable.dfy`, `Flusher.dfy`, `FlusherSystem.dfy` | the persistent queue over a key-value store, with crashes and restarts, and the flusher in one run with its client |
| `Endpoints.dfy` | endpoint selection and the full circle |
| `Quoting.dfy` | quoting and splitting of command lines |

`dafny verify dfyconfig.toml` checks the whole project.

## What the runs range over

* **Pipeline.** The steps are: stage for a callback or a future, the writer takes a request, `send` accepts some
  bytes, the writer records that, the server answers what it owes, the server pushes, the reader loop consumes a
  reply, a reconnection, a purge, and the executor serves one reply. A step between the acceptance of bytes and
  their recording is where a reply may overtake the writer. The server reads the requests out of the bytes it
  has, and answers each of them, in order, as soon as it has read it: also the first requests of a block
  while the writer still holds the rest. The requests staged are well counted: a server reads one more
  request out of the bytes than the multi-size says, which holds for every encoded request and for every fused
  block of such requests (`Pipeline.RequestIsWellCounted`, `Pipeline.BlockIsWellCounted`). The server may send
  pushes at any time; only a push that meets a handshake leaf which ignores failures is not delivered in these
  runs. `PipelineTheorems.AnyRun` has that step too, and `PipelineTheorems.HandshakePushIsSafeIffNotLenient` says
  why it is the only one left out.
* **Reader.** Every byte string, cut into any list of feeds.
* **Communicator.** Any interleaving of issues, passes and received replies under a clock that does not go back;
  identifiers are never generated twice. The listener sees any sequence of payloads, duplicated and reordered.
* **Shared hash.** The server's log grows; each message is about some revision published so far, or is not
  understood; each snapshot is the replay of some prefix of the log.
* **Flusher.** A crash may come between any two steps, also between recording and executing an operation. In the
  runs of `FlusherSystem` the process has its own pipeline, which begins anew with each restart, does all a
  pipeline does but purge, and hands its replies to the process.
* **Client.** Any requests, replies, connections and clean-ups in any order, at any times.
* **Endpoints.** Any calls and redirections, and any answers of the resolver.

## Properties that are false as one would first put them

* A reply can destroy the item that the writer has in hand: exactly when it acknowledges a request that was not
  handed to the writer (`PipelineTheorems.HeldIsDestroyedIff`, `PipelineRuns.EarlyRepliesDestroyItem`). With a
  server that answers only what it received this never happens (`PipelineTheorems.DeliveriesAreHanded`,
  `PipelineTheorems.SlotSafety`).
* A push during the handshake is refused, and ends the connection, if and only if the handshake leaf being run
  does not ignore failures (`Handshakes.PushIsRefused`); exactly then the guarantees survive it
  (`PipelineTheorems.HandshakePushIsSafeIffNotLenient`). Otherwise it is taken for the handshake's reply, and
  replies shift by one (`PipelineRuns.EarlyPushShiftsReplies`).
* The backpressure limit bounds pending requests if and only if no more futures were staged than slots are free
  (`PipelineTheorems.PendingIsLimited`), since futures take no slot but return one; for every limit there is a
  run with one request more pending (`PipelineRuns.FutureLetsOneMoreWait`).
* A block gets as many replies as it says if and only if its n pieces hold n requests in all
  (`Pipeline.BlockIsWellCounted`).
* The round trip of reply trees needs at most eight nested aggregates (`RespRoundTrip.RoundTrip`); the message in
  src/reader/reader.cc:428 speaks of seven.
* `feedRevision` refuses exactly the gaps if and only if the version is not 2^64 - 2
  (`SharedHash.RefusesExactlyGaps`), and the replica's version goes back exactly on an understood snapshot
  of an earlier revision (`SharedHash.LowersIffOldSnapshot`, `SharedHash.VersionMayGoBack`).
* Once the circle is closed it stays closed, although later addresses may still be waiting; everything returned
  has been handed out if and only if the stock is empty (`Endpoints.AllHandedIffStockEmpty`,
  `Endpoints.StockAfterCircle`).
* `expire` does not remove every request past its deadline (`Retries.OldRequestsMayStay`): one is removed if and
  only if everything in front of it in the retry order is past the deadline too (`Retries.GivenUpIff`).
* A full circle asks about every member in all runs if and only if the first operation is a call
  (`Endpoints.FullCircleAsksEveryone`, `Endpoints.CircleIsFullIffCallFirst`). A client is always in that case: it
  registers a redirection only out of a reply (src/QClient.cc:188-196), on a connection to an endpoint it called for
  (src/QClient.cc:296). A redirection before the first call may close the circle at once, a call later, or with a
  failure (`Endpoints.EarlyRedirectionCloses`, `Endpoints.EarlyRedirectionClosesLater`,
  `Endpoints.FullCircleSkipsMember`).
* A pop removes the record of the operation that was answered if and only if no older operation waits
  (`Durable.PopMatchesReply`); with a client that never purges it is always so
  (`FlusherSystem.ReplyAndRecordMatch`).
* `clearAllPending` measures the queue after draining it and so returns 0.

## Model

| member | source | states |
|---|---|---|
| Decimal.Int64OfIffText | src/reader/reader.cc:210-271 | an integer line is accepted with value n if and only if it is the canonical decimal text of n and n fits 64 bits: no sign `+`, no leading zero, no `-0`, no overflow |
| Decimal.String2ll | src/reader/reader.cc:210-271 | the accumulating loop with its three overflow guards computes exactly that, and its unsigned accumulator never wraps |
| Decimal.Sdsll2str | src/reader/sds.cc:435-464 | for every value above LLONG_MIN the buffer ends up holding the canonical text, NUL-terminated, and nothing behind it is touched |
| Decimal.WriteBackwards | src/reader/sds.cc:441-451 | the digits are written least significant first, at most 19 of them |
| Decimal.ReverseInPlace | src/reader/sds.cc:454-462 | the swapping loop reverses the given part of the buffer and leaves the rest alone |
| Resp.RunSplits | src/reader/reader.cc:494-545 | reading a stream and then some more bytes emits the replies of the joined stream and stops in the same state |
| Resp.ChunkingIsIrrelevant | src/reader/reader.cc:575-658 | for every stream and every way of cutting it into feeds the same replies come out in the same order and the reader stops in the same state, error included |
| Resp.TwoChunkingsAgree | src/QClient.cc:167-211 | two ways of cutting one stream cannot be told apart |
| Resp.RunIsRepeatedPull | src/QClient.cc:171-184 | taking replies one at a time until none is left is the run of the whole stream |
| Resp.RunIsExhaustive | src/reader/reader.cc:607-658 | after all replies are taken nothing more comes without new bytes |
| Resp.ProcessItem | src/reader/reader.cc:494-545 | an item that succeeds consumes bytes, keeps at most eight aggregates open and each of them unfinished |
| Resp.NewlineAt | src/reader/reader.cc:172-208 | the position found is the first line break and there is none before it; otherwise there is none at all |
| RespRoundTrip.RoundTrip | src/reader/reader.cc:288-492 | a printed reply tree followed by any bytes is read back as exactly that tree, leaving exactly those bytes, if and only if at most eight aggregates are nested; deeper ones always fail as too deep |
| RespRoundTrip.PrintedStreamParses | src/reader/reader.cc:607-658 | a stream of printed replies, cut up in any way, is read back as exactly those replies |
| RespRoundTrip.RunEmitsPrintable | src/reader/reader.cc:660-747 | every reply a reader emits is complete, has no unfilled child, and is no deeper than eight |
| RespRoundTrip.EmittedRepliesReprint | src/reader/reader.cc:607-658 | whatever bytes came in, printing the emitted replies and reading them again gives the same replies |
| RespRoundTrip.NilArrayParses | src/reader/reader.cc:447-458 | a length of -1 is another spelling of nil for aggregates of both kinds |
| RespRoundTrip.AggregateHeaderParses | src/reader/reader.cc:418-492 | an aggregate header opens a frame of that many children, or completes at once when it is empty |
| RespRoundTrip.DeepTreeFails | src/reader/reader.cc:426-431 | a ninth level is refused wherever it stands in the tree |
| RespErrors.ItemFailsIff | src/reader/reader.cc:302-545 | an item is refused exactly when its type byte is unknown, its number is not the canonical text of a 64-bit integer, its length is below -1 or above what fits, it would be a ninth level, or it is an aggregate inside a push; these are written over the bytes of the line |
| RespErrors.MalformedEndsStream | src/reader/reader.cc:607-658 | whole replies followed by such an item give exactly those replies and then a protocol error, however the stream is cut and whatever comes behind |
| RespReader.PutPlug | src/reader/reader.cc:660-747 | storing a node behind the element pointers of the path fills exactly the hole that the open frames leave |
| RespReader.ChildFinished | src/reader/reader.cc:288-311 | one round of the climb: the last frame receives its child, and closes if that was the last one missing |
| RespReader.SeekNewline | src/reader/reader.cc:172-208 | the scanning loops find the first line break |
| RespReader.TrimKeepsUnread | src/reader/sds.cc:726-752 | cutting the buffer at the cursor with sdsrange leaves exactly the unread bytes |
| RespReader.RedisReader.MoveToNextTask | src/reader/reader.cc:288-311 | the in-place loop over the nine task slots leaves the tree and the stack that closing a child calls for |
| RespReader.RedisReader.ProcessLineItem | src/reader/reader.cc:313-352 | one line item, its error included, as the machine predicts it |
| RespReader.RedisReader.ProcessBulkItem | src/reader/reader.cc:354-416 | one bulk string: length checks, waiting for all its bytes, and the two bytes behind it skipped unseen |
| RespReader.RedisReader.ProcessMultiBulkItem | src/reader/reader.cc:418-492 | one aggregate header: depth, length and push checks in this order, elements allocated unfilled |
| RespReader.RedisReader.ProcessItem | src/reader/reader.cc:494-545 | one item, with the type byte kept across feeds when bytes run out |
| RespReader.RedisReader.PullItems | src/reader/reader.cc:632-636 | the item loop ends, in the state that one pull of the machine gives |
| RespReader.RedisReader.GetReply | src/reader/reader.cc:607-658 | one reply, no reply or the sticky error, exactly as one pull predicts; trimming and the reset between replies do not show |
| RespReader.RedisReader.Feed | src/reader/reader.cc:575-605 | bytes are appended to the unread ones, and ignored by a broken reader |
| RespReader.StuckAtDepth8 | src/reader/reader.cc:418-431 | with eight aggregates open the reader never waits for another header, so the ninth slot is never exceeded |
| RespReader.FeedAndPull | src/QClient.cc:167-211 | the pull loop behind one feed returns all replies complete so far |
| Printers.InitFromChunks | src/EncodedRequest.cc:32-82 | the buffer, whose length is computed beforehand, is filled to its last byte with the request's encoding |
| Printers.FuseIntoBlock | src/EncodedRequest.cc:88-104 | the fused buffer is the concatenation of the requests |
| Printers.FuseIntoBlockAndSurround | src/EncodedRequest.cc:106-111 | MULTI in front, EXEC behind |
| Printers.MultiBlockIsReadBack | src/EncodedRequest.cc:88-111 | a fused block of n encoded requests is read back as exactly n + 2 requests, in order |
| Printers.EncodedIsPrinted | src/EncodedRequest.cc:32-82 | an encoded request is the printed array of its chunks |
| Printers.SerializeInternal | src/Formatting.cc:120-126 | strings, integers, vectors and maps are appended as the reply tree they stand for |
| Printers.SerializeVector | include/qclient/Formatting.hh:79-85 | a vector is an array of its elements in order |
| Printers.SerializeMap | include/qclient/Formatting.hh:90-97 | a map is an array of keys and values in turn, in iteration order |
| Printers.Serialize | include/qclient/Formatting.hh:47-52 | what is serialized is read back as the tree it stands for, when that is well formed and no deeper than eight |
| BlockQueue.ThreadSafeQueue.constructor | include/qclient/queueing/ThreadSafeQueue.hh:66-68 | an empty queue of any block size of at least one |
| BlockQueue.ThreadSafeQueue.Reset | include/qclient/queueing/ThreadSafeQueue.hh:77-96 | pops everything and starts again from sequence number 0 with a fresh root |
| BlockQueue.ThreadSafeQueue.EmplaceBack | include/qclient/queueing/ThreadSafeQueue.hh:102-114 | the item gets the next sequence number; every iterator keeps its place, also across block boundaries |
| BlockQueue.ThreadSafeQueue.AllocateBlock | include/qclient/queueing/ThreadSafeQueue.hh:216-220 | a fresh, empty last block; root is never null |
| BlockQueue.ThreadSafeQueue.PopFront | include/qclient/queueing/ThreadSafeQueue.hh:127-142 | destroys the front item only; every iterator behind it keeps its place |
| BlockQueue.ThreadSafeQueue.RemoveRoot | include/qclient/queueing/ThreadSafeQueue.hh:207-211 | an exhausted root gives way to its child, which exists |
| BlockQueue.ThreadSafeQueue.Front | include/qclient/queueing/ThreadSafeQueue.hh:119-122 | the oldest item not popped |
| BlockQueue.ThreadSafeQueue.Begin | include/qclient/queueing/ThreadSafeQueue.hh:178-186 | an iterator at the front sequence number |
| BlockQueue.ThreadSafeQueue.Item | include/qclient/queueing/ThreadSafeQueue.hh:151-161 | an iterator at s reads the s-th pushed item, whatever was pushed since and popped below s |
| BlockQueue.ThreadSafeQueue.Next | include/qclient/queueing/ThreadSafeQueue.hh:163-170 | the iterator moves to the next sequence number, over a block boundary if need be |
| Queues.WaitableQueue.EmplaceBack | include/qclient/queueing/WaitableQueue.hh:62-67 | the highest sequence number follows the queue |
| Queues.WaitableQueue.Reset | include/qclient/queueing/WaitableQueue.hh:54-57 | nothing has arrived after a reset |
| ConnectionObjects.ConnectionCore.FinishHandshake | src/ConnectionCore.cc:211-216 | the handshake is over, and a writer that waits for its requests is let go |
| Queues.WaitableQueue.ItemHasArrived | include/qclient/queueing/WaitableQueue.hh:145-147 | true exactly for the positions that were pushed |
| Queues.WaitableQueue.GetItemBlockOrNull | include/qclient/queueing/WaitableQueue.hh:169-190 | the item at the iterator, or null where blocking is off and none has arrived |
| Queues.RequestQueue.constructor | src/RequestQueue.hh:74-76 | one dummy is in the queue from the beginning, as the hidden item |
| Queues.RequestQueue.Reset | src/RequestQueue.hh:81-84 | after a reset only the dummy is there again |
| Queues.RequestQueue.PopFront | src/RequestQueue.hh:97-99 | destroys the hidden item, and the item just answered becomes the hidden one; iterators at or behind it stay usable |
| Queues.RequestQueue.Begin | src/RequestQueue.hh:104-108 | the item behind the hidden one |
| Queues.RequestQueue.Size | src/RequestQueue.hh:127-129 | the hidden item is not counted |
| Handshakes.TreeIsItsLine | src/Handshake.cc:202-252 | any tree of chainers gives the same requests and verdicts, under any sequence of calls and restarts, as its leaves run from left to right |
| Handshakes.ChainingIsAssociative | src/Options.cc:55-67 | chaining fresh handshakes one by one, or some of them beforehand, gives the same traces, and a missing one changes nothing |
| Handshakes.PushIsRefused | src/Handshake.cc:54-375 | a push reply is INVALID to a handshake if and only if the leaf being run is not a client name whose failures are ignored |
| Handshakes.ErrorIsRefused | src/Handshake.cc:54-375 | an error reply is INVALID, to a single handshake and to a chain, if and only if the leaf being run is not a client name whose failures are ignored |
| Handshakes.CompleteIsLastLeaf | src/Handshake.cc:224-239 | VALID_COMPLETE comes only from the last leaf |
| Handshakes.RestartIsClone | src/Handshake.cc:185-252 | a handshake restarted from any state is a fresh clone |
| HandshakeProtocol.CompletesIffProtocol | src/Handshake.cc:40-375 | a handshake run from fresh completes if and only if its requests and their replies are the exchanges the protocol names, written down request by request and reply by reply: AUTH and OK, the HMAC challenge that begins with the random bytes and then the signature of that challenge and OK, PING and its text, ACTIVATE-PUSH-TYPES and OK, CLIENT SETNAME; it waits for more if and only if they are the beginning of these |
| HandshakeProtocol.ConnectionFollowsProtocol | src/ConnectionCore.cc:67-101 | after a reconnection and any replies the connection is out of its handshake if and only if what was asked and answered on it is the whole protocol; before that it survives exactly on the protocol's beginning, acknowledges nothing, and has queued exactly the protocol's requests |
| HandshakeProtocol.ChainedProtocol | src/Options.cc:55-67 | the protocol of a chain is that of what was chained first followed by that of what was chained behind it, and chaining nothing changes nothing |
| Handshakes.ProvideFollowsLine | src/Handshake.cc:213-222 | the request of a chain is that of the leaf being run |
| Handshakes.ValidateFollowsLine | src/Handshake.cc:224-239 | a leaf that completes hands over to the next one |
| Handshakes.HandshakeObject.ProvideHandshake | src/Handshake.cc:213-222 | a chain forwards to the part being run, and the chain as a whole changes as the value model says |
| Handshakes.HandshakeObject.ProvideAsLeaf | src/Handshake.cc:132-143 | the first request of an HMAC authentication sets the flag and the random bytes, the second signs what was stored; other leaves change nothing |
| Handshakes.HandshakeObject.ValidateResponse | src/Handshake.cc:224-239 | a chain forwards to the part being run, and a first part that completes hands over to the second; an error is INVALID unless the leaf being run ignores failures |
| Handshakes.HandshakeObject.ValidateAsLeaf | src/Handshake.cc:54-375 | exactly which reply each kind of leaf takes, written out; the challenge is stored before it is judged, and the other leaves judge without a change |
| Handshakes.HandshakeObject.RestartInPlace | src/Handshake.cc:185-245 | flags and strings of an HMAC authentication are cleared; both parts of a chain restart and the first one runs again |
| ConnectionModel.ReconnectionForgets | src/ConnectionCore.cc:67-101 | what the lost connection had come to does not show after it: the writer and the acknowledger stand right behind the hidden item, no part of a block counts, and the handshake, if there is one, is queued anew |
| ConnectionModel.AcknowledgeAllGrows | src/ConnectionCore.cc:112-115 | draining gives each pending request one null reply in order, and returns one slot for each |
| ConnectionModel.DiscardWrittenCatchesUp | src/ConnectionCore.cc:331-340 | in exclusive pub-sub mode everything written is dropped and the acknowledger catches up with the writer |
| ConnectionModel.ExclusiveDropsWritten | src/ConnectionCore.cc:328-345 | after the handshake the next request handed out is the one at the write position; in exclusive mode all requests written before it are dropped without a reply and give back one slot each, in any other mode nothing is dropped |
| ConnectionModel.NextToWriteIsOk | src/ConnectionCore.cc:320-345 | handing out the next request keeps the state consistent |
| ConnectionObjects.FutureHandler.Stage | src/FutureHandler.cc:53-59 | a new promise behind all others |
| ConnectionObjects.FutureHandler.HandleResponse | src/FutureHandler.cc:61-64 | the reply fulfils the oldest promise |
| ConnectionObjects.CallbackExecutor.Stage | src/CallbackExecutorThread.cc:60-62 | the reply is queued with its callback |
| ConnectionObjects.CallbackExecutor.ServiceOne | src/CallbackExecutorThread.cc:49-56 | the oldest staged reply goes to its own callback, or to the oldest promise, and is popped |
| ConnectionObjects.ConnectionCore.Create | src/ConnectionCore.cc:34-39 | a new core is empty, and has already been through its first reconnection: its handshake, if it has one, is restarted and its first request queued |
| ConnectionObjects.ConnectionCore.Reconnect | src/ConnectionCore.cc:67-101 | handshake restarted and re-queued, iterators rewound, block count forgotten |
| ConnectionObjects.ConnectionCore.ClearAllPending | src/ConnectionCore.cc:103-122 | every pending request gets a null reply, the queue starts over and the connection is set up anew; the size returned is always 0 |
| ConnectionObjects.ConnectionCore.StageCallback | src/ConnectionCore.cc:124-129 | one slot is taken and the request goes to the end |
| ConnectionObjects.ConnectionCore.StageFuture | src/ConnectionCore.cc:131-137 | a new promise and a request behind all others; no slot is taken |
| ConnectionObjects.ConnectionCore.AcknowledgePending | src/ConnectionCore.cc:151-154 | the oldest pending request's callback gets the reply; that request becomes the hidden item and the writer's iterator stays usable if it is not behind |
| ConnectionObjects.ConnectionCore.DiscardPending | src/ConnectionCore.cc:156-160 | the acknowledger moves on and the hidden item is destroyed, one slot is returned |
| ConnectionObjects.ConnectionCore.ConsumeHandshakeReply | src/ConnectionCore.cc:203-233 | the handshake's verdict ends the connection, ends the handshake, or queues its next request |
| ConnectionObjects.ConnectionCore.ConsumeUserReply | src/ConnectionCore.cc:268-312 | MULTI checks, swallowed parts and the final reply, on the queue and its iterators, also for a reply that comes before its request was written |
| ConnectionObjects.ConnectionCore.ConsumeResponse | src/ConnectionCore.cc:194-313 | the object does to its members what the value model does to the state, for every reply and mode and wherever the writer is; the writer's place stays valid where the value model keeps it behind the hidden item |
| BlockReplies.SurvivesIff | src/ConnectionCore.cc:194-313 | a reply ends the connection exactly when it begins with ERR unavailable or UNAVAILABLE and the client hides that, when the handshake refuses it, when it is a message that cannot be parsed, when nothing is pending, or when it is not the part that a block has to hear: OK first, then QUEUED, in letters of either case |
| BlockReplies.ReplyEffect | src/ConnectionCore.cc:222-313 | after the handshake a reply that a block still has to hear is counted, the next one is handed to the request's own callback, and anything else changes nothing |
| BlockReplies.BlockIsAnsweredIff | src/ConnectionCore.cc:268-312 | for the oldest pending request and its remaining replies, among messages at any place: the connection goes on if and only if every part in front of the last is the right one, and then exactly that request has been handed exactly the last one; otherwise nothing was handed over |
| BlockReplies.BlockIsServed | src/QClient.cc:106-211 | a block of n requests whose server sends OK, n times QUEUED and a last reply: in every cut of these bytes the connection goes on and the callback is handed the last reply, whatever it is |
| ConnectionObjects.ConnectionCore.GetNextToWrite | src/ConnectionCore.cc:320-345 | the next handshake request during the handshake, else the next user request; nothing where the source would block |
| ConnectionObjects.ConnectionCore.TrimWritten | src/ConnectionCore.cc:331-340 | the loop drops every written request and keeps the writer's place |
| PipelineTheorems.RepliesReachTheirRequests | src/ConnectionCore.cc:194-313 | in every reachable state callbacks are staged at most once each, in staging order, and request i gets the last reply part for that very request, all parts of its block coming from one connection; or nothing, only if it was purged |
| PipelineTheorems.OnlyClearDrops | src/ConnectionCore.cc:103-122 | only a purge ends requests without a reply, and it ends exactly those pending |
| PipelineTheorems.NoPurgeNoNullReply | src/ConnectionCore.cc:103-154 | in a run without a purge no callback ever gets a null reply |
| PipelineTheorems.PushNeverAcknowledges | src/ConnectionCore.cc:203-248 | a push changes neither the queue nor the count of block parts nor the outcomes; one that comes during a handshake ends the connection |
| PipelineTheorems.HandshakePushIsSafeIffNotLenient | src/ConnectionCore.cc:203-226 | for a push that comes during a handshake, the invariants of the runs survive it if and only if the leaf being run does not ignore failures |
| PipelineTheorems.ReconnectRestartsBlock | src/ConnectionCore.cc:67-101 | a new connection starts at the first unacknowledged request, with nothing sent, no part counted and no old reply to come |
| PipelineTheorems.WireContents | src/WriterThread.cc:53-136 | the bytes of a connection are a prefix of the handshake requests followed by the requests unacknowledged at its start, in order and from byte 0; during the handshake no user byte |
| PipelineTheorems.SlotSafety | src/RequestQueue.hh:33-63 | acknowledge position, write position and end are ordered, and what the writer still holds is not destroyed: one hidden item is enough |
| PipelineTheorems.SafeIffHanded | src/ConnectionCore.cc:156-160 | for any reply at all, the hidden item stays in front of the writer's place if and only if the reply does not acknowledge a request that was not handed to the writer |
| PipelineTheorems.HeldIsDestroyedIff | src/RequestQueue.hh:33-63 | with a request in the writer's hand, whatever the server is, a reply destroys that request's item if and only if it acknowledges a request that was not handed to the writer |
| PipelineRuns.EarlyRepliesDestroyItem | src/RequestQueue.hh:33-63 | two requests staged, the first in hand, and two replies that come too early: the first leaves the item in hand hidden, the second destroys it |
| PipelineTheorems.DeliveriesAreHanded | src/ConnectionCore.cc:194-313 | where the invariants hold, as they do in every reachable state, a reply that arrives acknowledges only a request that the writer was handed |
| PipelineTheorems.FuturesReceiveTheirReplies | src/FutureHandler.cc:53-64 | under any mix of callbacks and futures the promise handed out for request i holds the reply to request i |
| PipelineTheorems.PromiseQueue | src/FutureHandler.cc:53-64 | the unfulfilled promises are, in order, those of the futures waiting in the executor followed by those of the futures not acknowledged yet |
| PipelineTheorems.PendingIsLimited | src/ConnectionCore.cc:124-160 | pending requests are within the limit if and only if no more futures were ever staged than slots are free; they exceed it by at most the futures staged; with callbacks only, never |
| PipelineRuns.FutureLetsOneMoreWait | src/ConnectionCore.cc:124-160 | for every limit a run after which one request more waits for its reply: a future is staged and answered, and then as many callbacks follow as there are slots |
| PipelineRuns.EarlyPushShiftsReplies | src/Handshake.cc:367-375 | a run in which a push meets a handshake that ignores failures, and the first user request then receives the handshake's reply |
| PipelineRuns.ServingHandsOverFirstOwed | src/ConnectionCore.cc:194-313 | writing, answering and delivering one request hands its callback the reply that the server owed first, whatever that was for |
| PipelineTheorems.RunIsGood | src/ConnectionCore.cc:67-345 | every step of every run keeps order, own replies, positions, wire contents, service order and slots |
| Pipeline.ConsumeReplyTakesOnePart | src/ConnectionCore.cc:268-312 | a reply takes the next part due to the oldest pending request, also while that request is still being written; the last part alone acknowledges it, and comes only after the request was sent in full |
| Pipeline.PrefixHasFewer | src/WriterThread.cc:90-134 | as long as bytes of a request or block are unsent a server has not read all of it |
| Pipeline.NextReplyIsForOldest | src/ConnectionCore.cc:268-312 | the oldest reply on the wire is the next part owed to the oldest pending request |
| Writer.WriterThread.Fetch | src/WriterThread.cc:82-88 | a request is taken only when none is in hand |
| Writer.WriterThread.Offer | src/WriterThread.cc:90-134 | what is left of the request is offered; accepted bytes are counted, would-block changes nothing and leaves the stream up, an error shuts the stream down; what was sent and what is left in hand stay the same bytes |
| Writer.WriterThread.Round | src/WriterThread.cc:65-135 | one round of the loop, for whatever the network does; only a broken connection shuts the stream |
| Writer.WriterThread.EventLoop | src/WriterThread.cc:53-136 | round after round; the loop ends only behind a broken send, it goes on through every full buffer, and once send() has accepted something often enough everything there was to send has been sent |
| Writer.RoundIsRun | src/WriterThread.cc:65-135 | what a round does is a run of the pipeline's steps |
| Writer.LoopIsRun | src/WriterThread.cc:53-136 | so is the whole loop, for every pattern of partial writes and would-block results |
| Writer.LoopSendsInOrder | src/WriterThread.cc:53-136 | a freshly connected writer has sent a prefix of handshake and unacknowledged requests, whatever the network did |
| Writer.AllIsSent | src/WriterThread.cc:53-136 | while the connection does not break, the stream stays up however often the buffer is full, and after as many accepting sends as there are bytes and requests left every byte has been sent, in order and once |
| Writer.RoundEndsIff | src/WriterThread.cc:90-117 | the stream is given up exactly when the connection breaks under a request in hand |
| Writer.NewConnectionSendsAll | src/WriterThread.cc:53-136 | on a new connection that is all of the handshake's request, or without a handshake all unacknowledged requests from the first one |
| Writer.LoopSendsAll | src/WriterThread.cc:53-136 | and from any point of a connection on: all of the handshake's requests, and after the handshake all requests from the first one that was unacknowledged when the connection began |
| Writer.ServiceAll | src/CallbackExecutorThread.cc:37-58 | at termination the executor leaves nothing unserviced |
| Writer.ServiceReachable | src/CallbackExecutorThread.cc:37-58 | in every reachable state, when it returns, all callbacks have been called in staging order and every future of an acknowledged request has the reply to that request |
| Client.QClient.Feed | src/QClient.cc:167-211 | every complete reply of the stream reaches the core in order, up to the first that ends the connection, and the connection counts as answered once one was consumed; the writer's place stays valid if none of them acknowledges a request not yet handed to the writer |
| Client.QClient.Execute | src/QClient.cc:89-91 | the request is staged for the callback as it is, with no reply to ignore |
| Client.QClient.ExecuteForFuture | src/QClient.cc:93-95 | the same for a future |
| Client.QClient.ExecuteBlock | src/QClient.cc:106-114 | n pieces are staged as one block with n + 1 replies to ignore, which is well counted if each piece is one request |
| Client.QClient.ExecuteBlockForFuture | src/QClient.cc:116-123 | the same for a future |
| Pipeline.RequestIsWellCounted | src/EncodedRequest.cc:32-82 | a server reads an encoded request as one request with nothing behind it |
| Pipeline.BlockIsWellCounted | src/QClient.cc:106-123 | a server reads as many requests out of a block of n pieces as the multi-size n + 1 says, plus one, if and only if the pieces hold n requests in all |
| Client.QClient.Cleanup | src/QClient.cc:216-281 | nothing is handed over with infinite retries, within the timeout, or while no reply was ever consumed and the circle is not full; in every other case each pending request gets exactly one null reply, in order; then comes a reconnection, and the reader starts afresh |
| Client.QClient.UpdateLastAvailable | src/QClient.cc:355-358 | the servers are noted as available only if a reply was consumed on the connection |
| Client.CleanUpDrops | src/QClient.cc:216-281 | a clean-up drops all pending requests or none, and none exactly where the retry mode, its timeout or the circle forbids it |
| ClientLife.ActDropsIff | src/QClient.cc:167-281 | whatever a client does, what was staged or handed over stays; a null reply is handed over if and only if the act is a clean-up with requests pending, no infinite retries, a timeout that is over, and servers that answered before or were all tried |
| ClientLife.RunDropsIff | src/QClient.cc:216-281 | over the whole life of a client, with any requests, replies, connections and clean-ups in any order: everything handed over is a reply if and only if at no time a clean-up had to drop something |
| ClientLife.InfiniteRetriesDropNothing | src/QClient.cc:216-222 | so a client with infinite retries never hands over a null reply, in any run |
| ClientLife.NothingDroppedWithinTimeout | src/QClient.cc:224-230 | nor does one with a timeout until that long after the servers were last known to be there |
| ClientLife.NothingDroppedBeforeFullCircle | src/QClient.cc:232-248 | nor any other before a reply was received and all servers were tried |
| ClientLife.CleaningIsReconnecting | src/QClient.cc:259-281 | in the pipeline a clean-up is the step of a new connection, behind a purge unless everything must be kept |
| Client.CoreIgnoresChunking | src/QClient.cc:167-211 | for every state and every stream: however its bytes are cut into reads, the core ends in the same state and the connection survives or not |
| ClientRuns.ConsumingIsDelivering | src/QClient.cc:171-208 | in a good state, replies on the wire that can be delivered are all handed, and consuming them is delivering them one by one in the pipeline's run |
| ClientRuns.DeliveriesAreEnabled | src/QClient.cc:171-208 | and they can be delivered, unless a push may meet a handshake that ignores failures |
| ClientRuns.ReadingIsDelivering | src/QClient.cc:167-211 | so the bytes of the replies on the wire, however they are cut into reads, bring the core to where the pipeline's run is |
| Client.ConsumeAllAppend | src/QClient.cc:171-208 | consuming two stretches of replies is consuming them one after the other, unless the first ends the connection |
| LastN.InRingAfterInsert | include/qclient/queueing/RingBuffer.hh:50-59 | the cells from the next to evict onwards are the last N inserts in order, before and after the index wraps |
| LastN.RingBuffer.EmplaceBack | include/qclient/queueing/RingBuffer.hh:50-59 | the oldest cell is overwritten, index and rollover flag follow |
| LastN.RingBuffer.GetNextToEvict | include/qclient/queueing/RingBuffer.hh:64-66 | the oldest of the last N inserts, once N were made |
| LastN.CountsAfterEviction | include/qclient/queueing/LastNSet.hh:62-71 | counts stay the multiplicities in the ring when its oldest element leaves |
| LastN.LastNSet.Query | include/qclient/queueing/LastNSet.hh:50-53 | found if and only if among the last N inserts |
| LastN.LastNSet.Emplace | include/qclient/queueing/LastNSet.hh:58-77 | eviction, ring and counts stay in step |
| LastN.NewestIgnoresOldest | include/qclient/queueing/LastNMap.hh:65-82 | the newest value of a key that stays does not depend on the insert that leaves |
| LastN.NewestIsNewest | include/qclient/queueing/LastNMap.hh:50-60 | the value meant is that of the last insert of the key, and none if there is no insert |
| LastN.LastNMap.Query | include/qclient/queueing/LastNMap.hh:50-60 | the newest value if the key is among the last N inserts, nothing otherwise |
| LastN.LastNMap.Insert | include/qclient/queueing/LastNMap.hh:65-82 | eviction, ring, counts and values stay in step |
| Binary.Int64ThereAndBack | src/shared/BinarySerializer.cc:51-60 | eight big-endian bytes hold any 64-bit integer and give it back |
| Binary.Int64BackAndThere | src/shared/BinarySerializer.cc:51-60 | any eight bytes are those of exactly one integer |
| Binary.TakeStringIff | src/shared/BinarySerializer.cc:145-152 | a string is read if and only if the bytes begin with its length and its contents; a negative length, used as unsigned, fails |
| Binary.BinarySerializer.AppendString | src/shared/BinarySerializer.cc:98-101 | length and contents are appended |
| Binary.BinaryDeserializer.ConsumeInt64 | src/shared/BinarySerializer.cc:118-126 | eight bytes, or nothing consumed |
| Binary.BinaryDeserializer.ConsumeString | src/shared/BinarySerializer.cc:145-152 | a length-prefixed string, or failure |
| Framing.RequestFraming | src/shared/SharedSerialization.cc:90-119 | a payload parses to a request if and only if it is that request's serialization |
| Framing.ReplyFraming | src/shared/SharedSerialization.cc:124-155 | a payload parses to a reply if and only if it is that reply's serialization |
| Framing.NeverBoth | src/shared/SharedSerialization.cc:108-155 | no payload is both a request and a reply |
| Framing.SerializeCommunicatorRequest | src/shared/SharedSerialization.cc:90-103 | the precomputed size is filled exactly |
| Framing.SerializeCommunicatorReply | src/shared/SharedSerialization.cc:124-138 | the precomputed size is filled exactly |
| Framing.ParseCommunicatorRequest | src/shared/SharedSerialization.cc:108-119 | tag, two strings, and nothing left |
| Framing.ParseCommunicatorReply | src/shared/SharedSerialization.cc:143-155 | tag, string, status, string, and nothing left |
| Framing.BatchRoundTrip | src/shared/SharedSerialization.cc:37-85 | parsing a serialized batch gives it back, in whatever order its keys were written and whatever follows |
| Framing.BatchParses | src/shared/SharedSerialization.cc:61-85 | any payload that begins with a serialized list of pairs parses to their map, later pairs winning |
| Framing.OnlyBatchesParse | src/shared/SharedSerialization.cc:61-85 | and no other payload parses |
| Framing.SerializeBatch | src/shared/SharedSerialization.cc:37-59 | the precomputed size is filled exactly with the pairs in iteration order |
| Framing.ParseBatch | src/shared/SharedSerialization.cc:61-85 | the loop over single elements with its remembered key computes that |
| Listener.RepeatsAreFarApart | src/shared/CommunicatorListener.cc:84-112 | in every run one uuid is delivered twice only with at least 1000 other deliveries in between |
| Listener.ReceivedIsDelivered | src/shared/CommunicatorListener.cc:84-112 | every well-formed request received has been delivered at least once, if only delivered requests are replied to |
| Listener.OnlyGivenRepliesArePublished | src/shared/CommunicatorListener.cc:90-99 | everything published is a reply the application gave, to that same uuid |
| Listener.RepeatIsAnswered | src/shared/CommunicatorListener.cc:84-112 | in every run a request that comes when it has been replied to, with fewer than 1000 replies given since, publishes exactly the last reply given to it; if it has no such reply nothing is published, and it is delivered unless it is among the last 1000 delivered |
| Listener.OtherEvents | src/shared/CommunicatorListener.cc:84-126 | what is no request changes nothing, and each reply given is published exactly once |
| Listener.CommunicatorListener.ProcessIncoming | src/shared/CommunicatorListener.cc:84-112 | cached reply, known uuid and new delivery in this order, on the two windows of 1000 |
| Listener.CommunicatorListener.Reply | src/shared/CommunicatorListener.cc:117-126 | published and remembered |
| Retries.RetryOrder | src/shared/PendingRequestVault.cc:45-162 | in every reachable state the retry list is a permutation of the vault's keys, in the order of their last retries |
| Retries.Retransmissions | src/shared/Communicator.cc:120-136 | two transmissions of one id are at least the retry interval apart, carry the same contents, and all but the first are strictly before its deadline |
| Retries.NeverSatisfiedAndExpired | src/shared/PendingRequestVault.cc:72-139 | every id issued is pending, satisfied or expired, exactly one of them and once, and expired only after its deadline |
| Retries.EveryOtherOnce | src/shared/PendingRequestVault.cc:144-162 | between two consecutive transmissions of one id every other id pending all the time is sent exactly once |
| Retries.GoneForever | src/shared/PendingRequestVault.cc:72-139 | an id that was satisfied or expired never waits again |
| Retries.ExpireIsPrefix | src/shared/PendingRequestVault.cc:124-139 | expiry removes exactly the longest prefix of the retry order that is past the deadline |
| Retries.GivenUpIff | src/shared/PendingRequestVault.cc:124-139 | a pending id is expired in a pass if and only if it and everything in front of it in the retry order are past the deadline |
| Retries.PassSendsIff | src/shared/Communicator.cc:120-136 | a pass sends a request again if and only if everything in front of it is past the deadline, it is not itself, and its last transmission is at least the interval ago, however often it was sent before |
| Retries.NobodyStarves | src/shared/Communicator.cc:120-136 | passes made at times when everything up to a request is due send it again or give it up within as many passes as its place in the retry order |
| Retries.OldRequestsMayStay | src/shared/PendingRequestVault.cc:128-136 | a concrete run in which a request past its deadline is not expired, because a younger one is in front of it |
| Retries.TurnsInRun | src/shared/Communicator.cc:120-136 | of two pending ids neither is sent twice while the other waits |
| Retries.RunKeepsInv | src/shared/Communicator.cc:92-150 | every step of every run keeps order, contents, spacing, deadlines and fates |
| Communicators.PendingRequestVault.Insert | src/shared/PendingRequestVault.cc:45-67 | map and list gain the id, in step |
| Communicators.PendingRequestVault.Satisfy | src/shared/PendingRequestVault.cc:72-85 | the promise is fulfilled and the id leaves map and list; unknown ids change nothing |
| Communicators.PendingRequestVault.GetEarliestRetry | src/shared/PendingRequestVault.cc:101-109 | the front's last retry, which is the earliest of all while the list is sorted |
| Communicators.PendingRequestVault.Expire | src/shared/PendingRequestVault.cc:124-139 | the loop pops what the value model says |
| Communicators.PendingRequestVault.RetryFrontItem | src/shared/PendingRequestVault.cc:144-162 | the front moves to the back with its new retry time |
| Communicators.Communicator.Issue | src/shared/Communicator.cc:100-111 | inserted and published |
| Communicators.Communicator.RunNextToRetry | src/shared/Communicator.cc:120-136 | expiry first, then at most one retransmission, if the front is due |
| Communicators.Communicator.BackgroundRound | src/shared/Communicator.cc:64-87 | one round of the thread publishes exactly what the pass decided to send again |
| Communicators.Communicator.ProcessIncoming | src/shared/Communicator.cc:141-150 | a reply on the own channel satisfies the request it names |
| SharedHash.ReplicaConsistency | src/shared/PersistentSharedHash.cc:223-330 | under any loss, duplication, reordering and staleness of messages and snapshots a consistent replica stays consistent |
| SharedHash.ContentsAreReplayed | src/shared/PersistentSharedHash.cc:223-330 | so in every run from the beginning the contents are the replay of the first currentVersion log entries |
| SharedHash.FeedRevisionOutcome | src/shared/PersistentSharedHash.cc:270-307 | false exactly on a gap or where the 64-bit version runs out; refused and known revisions change nothing, an accepted one leaves the replica at least that new |
| SharedHash.RefusesExactlyGaps | src/shared/PersistentSharedHash.cc:279-286 | refusing exactly the gaps holds if and only if the version is not the last but one a 64-bit counter has |
| SharedHash.InOrderNeedsNoResilvering | src/shared/PersistentSharedHash.cc:270-307 | revisions that arrive in order are all applied without asking for a snapshot |
| SharedHash.SnapshotCatchesUp | src/shared/PersistentSharedHash.cc:322-330 | a snapshot of everything published brings the replica up to date |
| SharedHash.LowersIffOldSnapshot | src/shared/PersistentSharedHash.cc:322-330 | a step lowers the version if and only if it is an understood snapshot of an earlier revision |
| SharedHash.VersionMayGoBack | src/shared/PersistentSharedHash.cc:322-330 | a concrete run in which a late snapshot lowers the version |
| SharedHash.DecodePublished | src/shared/PersistentSharedHash.cc:166-199 | a revision printed on the wire is understood as it was meant |
| SharedHash.VersionedIff | src/shared/PersistentSharedHash.cc:166-199 | a reply is understood if and only if it is a published message: a revision, taken modulo 2^64, and keys and values in turn, of which later ones win |
| SharedHash.AllFedIsUpdated | src/shared/PersistentSharedHash.cc:251-260 | feeding an update pair by pair, in whatever order, is the update as a whole; empty values delete |
| SharedHash.ParseReply | src/shared/PersistentSharedHash.cc:166-199 | type checks and pair loop compute exactly revision and map, or nothing |
| SharedHash.PersistentSharedHash.FeedRevision | src/shared/PersistentSharedHash.cc:270-307 | the replica changes as the value model says, and the subscriber is told the pairs of an applied revision, once each in the order of iteration, and nothing otherwise; they turn the old contents into the new |
| SharedHash.PersistentSharedHash.Resilver | src/shared/PersistentSharedHash.cc:322-330 | contents and version are replaced |
| SharedHash.PersistentSharedHash.HandleResponse | src/shared/PersistentSharedHash.cc:204-218 | a snapshot that parses replaces everything, any other reply changes nothing |
| SharedHash.PersistentSharedHash.ProcessIncoming | src/shared/PersistentSharedHash.cc:223-246 | a message is applied, ignored, or answered by asking for a snapshot |
| Durable.OperationRoundTrip | include/qclient/RocksDBPersistency.hh:54-90 | a serialized operation is read back as it was |
| Durable.KeysDiffer | include/qclient/RocksDBPersistency.hh:92-96 | different indices have different keys, and no key is that of a counter |
| Durable.NothingLost | src/BackgroundFlusher.cc:63-123 | at every point of every run, crashed or not, acknowledged and stored operations together are in order exactly those pushed, and nothing else is stored |
| Durable.PopMatchesReply | src/BackgroundFlusher.cc:118-123 | each waiting operation has a record; the pop on its reply removes that very record, and no other, if and only if it is the oldest one waiting |
| FlusherSystem.NextReplyIsForOldestOperation | src/BackgroundFlusher.cc:32-57 | where process and client agree, the next reply handed to the callback is the server's reply to the oldest operation waiting |
| FlusherSystem.StepIsOk | src/BackgroundFlusher.cc:32-123 | every step of flusher and client together keeps them in agreement, boots, crashes and reconnections included |
| FlusherSystem.CleaningIsOnItsOwn | src/BackgroundFlusher.cc:74 | as the flusher sets infinite retries, each clean-up of its client is a reconnection without a purge |
| FlusherSystem.ReplyAndRecordMatch | src/BackgroundFlusher.cc:32-123 | in every joint run the reply handed to the callback is the server's reply to the very operation whose record the callback then removes |
| FlusherSystem.SystemLosesNothing | src/BackgroundFlusher.cc:63-123 | in every joint run acknowledged and stored operations together are in order exactly those pushed |
| Durable.RestartExecutesUnacknowledged | src/BackgroundFlusher.cc:84-92 | after a crash at any point a restart executes exactly the unacknowledged operations, in order |
| Durable.RecordedHolds | include/qclient/RocksDBPersistency.hh:122-137 | recording adds one entry at the end |
| Durable.PoppedHolds | include/qclient/RocksDBPersistency.hh:164-176 | popping removes the first entry |
| Durable.RunKeepsInv | src/BackgroundFlusher.cc:63-123 | every step, crash and restart keeps store and process in agreement |
| Flusher.SerializeVector | include/qclient/RocksDBPersistency.hh:66-75 | the appending loop writes that serialization |
| Flusher.DeserializeVector | include/qclient/RocksDBPersistency.hh:77-90 | the reading loop reads it back |
| Flusher.RocksDBPersistency.Record | include/qclient/RocksDBPersistency.hh:122-137 | entry and end counter are written in one batch; an unexpected index ends the process with nothing written |
| Flusher.RocksDBPersistency.Retrieve | include/qclient/RocksDBPersistency.hh:147-162 | the entry, or none |
| Flusher.RocksDBPersistency.Pop | include/qclient/RocksDBPersistency.hh:164-176 | entry and start counter change in one batch; an empty queue ends the process |
| Flusher.BackgroundFlusher.Restore | src/BackgroundFlusher.cc:84-92 | the recovery loop executes everything stored in order, or ends the process at the first missing entry |
| Flusher.BackgroundFlusher.PushRequest | src/BackgroundFlusher.cc:111-116 | recorded, then executed |
| Flusher.BackgroundFlusher.HandleResponse | src/BackgroundFlusher.cc:32-57 | a reply pops the oldest record; no reply or an error leaves the store as it was |
| Flusher.PushIsTwoEvents | src/BackgroundFlusher.cc:111-116 | a push is the two steps of the run model, with a crash possible in between |
| Endpoints.FullCircleAsksEveryone | src/EndpointDecider.cc:43-122 | in every run that begins with a call, whatever redirections come in between and whatever the resolver answers, the resolver was asked about every member once the circle is full |
| Endpoints.CircleIsFullIffCallFirst | src/EndpointDecider.cc:43-122 | the first operation decides: that guarantee holds for all continuations and all answers if and only if it is a call, as it is for a client, which learns of redirections only from replies |
| Endpoints.EarlyRedirectionCloses | src/EndpointDecider.cc:78-108 | after a redirection before the first call a single address closes the circle, with no member asked about |
| Endpoints.EarlyRedirectionClosesLater | src/EndpointDecider.cc:78-82 | with two addresses the second call closes it, when the redirection is gone already |
| Endpoints.CircleClosesWithNothingLeft | src/EndpointDecider.cc:80-108 | as long as only calls are made, in the call that closes the circle everything ever returned has been handed out |
| Endpoints.HandedInOrder | src/EndpointDecider.cc:69-108 | as long as only calls are made, addresses are handed out once each in resolver order, and the rest is in stock |
| Endpoints.AllHandedIffStockEmpty | src/EndpointDecider.cc:69-122 | as long as only calls are made, everything ever returned has been handed out if and only if the stock is empty |
| Endpoints.StockAfterCircle | src/EndpointDecider.cc:78-122 | a concrete run in which the circle is closed and a later address is not handed out yet |
| Endpoints.FailsIffAllEmpty | src/EndpointDecider.cc:78-108 | a call with nothing in stock fails if and only if all its questions have empty answers: about the redirection, if there is one, then about the members in turn, one fewer after a redirection; it has then asked exactly these, and the circle is closed |
| Endpoints.EveryoneAskedIff | src/EndpointDecider.cc:88-108 | the questions of one such call, by themselves, are about every member if and only if there is no redirection, or it names the very member whose place it takes |
| Endpoints.FullCircleSkipsMember | src/EndpointDecider.cc:88-122 | so does a call that fails, with one of two members left out |
| Endpoints.RedirectionIsNext | src/EndpointDecider.cc:43-108 | after a redirection, whatever was in stock, the next call asks about its target first, and hands out the first address of the answer, with the others in stock |
| Endpoints.EndpointDecider.Next | src/EndpointDecider.cc:51-64 | a redirection first, else the next member in turn |
| Endpoints.EndpointDecider.NextEndpoint | src/EndpointDecider.cc:78-114 | stock first, else the resolution loop; all fields as the value model says |
| Endpoints.EndpointDecider.Redirect | src/EndpointDecider.cc:43-46 | the stock is dropped and the redirection remembered |
| Quoting.QuoteSplitRoundTrip | src/reader/sds.cc:945-1061 | splitting quoted arguments with any blanks between and around them gives back exactly the arguments, for all 256 byte values |
| Quoting.JoinedRoundTrip | src/reader/sds.cc:870-893 | in particular with single spaces between them |
| Quoting.EscapeIsRead | src/reader/sds.cc:962-996 | each escape is read as the one byte it stands for, also before text that looks like an escape |
| Quoting.BadQuotesAreRefused | src/reader/sds.cc:986-1057 | a quote that is not closed, or that runs into what follows, makes the whole line invalid |
| Quoting.SingleQuotedIsRead | src/reader/sds.cc:997-1011 | a text in single quotes is read as it is, each escaped single quote as one, unless it has a NUL or ends in a backslash; it too must end before a blank |
| Quoting.WordIsRead | src/reader/sds.cc:1012-1036 | a word without quotes goes as far as the next blank or the end of the line |
| Quoting.Sdscatrepr | src/reader/sds.cc:870-893 | the appending loop writes the quoted form |
| Quoting.ScanToken | src/reader/sds.cc:954-1033 | the scanner with its three flags reads one token, or finds the quotes wrong |
| Quoting.Sdssplitargs | src/reader/sds.cc:945-1061 | all tokens, or none if the quotes are unbalanced or run into the next argument |

## Left out

- Threads: each step is atomic; a lock region or a thread's own step is one step. Condition variables are not modelled: where the program blocks, the step is not enabled, or the call returns nothing.
- Memory order, allocation failure, and the destructors of queues.
- Exclusive pub-sub mode in the run theorems: the operations model it (`ConnectionModel.DiscardWrittenCatchesUp`), the runs of `Pipeline` exclude it.
- A push that meets a handshake leaf which ignores failures: the run theorems exclude that one delivery, since they fail behind it (`PipelineTheorems.HandshakePushIsSafeIffNotLenient`).
- Requests that are not well counted, such as a raw buffer that holds two requests: the run theorems exclude them, as the server then sends more replies than the client expects.
- TLS, sockets, poll, DNS and epoll: `send` accepts at least one byte, would block, or fails; the resolver is a function of how often it was asked.
- HMAC signatures and random bytes: parameters of the handshake functions.
- Message parsing for pub-sub: whether a reply parses as a message is a parameter of the step.
- Redirections in `QClient::feed`: whether a reply is a redirection to a known server is a parameter; the connection then ends unconsumed, which the runs see as a reconnection.
- Null replies given to a handshake: the reader never emits one.
- The Folly variants of futures, logging, fault injection, performance monitoring, reconnection listeners, the connection epoch, and `describeRedisReply`.
- Lengths of 2^31 and more in the reader: element counts from there on count as out of memory, and lengths are not narrowed to 32 bits.
- The buffer's spare capacity and the `maxbuf` limit of the reader.
- The `obj` and `parent` pointers of a task slot: they are the path through the tree that the slots' `idx` fields give; a child is linked into its parent when it is created, as in the program.
- An aggregate directly inside a push: the program stops at an assertion, the model at an error of its own.
- `LLONG_MIN` in `sdsll2str`: its negation overflows; the method requires a value above it.
- Characters: strings are sequences of characters that stand for bytes; where the byte value matters they are restricted to 0..255.
- The locale: `isprint` and `isspace` are those of the "C" locale.
- Allocation of 5000 items a block: block sizes are any positive number; the connection core uses 5000.
- Retries.Retransmissions: the clock is read once per pass; the program reads it up to three times.
- The waiting time in `Communicator::backgroundThread`, which is negative and so does not wait; only the decision whether to run a pass is modelled.
- List iterators in the vault: erasing through a stored iterator is modelled as erasing the position of the identifier.
- A listener or communicator without a QClient, which then publishes nothing.
- Wrapping of the 32-bit counts in `LastNSet` and `LastNMap`: they are bounded by the size of the ring.
- The order in which a `std::map` is iterated: a parameter; results are proved for every order.
- Durable.OperationRoundTrip: lengths are stored in host order, taken as little-endian; lengths up to 2^63 - 1.
- Errors of the database other than a missing key end the process and are not modelled; a write batch is atomic.
- Flusher.DeserializeVector: requires well-formed data; on malformed data the program runs over the end of the buffer, and the store never holds such data (`Durable.NothingLost`).
- Endpoints.FullCircleAsksEveryone: at least one member, and a call before the first redirection, since it fails otherwise (`Endpoints.CircleIsFullIffCallFirst`).
- Endpoints.HandedInOrder: calls only, as for `Endpoints.CircleClosesWithNothingLeft` and `Endpoints.AllHandedIffStockEmpty`; a redirection drops the addresses in stock, so those are never handed out.
- `BackgroundFlusher::waitForIndex` and its counters, `PersistentSharedHash::set` and `get`, `TransientSharedHash`, `SharedDeque`, and the QSet, QHash and QDeque wrappers: thin wrappers that would add easy members only.
- Integer width of sequence numbers and indices: unbounded, except where the program's 64-bit arithmetic decides a branch (`feedRevision`, the reader's integers, store keys).
