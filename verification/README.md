# CyMUX and CTS discovery, verified in Dafny

This project models two parts of the RSD repository and proves what they promise.

**CyMUX** multiplexes IPMB traffic between socket clients, one responder and an I2C bus. Four
bounded blocking queues connect its threads, a "marriage broker" remembers each request until
its response comes back, and a connection table hands out client slots and the responder role.

| module | what it models |
|---|---|
| `Ipmb` | frames, the two request validators, the error-response builder, the message checksum (`IPMB.c`) |
| `CraftRequest` | plain and bridged requests filled into a transmit buffer (`cytool.c`) |
| `BrokerSpec`, `Broker` | which request a response is married to, on sequences; the doubly linked list that does it in place (`ll.c`) |
| `MsgQueue`, `Monitor`, `MonitorQueue` | the ring buffer in place, its wait loops as interleaved steps of any number of threads, and the ring doing what those steps say (`msgq.c`) |
| `SlotTable` | the connection table, as values and as the in-place object (`connection_manager.c`) |
| `Mux` | all threads together: every region a lock protects is one step |
| `MuxThreads` | the thread bodies on the real list, rings and table, proved to do what the steps do |
| `MuxHistory`, `MuxInvariants`, `MuxTheorems` | what every step keeps, and what holds over every run |
| `MuxConnections`, `MuxRouting` | what connecting and disconnecting do in every reachable state, and where every message goes |
| `MuxPings`, `MuxFaults` | which answers to pings are harmful, and exactly when the asserts on posts fail |
| `MuxScenarios` | whole exchanges from request to response, each on one schedule |

**CTS discovery** walks a Redfish service from link to link and keeps what it finds in a container
with one table per resource type; its JSON helpers compare values with golden ones and build
patch payloads.

| module | what it models |
|---|---|
| `Links`, `Container` | links, the url dictionary and the per-type tables beside it |
| `Bodies` | JSON bodies and the `@odata.id`s found in them |
| `Explorer`, `ApiExplorer` | the worklist as a function on values, and the object that runs it |
| `Walk`, `Tables` | when the walk ends, what it has stored by then, and whether its tables are exact |
| `Json`, `Golden`, `Patch` | golden comparison; payload construction and path lookup |

## Reading the model

- Bytes are integers below 256 and `uint8_t` arithmetic is written modulo 256. Queue and list
  lengths are unbounded integers; `size_t` never wraps for the sizes involved.
- A `Message_t` is a `Message`: 128 bytes of buffer of which `length` are live. Bytes past
  `length` are carried along as the stale contents they are, so no result depends on them.
- Results of pthread calls, calloc, sockets, the bus and the random sequence numbers are
  parameters. NULL arguments are not modelled: the headers declare them non-null.
- In `Mux` a thread keeps in its own state what it holds between two locked regions. A post to a
  full queue is a step that is not enabled. The connection lock is not held across the steps of
  one routine, which allows more interleavings than the program has. A C assert that fails ends
  the run with a `Fault`.
- In `Mux` the fields `history` and `sent` record what happened and steer no step.
- A run is a sequence of actions; `Legal` says each was enabled, `Exec` gives the final state.

Where the code and its documentation differ, the model follows the code:

- The comment of `craft_error_response` calls its result an invalid NetFn or command response. The
  code puts in whatever completion code it is given.
- `_find_all_odata_id` cuts an `@odata.id` off at its first `=`, so it finds an id exactly when the
  id holds none (`MentionIsFoundIff`), and it does not search a list directly inside a list
  (`ListInListIsNotSearched`).
- `discover` is meant to visit every resource once. A resource without `@odata.id` is never stored
  and can be visited for ever (`WalkEndsIff` says exactly when a walk ends).
- `discover` adds a resource twice once the container holds something, and a body without
  `@odata.type` can be given two types, which leaves a stale row (`TurnKeepsIndexIff` says exactly
  when).
- The callers of `post_no_responder` assert that it posted an error reply. Apart from errors of the
  queues' own locks, the assert fails exactly when the message is no valid request, as an answer
  to a ping may be, or the requester's address is odd or zero (`NoResponderAssertFailsIff`,
  `LostResponderAssertFailsIff`). Any client can send such a request (`BadRequesterIsFatalIff`).
  `ErrorReplyComesHomeIff` says when a posted reply finds its way.
- `msgq_flush` signals one producer whatever it frees (`FlushIsSafeIff`).

## Model

| member | source | states |
|---|---|---|
| `Ipmb.ValidRequest` | tools/CyMUX/cyMUX/IPMB.c:47-103 | the loops accept exactly the streams of 7 to 129 bytes with even address, request NetFn and both checksums zero |
| `Ipmb.ValidRequestMsg` | tools/CyMUX/cyMUX/IPMB.c:118-178 | the same for a message, whose address lies outside its buffer |
| `Ipmb.MessageValidIffWireValid` | tools/CyMUX/cyMUX/IPMB.c:118-178 | a message is a valid request iff the bytes written for it are a valid stream |
| `Ipmb.ValidatorsAgree` | tools/CyMUX/cyMUX/connection_manager.c:931-943 | both validators agree on every received stream after the dispatcher's conversion, whatever the buffer held |
| `Ipmb.SingleByteErrorRejected` | tools/CyMUX/cyMUX/IPMB.c:82-96 | any valid frame with exactly one byte changed is rejected |
| `Ipmb.TranspositionUndetected` | tools/CyMUX/cyMUX/IPMB.c:82-96 | the limit of the checksums: two bytes of one part exchanged pass iff address and NetFn stay even |
| `Ipmb.CraftErrorResponse` | tools/CyMUX/cyMUX/IPMB.c:193-221 | fails, changing nothing, iff the message is no valid request or the buffers are the same; else fills in exactly the error response |
| `Ipmb.ErrorResponseEchoes` | tools/CyMUX/cyMUX/IPMB.c:207-217 | the reply to a valid request has both checksums zero, goes to the requester and echoes address, function, sequence number and command |
| `Ipmb.MChecksum` | tools/CyMUX/cyMUX/IPMB.c:232-251 | writes the two checksum bytes and nothing else |
| `Ipmb.ChecksumKeepsTheRest` | tools/CyMUX/cyMUX/IPMB.c:232-251 | every other byte and field is as before |
| `Ipmb.ChecksumMakesRequest` | tools/CyMUX/cyMUX/IPMB.c:232-251 | the result is a valid request iff address and NetFn are even |
| `Ipmb.ChecksumFixesZeroSums` | tools/CyMUX/cyMUX/IPMB.c:232-251 | the messages it leaves alone are exactly those whose sums are zero |
| `Ipmb.ChecksumIdempotent` | tools/CyMUX/cyMUX/IPMB.c:232-251 | applying it twice is applying it once |
| `CraftRequest.Craft` | tools/CyMUX/cyMUX/cytool.c:573-673 | rejects exactly the data that does not fit; else the buffer holds, byte by byte, the plain request or the SendMessage around it, all sums zero; nothing at or past the limit is written |
| `CraftRequest.PlainBytes` | tools/CyMUX/cyMUX/cytool.c:624-672 | address, NetFn, 0x10, sequence number, command and data each at its offset, both sums zero |
| `CraftRequest.BridgedBytes` | tools/CyMUX/cyMUX/cytool.c:590-672 | the same of the SendMessage to the bridge, the channel byte, and the request to the target inside it |
| `CraftRequest.CraftedIsAccepted` | tools/CyMUX/cyMUX/cytool.c:537-550 | for every command line let through the multiplexer accepts the request, and the bytes embedded from RespAddr on are a valid request too |
| `CraftRequest.FrameIsRequestIff` | tools/CyMUX/cyMUX/cytool.c:648-672 | a crafted frame is valid iff its address and NetFn are even and it is not too long |
| `CraftRequest.RequestsAreFrames` | tools/CyMUX/cyMUX/IPMB.c:47-103 | conversely every accepted stream is the frame crafted from its own fields |
| `BrokerSpec.Match` | tools/CyMUX/cyMUX/ll.c:243-306 | finds something iff a request of the origin class agrees on address, NetFn and command |
| `BrokerSpec.MatchIsFirst` | tools/CyMUX/cyMUX/ll.c:253-306 | what is found is the oldest perfect match, or, when nothing is perfect, the oldest candidate |
| `BrokerSpec.RemoveAtKeepsOthers` | tools/CyMUX/cyMUX/ll.c:347-366 | taking one request leaves all others in their order |
| `BrokerSpec.EchoMatchedExactly` | tools/CyMUX/cyMUX/ll.c:253-306 | a response echoing a request's key is married to that request iff no older one of its origin has the key, whatever fuzzy candidates precede it |
| `BrokerSpec.DistinctKeysReachRequester` | tools/CyMUX/cyMUX/ll.c:342-366 | with distinct keys a response always reaches its own requester |
| `BrokerSpec.WithoutKeepsOthers` | tools/CyMUX/cyMUX/ll.c:401-425 | a flush leaves none of the resource and every request of every other as often as before |
| `BrokerSpec.WithoutKeepsOrder` | tools/CyMUX/cyMUX/ll.c:401-425 | and in their old order |
| `Broker.MarriageBroker.Append` | tools/CyMUX/cyMUX/ll.c:144-168 | the walk to the end links the new node behind all others; both links mirror each other |
| `Broker.MarriageBroker.Add` | tools/CyMUX/cyMUX/ll.c:138-170 | the request is appended, or nothing changes when memory is out |
| `Broker.MarriageBroker.Post` | tools/CyMUX/cyMUX/ll.c:191-228 | appends exactly the valid requests, with every error code |
| `Broker.MarriageBroker.Find` | tools/CyMUX/cyMUX/ll.c:243-306 | the single pass returns what the two-pass meaning says: first perfect match of the class, else first fuzzy one, else none |
| `Broker.MarriageBroker.Relink` | tools/CyMUX/cyMUX/ll.c:351-363 | the pointer surgery leaves a proper doubly linked list of the remaining nodes |
| `Broker.MarriageBroker.Get` | tools/CyMUX/cyMUX/ll.c:325-376 | removes exactly the request the search chose and returns its resource |
| `Broker.MarriageBroker.Flush` | tools/CyMUX/cyMUX/ll.c:388-433 | the loop is an order-preserving filter, each dropped node freed once |
| `MsgQueue.RingPost` | tools/CyMUX/cyMUX/msgq.c:170-180 | writing past head appends; the full test holds exactly at capacity |
| `MsgQueue.RingGet` | tools/CyMUX/cyMUX/msgq.c:217-229 | reading past tail takes the oldest message; clearing the cell loses no other |
| `MsgQueue.MsgQ.Init` | tools/CyMUX/cyMUX/msgq.c:48-100 | an empty queue of exactly the given slots, or the error and no change |
| `MsgQueue.MsgQ.Post` | tools/CyMUX/cyMUX/msgq.c:155-189 | appends a message with a length and an even, non-zero address; waits iff full |
| `MsgQueue.MsgQ.Get` | tools/CyMUX/cyMUX/msgq.c:206-239 | takes the oldest message; waits iff empty |
| `MsgQueue.MsgQ.Flush` | tools/CyMUX/cyMUX/msgq.c:252-274 | nothing posted before is left although one cell is cleared |
| `MonitorQueue.PostStep` | tools/CyMUX/cyMUX/msgq.c:155-189 | a post on the ring is the producer's step of the monitor; it waits exactly where the monitor puts the thread to sleep |
| `MonitorQueue.GetStep` | tools/CyMUX/cyMUX/msgq.c:206-239 | likewise for a consumer, which receives the oldest message |
| `MonitorQueue.Replay` | tools/CyMUX/cyMUX/msgq.c:155-274 | over any interleaved run of posts, gets and flushes the ring holds exactly what the monitor says |
| `Monitor.NoLostWakeupWithoutFlush` | tools/CyMUX/cyMUX/msgq.c:155-239 | in every interleaving of any number of threads, while a thread sleeps every item or free slot is spoken for by a woken one |
| `Monitor.FlushKeepsWakeups` | tools/CyMUX/cyMUX/msgq.c:263-267 | in any state, exactly when a flush loses a wakeup |
| `Monitor.FlushIsSafeIff` | tools/CyMUX/cyMUX/msgq.c:252-274 | with flush no run loses a wakeup iff there is one producer, as for the responder queue, or one slot |
| `Monitor.QuietMeansBlockedForAReason` | tools/CyMUX/cyMUX/msgq.c:170-232 | when nobody is about to run, consumers sleep only on an empty and producers only on a full queue, never both |
| `Monitor.DeliveryIsFifo` | tools/CyMUX/cyMUX/msgq.c:179-229 | over every run what was received, in order, followed by what waits is what was posted since the last flush |
| `SlotTable.ReserveKeepsConsistent` | tools/CyMUX/cyMUX/connection_manager.c:493-538 | a grant takes the lowest free slot for the caller's id and socket, disturbs no other and fills the responder role only while vacant; when it is granted, and when a ping is due instead |
| `SlotTable.ReleaseUndoesReserve` | tools/CyMUX/cyMUX/connection_manager.c:582-597 | release restores the table from before the grant |
| `SlotTable.ConnectionTable.ReserveConnectionResource` | tools/CyMUX/cyMUX/connection_manager.c:464-553 | the in-place search and update follow the table's meaning, lock timeout included |
| `SlotTable.ConnectionTable.UnreserveConnectionResource` | tools/CyMUX/cyMUX/connection_manager.c:564-607 | asserts the owner first, even on a lock timeout; then frees the slot and drops its waiting requests, or does neither on a timeout, or exits when the broker cannot be locked |
| `MuxThreads.RouteMessage` | tools/CyMUX/cyMUX/worker_thread.c:132-184 | the worker's branches on the real list and ring do what the routing step does, and block iff the client queue is full |
| `MuxThreads.PostResponderQ` | tools/CyMUX/cyMUX/connection_manager.c:980-1043 | likewise for handing a request to the responder or crafting the unavailable reply |
| `MuxThreads.MatchResponse` | tools/CyMUX/cyMUX/connection_manager.c:1143-1154 | likewise for the search of a client responder thread |
| `MuxThreads.ReleaseConnection` | tools/CyMUX/cyMUX/connection_manager.c:564-607 | the end of a connection on the real table and list is the disconnect step, owner assert and lock timeout included |
| `MuxThreads.PingResponder` | tools/CyMUX/cyMUX/connection_manager.c:1182-1201 | the buffer is filled with the ping of the next sequence number and queued, or the caller waits iff the queue is full |
| `MuxThreads.AcceptConnection` | tools/CyMUX/cyMUX/connection_manager.c:464-553 | the start of a connection on the real table, and the ping it may cause, is the connect step |
| `MuxThreads.SendResponse` | tools/CyMUX/cyMUX/connection_manager.c:1057-1109 | the asserts fail as in the send step; else the bytes of the message go to the socket of its slot |
| `MuxThreads.Load` | tools/CyMUX/cyMUX/connection_manager.c:872-874 | received bytes become a message, the rest of the buffer stays |
| `MuxThreads.Unload` | tools/CyMUX/cyMUX/connection_manager.c:1090-1091 | a message becomes its wire bytes inside the 129-byte buffer |
| `MuxThreads.DispatchClientFrame` | tools/CyMUX/cyMUX/connection_manager.c:931-944 | a client's frame is refused iff malformed, else queued or blocked as the step says |
| `MuxThreads.DispatchAnswer` | tools/CyMUX/cyMUX/connection_manager.c:872-878 | an answer is queued under the resource of the request it answers |
| `MuxThreads.ReportWriteFailure` | tools/CyMUX/cyMUX/sender_thread.c:205-248 | a failed bus write queues the error response with the matching completion code |
| `MuxHistory.Conservation` | tools/CyMUX/cyMUX/ll.c:191-433 | counted over the records, those posted under a resource are those taken, dropped and still waiting |
| `MuxHistory.CountsAreSizes` | tools/CyMUX/cyMUX/ll.c:191-433 | the counts are the sizes of the sets of such records |
| `MuxHistory.SettleRemoves` | tools/CyMUX/cyMUX/ll.c:342-366 | settling one record takes that request alone off the waiting list |
| `MuxHistory.DropIsFlush` | tools/CyMUX/cyMUX/ll.c:401-425 | dropping records of a resource is the flush of the waiting list |
| `MuxInvariants.StepKeepsInv` | tools/CyMUX/cyMUX/worker_thread.c:126-186 | every step of every thread keeps queues, slots, records and marriages sound |
| `MuxInvariants.PingIsRequest` | tools/CyMUX/cyMUX/connection_manager.c:1182-1198 | a ping is a valid request to the multiplexer that any queue accepts |
| `MuxTheorems.EveryQueuedMessageFits` | tools/CyMUX/cyMUX/connection_manager.c:774-775 | on every run each queued message has length 1 to 128 and an even, non-zero address, so copies stay in the 129-byte buffers |
| `MuxTheorems.AssertsThatNeverFail` | tools/CyMUX/cyMUX/connection_manager.c:1066-1073 | on no run do the asserts on worker posts, response length or slot owner fail |
| `MuxTheorems.SlotsAreExclusive` | tools/CyMUX/cyMUX/connection_manager.c:464-607 | on every run, lock timeouts included, live connections hold distinct slots, one at most is responder, and the table is consistent |
| `MuxConnections.ConnectionsCanEnd` | tools/CyMUX/cyMUX/connection_manager.c:176-184 | a client can leave at any time, a responder while its thread holds nothing |
| `MuxConnections.DisconnectCleansUp` | tools/CyMUX/cyMUX/connection_manager.c:582-597 | in every reachable state the end of a connection frees its slot, takes exactly the requests waiting under it off the broker, and changes nothing else |
| `MuxConnections.DisconnectWithoutLock` | tools/CyMUX/cyMUX/connection_manager.c:574-579 | on a lock timeout slot and requests stay |
| `MuxConnections.WaitingSinceRelease` | tools/CyMUX/cyMUX/connection_manager.c:587-597 | on every run through the end of a connection, whatever waits under its slot afterwards was posted after that end |
| `MuxConnections.ConnectGrantsIff` | tools/CyMUX/cyMUX/connection_manager.c:493-538 | in every reachable state a connection is granted iff a slot is free and, for a responder, the role is; it gets the lowest one and nobody else notices |
| `MuxConnections.RefusalPingsIff` | tools/CyMUX/cyMUX/connection_manager.c:508-516 | a second responder is turned away and exactly one ping queued, byte by byte, with the next sequence number; other refusals leave no trace |
| `MuxConnections.PingBytes` | tools/CyMUX/cyMUX/connection_manager.c:1189-1195 | the seven bytes of a ping |
| `MuxRouting.QueuesAreFifo` | tools/CyMUX/cyMUX/msgq.c:170-229 | every step appends to a queue, takes its oldest message or leaves it, except that a lost responder empties the responder queue |
| `MuxRouting.TakersGetTheOldest` | tools/CyMUX/cyMUX/worker_thread.c:127 | each thread's get leaves it holding the oldest message of its queue |
| `MuxRouting.PostersAddWhatTheyHold` | tools/CyMUX/cyMUX/worker_thread.c:157-182 | each thread's post adds what it holds as the newest, and only that |
| `MuxRouting.LostResponders` | tools/CyMUX/cyMUX/connection_manager.c:790-864 | a failing responder empties its queue and yields the unavailable reply to the requester; a broken read just ends the thread |
| `MuxRouting.WorkerWaitsOnlyForRoom` | tools/CyMUX/cyMUX/msgq.c:170-232 | the worker waits exactly while the queue it takes from is empty or the one it posts to is full |
| `MuxRouting.ClientFrameIsQueuedIff` | tools/CyMUX/cyMUX/connection_manager.c:931-943 | in every reachable state a client's bytes are queued whole under its slot iff they are a valid request not to 0; malformed ones leave no trace |
| `MuxRouting.BusFrameIsQueued` | tools/CyMUX/cyMUX/receiver_thread.c:141-163 | a frame from the bus is queued as it came, under the bus's resource |
| `MuxRouting.AnswerIsQueued` | tools/CyMUX/cyMUX/connection_manager.c:872-878 | an answer is queued whole under the resource of its request |
| `MuxRouting.RoutedExactly` | tools/CyMUX/cyMUX/worker_thread.c:132-184 | in every reachable state exactly which messages go to the client queue, the responder, the sender and the broker, and which take a request off it |
| `MuxRouting.ForwardedExactly` | tools/CyMUX/cyMUX/connection_manager.c:993-1004 | the responder gets the request iff there is one; otherwise its queue is emptied and the reply 0xD3 made |
| `MuxRouting.TimeoutsAreFatal` | tools/CyMUX/cyMUX/connection_manager.c:1066-1067 | exactly which threads a lock timeout stops |
| `MuxRouting.MatchedExactly` | tools/CyMUX/cyMUX/connection_manager.c:1143-1154 | a response nobody waits for is dropped; any other is bound for the slot of the request it takes |
| `MuxRouting.SentExactly` | tools/CyMUX/cyMUX/connection_manager.c:1057-1109 | in every reachable state a response is written iff its slot has a connection and the socket takes it, and is counted once |
| `MuxRouting.WriteFailureIsReported` | tools/CyMUX/cyMUX/sender_thread.c:161-248 | a failed write queues one reply to a requester that can be reached, echoing its key, with the completion code of each bus error; else nothing |
| `MuxTheorems.RequestsAreConserved` | tools/CyMUX/cyMUX/connection_manager.c:1135-1155 | on every run the sets of records posted under a slot, taken, dropped and waiting add up, and no slot is sent more responses than requests posted under it |
| `MuxTheorems.AnswersFitTheirRequests` | tools/CyMUX/cyMUX/ll.c:272-283 | on every run each waiting request is valid, and whatever was taken is a response agreeing on address, NetFn and command, addressed to the multiplexer exactly for requests from sockets: no bus request is settled by a response for a client or the reverse |
| `MuxTheorems.FatesAreFinal` | tools/CyMUX/cyMUX/ll.c:347-365 | along every run no request is answered twice, or after it was dropped |
| `MuxTheorems.EchoReachesItsSlot` | tools/CyMUX/cyMUX/connection_manager.c:1143-1149 | in every reachable state with distinct keys an echoing response is sent to the slot that posted the request |
| `MuxTheorems.ErrorReplyComesHomeIff` | tools/CyMUX/cyMUX/IPMB.c:193-221 | an error reply takes a request of the same key and origin off the broker iff the requester's address is even, non-zero, and the multiplexer's own exactly for socket requests |
| `MuxTheorems.ErrorReplyIsRouted` | tools/CyMUX/cyMUX/worker_thread.c:132-184 | such a reply settles an I2C request of that key and goes to the bus, or goes to the client queue |
| `MuxTheorems.ErrorReplyIsMarried` | tools/CyMUX/cyMUX/connection_manager.c:1143-1154 | the thread that takes it from the client queue, at whatever later time, takes a socket request of that key off the broker and sends to its slot, while the request waits |
| `MuxPings.PingsNeverReachTheBroker` | tools/CyMUX/cyMUX/connection_manager.c:1182-1201 | unless a ping is answered by a valid request to somebody else no waiting request carries the ping resource and every response sent has a slot of 0 to 4, so that assert holds |
| `MuxPings.RudeAnswerReachesTheBrokerIff` | tools/CyMUX/cyMUX/worker_thread.c:161-168 | an answer to a ping gets into the broker iff it is itself a valid request to somebody else |
| `MuxPings.RepliesCanBeCrafted` | tools/CyMUX/cyMUX/connection_manager.c:1022-1043 | unless a ping is answered by a malformed request to the multiplexer every error reply can be crafted, on every run |
| `MuxPings.MalformedAnswerCanBeFatal` | tools/CyMUX/cyMUX/connection_manager.c:794-796 | any such answer has a schedule on which the assert after post_no_responder fails |
| `MuxFaults.ClientPostFailsIff` | tools/CyMUX/cyMUX/connection_manager.c:931-943 | the assert on a client's post fails iff the frame is a valid request to address 0 |
| `MuxFaults.ResponderPostFailsIff` | tools/CyMUX/cyMUX/connection_manager.c:872-878 | the assert on an answer's post fails iff the answer has one byte or goes to an address that is odd or zero |
| `MuxFaults.ReplyPostFailsIff` | tools/CyMUX/cyMUX/connection_manager.c:1022-1043 | in every reachable state the post of an error reply fails iff the reply answers a valid request from an odd or zero address |
| `MuxFaults.CraftFailsIff` | tools/CyMUX/cyMUX/connection_manager.c:1022-1043 | in every reachable state crafting the reply fails iff the request held is malformed, and it has then come of a ping |
| `MuxFaults.NoResponderAssertFailsIff` | tools/CyMUX/cyMUX/connection_manager.c:993-997 | from the worker finding no responder to the end of its call, whatever other threads do between: the assert fails iff the message is no valid request or the requester's address is odd or zero, else the reply is queued |
| `MuxFaults.LostResponderAssertFailsIff` | tools/CyMUX/cyMUX/connection_manager.c:790-821 | the same of the responder thread when its responder fails |
| `MuxFaults.BadRequesterIsFatalIff` | tools/CyMUX/cyMUX/connection_manager.c:993-997 | from any quiet state without a responder there is a schedule on which a client's valid request to 0x10 makes that assert fail iff its own address is odd or zero |
| `MuxFaults.BadRequesterIsFatalToResponderIff` | tools/CyMUX/cyMUX/connection_manager.c:790-821 | likewise with a responder that fails on the request |
| `MuxScenarios.BusExchange` | tools/CyMUX/cyMUX/worker_thread.c:161-182 | from any quiet state there is a schedule on which a client's bus request and the device's response pass all threads; the client gets it once and all else is as before |
| `MuxScenarios.FirstClientIsServed` | tools/CyMUX/cyMUX/worker_thread.c:161-182 | starting from the empty system there is a run that connects a client and serves it so |
| `MuxScenarios.BusFailure` | tools/CyMUX/cyMUX/sender_thread.c:161-170 | when the bus refuses, there is a schedule on which a client that gave address 0x10 gets the error response with the failure's completion code |
| `MuxScenarios.ResponderExchange` | tools/CyMUX/cyMUX/connection_manager.c:762-880 | there is a schedule on which a request to the multiplexer reaches the responder and its answer the client |
| `MuxScenarios.NoResponderExchange` | tools/CyMUX/cyMUX/connection_manager.c:993-997 | without a responder there is a schedule on which a client that gave address 0x10 is told the destination is unavailable |
| `MuxScenarios.I2cExchange` | tools/CyMUX/cyMUX/worker_thread.c:133-182 | there is a schedule on which a request from the bus reaches the responder and its answer the bus, settling the request |
| `Links.GetResourceLink` | CTS/sources/cts_core/commons/links_factory.py:46-59 | a link is absolute with a rooted path, and an absolute url with a rooted path is its own link |
| `Links.LinkParts` | CTS/sources/cts_core/commons/links_factory.py:46-59 | scheme, host and path of a link: the url's own where it has them, else the factory's scheme and the override or endpoint, with a slash before a relative path |
| `Links.ResolvedStaysResolved` | CTS/sources/cts_core/commons/links_factory.py:46-59 | resolving a link again, under whatever override, changes nothing |
| `Container.AddKeepsIndexIff` | CTS/sources/cts_core/discovery/discovery_container.py:201-230 | an add keeps the tables exact iff the url is not stored under another type |
| `Container.AddFrame` | CTS/sources/cts_core/discovery/discovery_container.py:201-230 | an add stores the resource, puts its row last in its table, and keeps every other resource, row and table |
| `Container.DeleteFrame` | CTS/sources/cts_core/discovery/discovery_container.py:248-258 | a delete keeps every other resource, row and table |
| `Container.OthersRows` | CTS/sources/cts_core/discovery/discovery_container.py:221-224 | dropping a url's rows drops those and no others |
| `Container.OthersKeepOrder` | CTS/sources/cts_core/discovery/discovery_container.py:221-224 | and keeps the order of the others |
| `Container.DeleteKeepsIndex` | CTS/sources/cts_core/discovery/discovery_container.py:248-258 | a delete always keeps them exact |
| `Container.RunKeepsIndex` | CTS/sources/cts_core/discovery/discovery_container.py:201-258 | so on every run of adds and deletes that never retypes a live url the rows are the stored resources, one each |
| `Container.CountsAgree` | CTS/sources/cts_core/discovery/discovery_container.py:308-310 | counting rows is counting the stored resources of the type |
| `Container.DiscoveryContainer.AddResource` | CTS/sources/cts_core/discovery/discovery_container.py:201-230 | the in-place update of dictionary and table, resources without id left out |
| `Container.DiscoveryContainer.DeleteResource` | CTS/sources/cts_core/discovery/discovery_container.py:248-258 | removes the url and its row; fails iff there is no such url or table |
| `Container.DiscoveryContainer.CountResources` | CTS/sources/cts_core/discovery/discovery_container.py:299-310 | the number of rows, and of stored resources while the tables are exact |
| `Container.DiscoveryContainer.GetResources` | CTS/sources/cts_core/discovery/discovery_container.py:312-338 | the resource behind each row in order, failing iff a row's url is not stored; while the tables are exact every stored resource of the type, once, and nothing else |
| `Bodies.MentionIsFoundIff` | CTS/sources/cts_core/discovery/api_explorer.py:192-209 | an @odata.id a body mentions at any depth is found iff it holds no equals sign; otherwise the part before the sign is |
| `Bodies.FoundIsMentioned` | CTS/sources/cts_core/discovery/api_explorer.py:192-209 | conversely what is found is mentioned, up to its first equals sign, in every body whose keys hold none |
| `Bodies.PagedLinkIsMissed` | CTS/sources/cts_core/discovery/api_explorer.py:192-194 | the link of a second page is one that is missed |
| `Bodies.ListInListIsNotSearched` | CTS/sources/cts_core/discovery/api_explorer.py:196-209 | an id inside a list directly inside a list is found iff it is found elsewhere |
| `Explorer.TopLevelId` | CTS/sources/cts_core/discovery/api_resource.py:82 | a body has an id iff some field, wherever it stands, is @odata.id and not null, and the id is its text |
| `Explorer.NewItemsExactly` | CTS/sources/cts_core/discovery/api_explorer.py:166-180 | exactly which items are enqueued for the ids of a body, with which type and override |
| `Walk.WalkEndsIff` | CTS/sources/cts_core/discovery/api_explorer.py:104-180 | a walk over finitely many links ends iff no turn of it finds an item that leads round and round among resources without @odata.id |
| `Walk.WalksEndIff` | CTS/sources/cts_core/discovery/api_explorer.py:104-180 | without walking: all walks over the links end iff there is no such item over them |
| `Walk.DoneUnlessDoomed` | CTS/sources/cts_core/discovery/api_explorer.py:166-180 | an item is of that kind iff the chains of resources without @odata.id from it have no common bound |
| `Walk.EndlessNeverEnds` | CTS/sources/cts_core/discovery/api_explorer.py:121-180 | with an item of a set that leads back into itself in the queue, the queue is never empty again |
| `Walk.SelfLinkWithoutIdNeverEnds` | CTS/sources/cts_core/discovery/discovery_container.py:209-211 | the smallest such set: a resource without @odata.id that mentions itself |
| `Walk.NamedBodiesEnd` | CTS/sources/cts_core/discovery/discovery_container.py:209-211 | there is none when every body not stored before carries an @odata.id |
| `Walk.TurnStoresIff` | CTS/sources/cts_core/discovery/api_explorer.py:129-164 | a turn stores its link iff it gives an answer, good or bad, with an @odata.id, and nothing else |
| `Walk.TurnQueuesExactly` | CTS/sources/cts_core/discovery/api_explorer.py:153-180 | what a turn appends to the queue, and in which order |
| `Walk.WalkFailsIff` | CTS/sources/cts_core/discovery/api_explorer.py:149-164 | a walk reports failure iff something went wrong with an item it took up |
| `Walk.ExploreProgress` | CTS/sources/cts_core/discovery/api_explorer.py:121-164 | each turn stores one more link or takes a turn off what the queue can still lead to |
| `Walk.ExploreKeepsProgress` | CTS/sources/cts_core/discovery/api_explorer.py:153-180 | after each turn every storable @odata.id that an explored body mentions, unless it holds an equals sign, is stored or queued |
| `Tables.TurnKeepsIndexIff` | CTS/sources/cts_core/discovery/api_explorer.py:144-164 | one turn keeps the tables exact iff the type of the url pattern and the expected type do not give the resource two types |
| `Tables.UntypedBodyLeavesRow` | CTS/sources/cts_core/discovery/api_resource.py:83-86 | a body without @odata.type whose link is expected to be of another type than its pattern leaves a stale row |
| `Tables.TrackedIndexIff` | CTS/sources/cts_core/discovery/api_explorer.py:104-164 | at the end of a walk the tables are exact if every new resource has the type of its pattern, as bodies with a type do, and only then if the container was not empty |
| `ApiExplorer.ApiExplorer.GetAllOdataId` | CTS/sources/cts_core/discovery/api_explorer.py:166-180 | enqueues exactly the fetchable ids not yet stored, in order |
| `ApiExplorer.ApiExplorer.GetResource` | CTS/sources/cts_core/commons/api_caller.py:300-318 | fetches, and stores the resource unless the container is still empty |
| `ApiExplorer.ApiExplorer.ExploreResource` | CTS/sources/cts_core/discovery/api_explorer.py:129-164 | one resource explored in place is one turn of the worklist, with the whole contents of container and tables, which stay exact iff it is not stored under two types |
| `ApiExplorer.ApiExplorer.ExploreNextResource` | CTS/sources/cts_core/discovery/api_explorer.py:121-127 | takes the front of the queue, if any |
| `ApiExplorer.ApiExplorer.Discover` | CTS/sources/cts_core/discovery/api_explorer.py:89-116 | terminates on every finite service, cyclic or not, on which no turn meets an item that leads round and round; then every fetchable @odata.id mentioned in a newly stored body whose resource has an @odata.id field is stored, unless it holds an equals sign; failure iff an item went wrong; when the tables are exact |
| `Golden.CompareRecursively` | CTS/sources/cts_core/commons/json_comparator.py:45-81 | the loops decide exactly the recursive order |
| `Golden.OnlyGoldenFieldsCount` | CTS/sources/cts_core/commons/json_comparator.py:45-81 | at any depth, values that differ only in fields the golden one lacks, in ignored fields, or in order and repetition of list elements pass or fail together |
| `Golden.SayingMoreKeepsPasses` | CTS/sources/cts_core/commons/json_comparator.py:45-81 | a pass stays a pass when fields or list elements are added at any depth |
| `Golden.OtherFieldsDoNotCount` | CTS/sources/cts_core/commons/json_comparator.py:52-60 | a field the golden dict lacks or an ignored one may be added, changed or removed |
| `Golden.GoldenFieldsCount` | CTS/sources/cts_core/commons/json_comparator.py:52-60 | any other golden field has to be there and pass |
| `Golden.FieldByField` | CTS/sources/cts_core/commons/json_comparator.py:52-60 | a dict passes iff one field passes and the rest does |
| `Golden.ListsPassIff` | CTS/sources/cts_core/commons/json_comparator.py:61-75 | a list passes iff every golden element has one that passes |
| `Golden.PlainValues` | CTS/sources/cts_core/commons/json_comparator.py:149-163 | plain values pass iff equal, floats iff less than 1e-8 apart |
| `Golden.Reflexive` | CTS/sources/cts_core/commons/json_comparator.py:45-81 | every value passes as its own golden value |
| `Golden.Transitive` | CTS/sources/cts_core/commons/json_comparator.py:45-81 | passing is transitive when no float is compared, through nested existential list matching |
| `Golden.TransitiveIff` | CTS/sources/cts_core/commons/json_comparator.py:154-163 | over real numbers it is transitive from a golden value only then: any compared float, at any depth, gives two passing steps whose composition fails |
| `Golden.IgnoringMoreKeepsPasses` | CTS/sources/cts_core/commons/json_comparator.py:53-54 | a longer ignore list never turns a pass into a failure |
| `Patch.CreateData` | CTS/sources/cts_core/commons/json_helpers.py:59-80 | the reverse loop builds the payload and updates one cell of the collection, or raises and changes nothing |
| `Patch.WrapPads` | CTS/sources/cts_core/commons/json_helpers.py:74-78 | one path element gives a dict of one key, or a list of index + 1 elements, all but the last empty dicts |
| `Patch.PayloadSetsNothingElse` | CTS/sources/cts_core/commons/json_helpers.py:74-80 | beside its path a payload holds nothing, at any depth |
| `Patch.PayloadRaisesIff` | CTS/sources/cts_core/commons/json_helpers.py:69-72 | exactly when the collection has no such element |
| `Patch.GetValueFromPath` | CTS/sources/cts_core/discovery/api_resource.py:148-167 | the cursor loop is the recursive lookup, errors included |
| `Patch.SubscriptOutcomes` | CTS/sources/cts_core/discovery/api_resource.py:156-165 | which subscripts succeed, with which value, and which error the others raise |
| `Patch.BuildThenLookupIff` | CTS/sources/cts_core/commons/json_helpers.py:74-80 | looking up the path of a payload gives the value back iff no index is below -1 |
| `Patch.PatchKeepsOtherElements` | CTS/sources/cts_core/commons/json_helpers.py:69-72 | patching one element sends the whole collection, no longer and no shorter, with the new value at its index and every other element unchanged |

## Left out

- Worker, dispatcher and sender loops: the endless loops themselves are steps of `Mux` on values, because where threads interleave is what matters there; their bodies on the shared objects are in `MuxThreads`.
- `client_registration`, `ack_registration`, `nack_registration`, `process_new_connections`: only sockets, `select` and thread creation.
- Deadlock freedom across queues and "every request is answered": the program does not promise them; threads can block on one another's queues, and requests flushed from the responder queue get no reply.
- Isolation of a slot from frames still in the worker queue, or between `ll_get` and `send_response`, when its connection ends: `StaleSlot` is a possible fault of the model.
- Errors from `pthread_cond_wait` and thread cancellation in `Monitor`: a thread in a wait loop leaves it only by finding what it waits for.
- `ll_destroy`, `msgq_destroy`, shutdown order: never reached from the accept loop.
- Errors from the queues' and the broker's own mutexes in `Mux`: they are parameters of the objects in `MsgQueue` and `Broker`, and the threads exit or assert on them.
- Command-line parsing, usage text and debug dumps, except the address and NetFn checks of cytool.
- `Golden.TransitiveIff`: over real numbers; NaN, infinities and the spacing of doubles are not modelled, and doubles of 2^26 and more, which lie further apart than the tolerance, compare exactly.
- `ApiExplorer.ApiExplorer.Discover`: requires that finitely many links can be met, and that no turn meets an item that leads round and round. The second is exact (`WalkEndsIff`); without the first a walk may or may not end. That tables are exact only if all new resources agree with their patterns is stated for a container that was not empty, because in an empty one the first resource is added once.
- `ApiExplorer.ApiExplorer.ExploreResource`: bodies are JSON objects. On any other body the source raises out of `discover`, except for an empty list or string, which behaves as an empty object.
- `MuxScenarios.BusExchange` and the other exchanges: one schedule each, not every interleaving; what holds on all schedules is in `MuxTheorems`, `MuxPings` and `MuxFaults`.
- JSON-pointer fragments in links, metadata processing (which sub-elements a type has is a parameter), how url patterns are registered (the type they give a link is a parameter, asked once at most for each link that gets stored), pickling, HTTP and text encoding in `ApiExplorer`.
- Constraints and type versions in `DiscoveryContainer`: filters over the same rows.
- Aliasing of the shared empty dicts that `create_data` pads with, and of the collection inside the payload: values are copies.
- PSME agents, simulators, the encrypter and the rest of the repository.
