# Verification of the gateway's request/response core

modbus_gateway is a multiplexing proxy. Slaves (`ModbusTcpConnection`, `ModbusRtuSlave`) accept requests, remember the last
one, and route it by unit id. Masters (`ModbusTcpClient`, `ModbusRtuMaster`) queue requests, drop those that have expired,
put one at a time on the wire under a wrapping 16-bit transaction id, race the reply against a timer, and send the reply back
under the info saved with the request. This project models these actors, the exchange between them, the buffers they convert
in place, the routing table and the validator of unit id ranges, and proves what holds of every run.

`dafny verify dfyconfig.toml` checks everything.

## How the model is built

Handlers run one at a time (`context->run()` is called from one thread, src/modbus_gateway.cpp:235, although the
configuration documents a `threads` option), so each completion handler is one atomic step.

| layer | files | contents |
|---|---|---|
| values and shared objects | `messages.dfy`, `limit_queue.dfy`, `ports.dfy`, `request_pipe.dfy` | frames, infos, `ModbusBuffer`, `ModbusMessage`, `LimitQueue`, pending asynchronous operations, the fields both masters have in common |
| actors | `modbus_rtu_master.dfy`, `modbus_tcp_client.dfy`, `modbus_slaves.dfy` | the four classes, one method per handler; each is proved to do what the step function of its state machine does, and to write to no buffer but the one it puts on the wire |
| state machines | `pipeline.dfy`, `expiry.dfy`, `pending_io.dfy`, `rtu_master.dfy`, `tcp_client.dfy`, `slave.dfy` | the same handlers as functions on values, with histories; invariants of single steps |
| runs | `masters.dfy`, `master_runs.dfy`, `rtu_master_runs.dfy`, `tcp_client_runs.dfy`, `tcp_client_links.dfy`, `slave_runs.dfy` | what holds of every run of a master or a slave, much of it in terms of the events alone, and runs that show where a hypothesis is needed |
| gateway | `gateway.dfy`, `gateway_invariant.dfy`, `gateway_steps.dfy`, `gateway_theorems.dfy`, `gateway_identity.dfy`, `gateway_exact.dfy`, `gateway_routing.dfy`, `gateway_masters.dfy`, `gateway_slaves.dfy`, `gateway_provenance.dfy`, `gateway_end_to_end.dfy`, `gateway_witnesses.dfy` | any number of slaves that come and go, any masters and routes, mail with arbitrary delay and order, a heap of buffers; the inductive invariant and the end-to-end theorems |
| configuration | `unit_ids.dfy`, `routing.dfy` | the interval set and coverage counter, the arrangement of masters, the route table |

An event of a state machine is a handler with everything the handler cannot know in advance: error codes, clock readings
(`clock(k)` is the k-th reading during one handler), the verdicts of `SetAduSize` and `Check`, the frame that was read, the
identity of a newly allocated buffer. A run is any sequence of enabled events from an initial state. A completion may report
an abort only if something cancelled its operation; pending connects may end in any way, and closing the socket does not
restrict them.

Some fields exist only in the model: the histories (`received`, `fates`, `dispatched`, `delivered`, `accepted`, `consumed`,
`written`, ...), the serial number `tag` of an accepted request, and `answers`, the dispatch that a frame really answers, which
only the remote device knows. No handler branches on them.

The buffer class of the modbus library is not part of this model beyond a contract: `ConvertTo` and `Update` keep the unit id
and the PDU. `size_t` has 64 bits; unit ids range over 1..247 (section 2.2 of MODBUS over Serial Line V1.02); a transaction id
is two bytes (section 3.1.3 of MODBUS Messaging on TCP/IP Implementation Guide V1.0b).

## Where the code does not do what it seems meant to do

- `WaitConnect` is never assigned, so several connects can be pending at once: `TcpClientRuns.ManyConnects` reaches any
  number, and `SingleConnectIff` says when it stays at one. The client can then be Idle with a request on the wire
  (`IdleWhileSending`); `IdleBusyIff` says exactly when: a connect fails while an operation is pending.
  `TcpClient.StepKeepsInv` shows that at most one of send and receive is pending all the same.
- A reply of an invalid size is dropped without freeing the slot. `MasterRuns.TrappedIff` and
  `TrappedForever` show that this, and a read that completes after the exchange has died, are exactly the ways to stop a
  master for good; `TrapIsReachable` is such a run of either master.
- Error completions do not look at the queue. `IdleSinceIff` says exactly when requests are left waiting,
  `IdleWorkIsReachable` is a run that leaves one, and `RunRecovers` says what the next message or connect then does.
- A timer handler that was already queued cancels whatever is pending on the port. `StaleTimerAbortsLaterRequest` is such a
  run of either master, `MasterRuns.HitsLaterIff` says exactly which handlers do it, and the invariants hold regardless.
- RTU and ASCII frames carry no identifier, so a late reply is attributed to the next request: `RtuMasterRuns.AttributionIff`
  and `LateReplyIsMisattributed`. `CleanRunIsRight` shows that this takes an earlier request that left the slot by an error or
  a rejected frame.
- On the TCP side attribution fails if and only if a reply is read a positive multiple of 2^16 dispatches after its request:
  `TcpClientRuns.AttributionIff` and `WrappedReplyIsMisattributed`.
- A response may be taken for a request other than the one it was made for. `GatewayExact.ExactIff` and `AllHomeIff` say
  exactly when: it is delivered after a later request of that slave was accepted under the same transaction id, or after its
  actor id was given to another slave. `GatewayWitnesses.ReusedIdsAreConfused` are such runs.
- `LimitQueue::Push` tests `>`, so the queue holds up to `MaxSize() + 1` elements (`LimitQueues.WindowIsTight`);
  `BoundHoldsIff` says exactly when the intended bound holds.
- The coverage counter adds one less than the size of a longer range and the threshold is one less than the number of unit
  ids. `UnitIds.PassesIff` is the exact condition; `FullCoverageRefused` is a family of configurations that cover everything
  and are refused, and `OneUncoveredPasses` has one that leaves a unit id uncovered and passes. The validator itself is
  commented out of the build (src/config/CMakeLists.txt:21).
- The route table has 255 entries, so unit id 255 is a precondition of `Route` and `Set`; what the slaves find past its
  end is an input. With a range ending at 255 the eight-bit loop of `MakeRouter` would not end (`Routing.LoopEndsIff`).

## Model

| member | source | states |
|---|---|---|
| LimitQueues.LimitQueue.Push | src/common/include/common/limit_queue.h:21-26 | appends, dropping the oldest element first only when there are more than `MaxSize()` |
| LimitQueues.LimitQueue.Pop | src/common/include/common/limit_queue.h:28-30 | removes the oldest element and nothing else |
| LimitQueues.Window | src/common/include/common/limit_queue.h:21-30 | after any pushes and pops the contents are a contiguous suffix of everything pushed, of at most `MaxSize() + 1` elements |
| LimitQueues.BoundHoldsIff | src/common/include/common/limit_queue.h:21-30 | along any pushes and pops the size stays within `MaxSize()` if and only if no push meets a queue of exactly that size |
| LimitQueues.WindowIsTight | src/common/include/common/limit_queue.h:21-26 | pushing n values leaves exactly the last min(n, `MaxSize() + 1`), so the bound is attained |
| Messages.ModbusMessage.TimeoutReached | src/message/modbus_message_info.cpp:9-19 | answers whether the flag was set or the deadline has passed, and sets the flag to the answer |
| Messages.ChecksAreSticky | src/message/modbus_message_info.cpp:9-19 | the i-th of successive checks says yes if and only if some reading up to it was late |
| Messages.StickyAgreesWithClock | src/message/modbus_message_info.cpp:9-19 | with one timeout and a clock that never goes back, every sticky answer is the direct comparison |
| Pipeline.FatesPartition | src/transport/modbus_tcp_client.cpp:116-142 | the messages that left the queue are, with multiplicity, those evicted, timed out and sent |
| Pipeline.EnqueueConserves | src/transport/modbus_tcp_client.cpp:53-58 | queueing keeps conservation: received = processed prefix ++ queue |
| Pipeline.AdvanceConserves | src/transport/modbus_rtu_master.cpp:75-110 | expiry loop and dispatch keep conservation: the prefix splits in order into late messages dropped and timely ones dispatched, under ids 1, 2, 3, ... modulo 2^16 |
| Pipeline.RespondConserves | src/transport/modbus_tcp_client.cpp:223-263 | a response keeps the deliveries an order-preserving, at-most-once subsequence of the dispatches, each with the info of its request |
| Pipeline.AdvanceShape | src/transport/modbus_rtu_master.cpp:75-110 | what is left of queue, slot and dispatches after the expiry loop: exactly the expired prefix is gone, and the next message if the slot was free |
| Expiry.LoopIsFilter | src/transport/modbus_rtu_master.cpp:86-97 | on a queue ordered by creation time and a monotone clock, popping the expired prefix leaves exactly the messages unexpired at the last check |
| Expiry.AdvanceStartsEarliestUnexpired | src/transport/modbus_tcp_client.cpp:122-142 | the earliest unexpired message is started, and nothing is if there is none |
| PendingIo.StartWaitAndReadSound | src/transport/modbus_rtu_master.cpp:152-188 | after arming the timer the new read is the only operation pending, covered by a wait of its own under a new number |
| PendingIo.EndWaitSound | src/transport/modbus_tcp_client.cpp:197-221 | any timer completion, stale or not, keeps every pending read covered: own wait pending, or expired and port cancelled, or ended in an error |
| RtuMaster.StepKeepsInv | src/transport/modbus_rtu_master.cpp:68-266 | every handler keeps: conservation, at most one of write and read pending, only with an occupied slot that owns the buffer written, timer cover; the slot becomes trapped exactly by the two early returns |
| RtuMaster.RunInv | src/transport/modbus_rtu_master.cpp:68-266 | the invariant holds in every state of every run |
| MasterRuns.RunInv | src/transport/modbus_tcp_client.cpp:53-322 | in every run of either master the invariant holds and the master stays the kind it is |
| MasterRuns.NothingEvicted | src/common/include/common/limit_queue.h:18-26 | up to 2^64 received messages, no run evicts anything from a master's queue |
| MasterRuns.ReceivesExactly | src/transport/modbus_tcp_client.cpp:53-58 | in every run of either master the messages received are exactly those of the receive events, in order, whatever the master is doing when they come, so conservation accounts for every one of them |
| MasterRuns.TrappedIff | src/transport/modbus_rtu_master.cpp:196-240 | slot set with nothing pending is reached if and only if some read completed on a dead exchange or with an invalid size |
| MasterRuns.SlotExact | src/transport/modbus_rtu_master.cpp:107-150 | until then the slot is occupied if and only if exactly one of write and read is pending |
| MasterRuns.TrappedForever | src/transport/modbus_tcp_client.cpp:117-120 | a trapped master never dispatches or delivers again, however often it reconnects, and its queue never shrinks |
| MasterRuns.StaleIffCancelled | src/transport/modbus_rtu_master.cpp:152-216 | in every run, unless the slot is trapped, a pending wait belongs to the pending read if and only if its timer was not cancelled, so only an already queued handler can abort a later request |
| MasterRuns.HitsLaterIff | src/transport/modbus_tcp_client.cpp:197-220 | in every run, unless the slot is trapped, an expiry handler cancels an operation other than its own request's read if and only if its timer was cancelled before and an operation is pending |
| MasterRuns.ExpiryCancels | src/transport/modbus_tcp_client.cpp:197-220 | in every run an expiry handler cancels every write and read that is pending, starts and ends none, and ends no wait but its own |
| MasterRuns.AbortHasCause | src/transport/modbus_tcp_client.cpp:197-220 | a cancelled read was cancelled by an expiry handler that found the timer expired and cancelled the port while this read was pending; it was the read's own wait if and only if its timer was not cancelled before |
| MasterRuns.CancelledWriteHasCause | src/transport/modbus_rtu_master.cpp:157-180 | a cancelled write was cancelled by a stale expiry handler, whose timer had been cancelled before, while this write was pending |
| RtuMasterRuns.IdleWorkIff | src/transport/modbus_rtu_master.cpp:140-144 | after a step work is idle if and only if an error completion freed the slot with messages queued, or it was idle before and no message came |
| RtuMasterRuns.IdleSinceIff | src/transport/modbus_rtu_master.cpp:140-144 | in every run work is idle if and only if some error completion freed the slot with messages queued and no message was received since |
| RtuMasterRuns.NextReceiveRecovers | src/transport/modbus_rtu_master.cpp:68-105 | the next message received starts the earliest unexpired one, or empties the queue if all are late |
| RtuMasterRuns.RunRecovers | src/transport/modbus_rtu_master.cpp:68-105 | so it does in every state of every run that received its messages in the order of their creation |
| RtuMasterRuns.ReplyStartsNext | src/transport/modbus_rtu_master.cpp:219-228 | in every run a reply that ends a request lets the earliest queued message that is not late follow at once |
| RtuMasterRuns.TrapIsReachable | src/transport/modbus_rtu_master.cpp:237-240 | a run that traps the slot |
| RtuMasterRuns.IdleWorkIsReachable | src/transport/modbus_rtu_master.cpp:212-216 | a run that leaves a queued message idle |
| RtuMasterRuns.StepDelivers | src/transport/modbus_rtu_master.cpp:219-266 | a step delivers at most one message: the info of the slot's request with the frame just read |
| RtuMasterRuns.AttributionIff | src/transport/modbus_rtu_master.cpp:232-266 | in every run all deliveries answer their own requests if and only if no accepted reply was read after its request had left the slot |
| RtuMasterRuns.InTimeRepliesReachTheirSource | src/transport/modbus_rtu_master.cpp:232-266 | without late replies every delivery carries source and original id of exactly the request its frame answers |
| RtuMasterRuns.CleanRunIsRight | src/transport/modbus_rtu_master.cpp:232-266 | as long as no write or read failed, the exchange is alive and no frame was rejected, a remote side that answers each request at most once makes every delivery right: a misattribution needs an earlier request that left the slot unanswered |
| RtuMasterRuns.LateReplyIsMisattributed | src/transport/modbus_rtu_master.cpp:232-266 | a reachable run in which a late reply is delivered to the wrong source |
| RtuMasterRuns.StaleTimerAbortsLaterRequest | src/transport/modbus_rtu_master.cpp:157-180 | a reachable run in which the expiry handler of one request aborts the read of the next, whose own wait is still pending |
| TcpClient.StepKeepsInv | src/transport/modbus_tcp_client.cpp:53-322 | with any number of pending connects completing in any order: conservation, at most one of send and receive pending and then an occupied slot that owns the buffer sent, timer cover, MessageProcess only with an occupied slot, never WaitConnect |
| TcpClient.RunInv | src/transport/modbus_tcp_client.cpp:53-322 | the invariant holds in every state of every run |
| TcpClientRuns.IdleWorkIff | src/transport/modbus_tcp_client.cpp:174-189 | exactly when queued work has neither a request on the wire nor a connect on its way |
| TcpClientRuns.IdleSinceIff | src/transport/modbus_tcp_client.cpp:174-189 | in every run work is idle if and only if some completion stranded it and no message was received since |
| TcpClientRuns.NextEventRecovers | src/transport/modbus_tcp_client.cpp:53-142 | idle work is recovered by the next message on a kept connection, or by the next successful connect: the earliest unexpired message is sent |
| TcpClientRuns.RunRecovers | src/transport/modbus_tcp_client.cpp:53-142 | so it is in every state of every run that received its messages in the order of their creation |
| TcpClientRuns.ReplyStartsNext | src/transport/modbus_tcp_client.cpp:308-320 | in every run a reply that ends a request lets the earliest queued message that is not late follow at once, whatever connects are pending |
| TcpClientRuns.ConnectsGrowIff | src/transport/modbus_tcp_client.cpp:68-72 | a step starts a connect if and only if it receives a message in Idle |
| TcpClientRuns.SingleConnectIff | src/transport/modbus_tcp_client.cpp:84-113 | in every run at most one connect is ever pending if and only if no message is received in Idle while one is |
| TcpClientRuns.ManyConnects | src/transport/modbus_tcp_client.cpp:84-87 | for every n, a run with n pending connects |
| TcpClientRuns.IdleWhileSending | src/transport/modbus_tcp_client.cpp:96-107 | a run that is Idle with a request on the wire, because the second of two connects failed |
| TcpClientRuns.IdleBusyIff | src/transport/modbus_tcp_client.cpp:96-105 | in every run the client is never Idle with a send or receive pending if and only if no connect fails while one is |
| TcpClientRuns.TrapIsReachable | src/transport/modbus_tcp_client.cpp:229-232 | a run that traps the slot |
| TcpClientRuns.IdleWorkIsReachable | src/transport/modbus_tcp_client.cpp:96-105 | a run that leaves a queued message idle |
| TcpClientRuns.StaleTimerAbortsLaterRequest | src/transport/modbus_tcp_client.cpp:197-220 | a reachable run in which the expiry handler of one request aborts the receive of the next, whose own wait is still pending |
| TcpClientRuns.ReconnectsFirst | src/transport/modbus_tcp_client.cpp:174-183 | after a failure that closed the socket nothing is put on the wire before a connect succeeded |
| TcpClientLinks.IdleIff | src/transport/modbus_tcp_client.cpp:87-113 | in every run the client is Idle if and only if every event that opens the connection (a connect that succeeds, a send or receive that is cancelled, a frame read) is followed by one that shuts it (a connect that fails, a send or receive that fails otherwise) |
| TcpClientLinks.ConnectsExactly | src/transport/modbus_tcp_client.cpp:60-113 | in every run the pending connects are the messages received in Idle less the connects completed, counted from the events alone |
| TcpClientLinks.KeptAfterTimeout | src/transport/modbus_tcp_client.cpp:174-181 | after a send or receive that was cancelled, and as long as nothing shuts the connection, the next message received with an empty slot starts no connect and the earliest message that is not late is sent at once |
| TcpClientLinks.DeliveredIff | src/transport/modbus_tcp_client.cpp:236-262 | in every run and for any remote side, a well-formed reply is delivered if and only if it carries the number of the latest dispatch modulo 2^16, and then to the source of that dispatch |
| TcpClientRuns.AcceptedIff | src/transport/modbus_tcp_client.cpp:236-256 | an echoed id passes the check if and only if its request is a multiple of 2^16 dispatches old |
| TcpClientRuns.StepDelivers | src/transport/modbus_tcp_client.cpp:308-320 | a step delivers at most one message: the info of the slot's request with the frame just read |
| TcpClientRuns.AttributionIff | src/transport/modbus_tcp_client.cpp:140-263 | with a remote side that only echoes, in every run all deliveries answer their own requests if and only if no reply wrapped around |
| TcpClientRuns.RepliesReachTheirSource | src/transport/modbus_tcp_client.cpp:223-263 | when no reply is read 2^16 or more dispatches late, every delivery carries source and original id of exactly the request its frame answers |
| TcpClientRuns.DisplacedIsNeverAnswered | src/transport/modbus_tcp_client.cpp:236-256 | a stale reply displaces the request in the slot: nothing is ever delivered for it |
| TcpClientRuns.WrappedReplyIsMisattributed | src/transport/modbus_tcp_client.cpp:140-142 | a reachable run of 2^16 dispatches in which the reply to the first request reaches another source |
| Slave.StepKeepsInv | src/transport/modbus_rtu_slave.cpp:84-222 | every handler keeps: the record is empty or the most recently accepted request; responses use up records of distinct requests in order, with equal ids; the serial side numbers requests 1, 2, 3, ... modulo 2^16 |
| Slave.RunInv | src/transport/modbus_tcp_connection.cpp:97-205 | so in every run two writes always have an accepted request between them |
| Slave.DroppedUnlessMatching | src/transport/modbus_tcp_connection.cpp:156-187 | a response changes the slave if and only if a record is set, it carries the id on record and it is addressed to this slave; then the record is emptied, and it is written if and only if it also has a buffer |
| Slave.SerialConsumesOwnRecord | src/transport/modbus_rtu_slave.cpp:154-165 | a response to the k-th request of a serial slave matches if and only if the record is set and the latest request is a multiple of 2^16 later; below 2^16 it is the very request |
| SlaveRuns.AcceptsExactly | src/transport/modbus_tcp_connection.cpp:78-149 | in every run the requests accepted are exactly the reads that ended with a whole frame while the exchange was alive, in order, each with its time and the id the client sent or, on the serial side, its number modulo 2^16; id and kind never change |
| SlaveRuns.TakesIff | src/transport/modbus_tcp_connection.cpp:152-205 | in every run of either kind, a response empties the record, and is written if it has a buffer, if and only if it is addressed to this slave and carries the id of the latest request accepted, which no response has taken yet; otherwise nothing changes |
| SlaveRuns.ReadsUntilClosed | src/transport/modbus_tcp_connection.cpp:101-149 | a slave started once has exactly one read pending, into the buffer allocated last, until its line is gone or the exchange is |
| Masters.StepFlows | src/transport/modbus_tcp_client.cpp:53-322 | what a master holds after any handler it held before or was just given; a response has the info of the slot's request and the buffer just read; a dispatch takes its message from the queue |
| GatewaySteps.StepKeepsInv | src/modbus_gateway.cpp:184-238 | every step of the composed gateway keeps the placement of all messages and buffers and their contents |
| GatewaySteps.RunInv | src/modbus_gateway.cpp:184-238 | the invariant holds in every state of every run of the gateway |
| GatewayTheorems.AtMostOnce | src/transport/modbus_tcp_connection.cpp:156-182 | frames written by a slave map injectively to requests accepted by that same slave under the same transaction id, and no request is answered twice |
| GatewayTheorems.WireCarriesRequests | src/transport/modbus_tcp_client.cpp:144-150 | every frame put on a wire has unit id and PDU of an accepted request in the framing of the master, on TCP under the master's id, and no request is put on a wire twice |
| GatewayTheorems.WrittenCarriesReplyAndClientId | src/transport/modbus_tcp_connection.cpp:190-194 | every frame a slave writes carries unit id and PDU of the very frame that some event read into a master as the reply, and on TCP the transaction id of the very frame in which the client sent the request, whatever ids were written into buffers on the way |
| GatewayTheorems.NoAliasing | src/transport/modbus_tcp_client.cpp:268-270 | across mail, queues, slots, pending reads and pending writes, different live places hold different buffers |
| GatewayProvenance.RequestFromRead | src/transport/modbus_tcp_connection.cpp:97-149 | every accepted request is the frame, time and id of an event in which a slave read it whole; that slave joined under the source id as the kind recorded and has not left before |
| GatewayProvenance.ReadIsAccepted | src/transport/modbus_tcp_connection.cpp:118-143 | and every such event of a run is accepted, for good |
| GatewayProvenance.ReplyFromRead | src/transport/modbus_tcp_client.cpp:223-320 | every reply kept is unit id and PDU of a whole frame that an event read into the master recorded as its origin, for the latest dispatch of that master, whose number it carries on TCP |
| GatewayProvenance.AnswerIsKept | src/transport/modbus_rtu_master.cpp:219-266 | and every such event of a run makes the reply to that dispatch, for good |
| GatewayProvenance.StepPosts | src/transport/modbus_tcp_client.cpp:308-320 | a step puts into the mail exactly the request its event reads, to where its unit id is routed, or the answer its event reads, to the source of the request; and takes out exactly the letter it delivers |
| GatewayProvenance.MailIsConserved | src/transport/modbus_tcp_connection.cpp:140-143 | in every run, all letters put into the mail have been delivered or are still there, with multiplicity, and there are no others |
| GatewayExact.AnswerIsExactIff | src/transport/modbus_tcp_connection.cpp:163-182 | the frame a step writes is for the request whose record it uses up if and only if no later request of that slave was accepted under the same transaction id |
| GatewayExact.ExactIff | src/transport/modbus_tcp_connection.cpp:163-182 | in every run all frames are for the requests whose records they used up if and only if no response was delivered after its request had been superseded |
| GatewayExact.IncarnationIff | src/transport/modbus_tcp_server.cpp:108-117 | an actor id belongs to the same slave at two times of a run if and only if no slave joined under it in between |
| GatewayExact.AllHomeIff | src/transport/modbus_tcp_connection.cpp:156-161 | in every run all frames were written by the slaves that accepted their requests if and only if no response was delivered after its actor id had been given to another slave |
| GatewayExact.FreshIdsSuffice | src/transport/modbus_tcp_connection.cpp:78-95 | accepting no request under an id that an outstanding message of its slave carries is enough for the former |
| GatewayExact.NoReuseSuffices | src/modbus_gateway.cpp:189-191 | giving no actor id to a new slave while a message with that source is outstanding is enough for the latter |
| GatewayRouting.RunIsRouted | src/transport/modbus_tcp_connection.cpp:140-143 | in every run each request is in the mail to, held by, on the wire of and answered by the one master that its unit id is routed to |
| GatewayRouting.WireFollowsConfiguration | src/modbus_gateway.cpp:35-135 | with the table built from configurations and the ids of the actors made for them, a frame is on the wire of the actor made for the last configuration with its unit id, or else for the last one without ranges |
| GatewayMasters.MasterProjection | src/transport/modbus_tcp_client.cpp:31-39 | every master inside the gateway has gone through a run of its own, made of exactly the letters and completions the gateway gave it, in order |
| GatewayMasters.LettersAreReceived | src/transport/modbus_tcp_client.cpp:31-58 | in every run a master has received exactly the letters delivered to it, in order |
| GatewayMasters.WireIsDispatched | src/transport/modbus_rtu_master.cpp:107-150 | in every run the frames on the wire of a master are those of its dispatches, all of them and in order |
| GatewaySlaves.SlaveProjection | src/transport/modbus_tcp_server.cpp:108-117 | every slave inside the gateway has gone through a run of its own since it joined, made of exactly the reads, completions and letters the gateway gave it, in order |
| GatewaySlaves.AnswersIff | src/transport/modbus_tcp_connection.cpp:152-230 | in every run a letter that reaches a slave is written if and only if it takes the latest request of that slave, which no letter took before |
| GatewayEndToEnd.RepliesAnswerTheirRequests | src/transport/modbus_tcp_client.cpp:223-263 | under the hypotheses on the remote devices, the reply made into the response for a request answers the dispatch of that request |
| GatewayEndToEnd.EndToEnd | src/transport/modbus_tcp_connection.cpp:135-205 | with sound remote devices and no superseded response, every frame a slave writes is for a request this very slave accepted, carries unit id and PDU of the frame that an event read in reply to exactly that request into the master its unit id is routed to, in the slave's framing and under the id in the client's own frame, at most once |
| GatewayWitnesses.AnsweredEndToEnd | src/transport/modbus_tcp_connection.cpp:97-205 | a run that meets all hypotheses of the end-to-end guarantee and writes a frame |
| GatewayWitnesses.ReusedIdsAreConfused | src/transport/modbus_tcp_connection.cpp:163-182 | reachable runs with sound remote devices in which a response is taken for a later request, and for one of another slave, when ids are reused |
| RequestPipes.PopLate | src/transport/modbus_rtu_master.cpp:86-97 | the loop over shared messages pops exactly the expired prefix and leaves the messages that stay as they were |
| RequestPipes.RequestPipe.PopExpired | src/transport/modbus_tcp_client.cpp:122-133 | the expiry loop on the object does what the pipeline's DropExpired does |
| RequestPipes.RequestPipe.Enqueue | src/transport/modbus_tcp_client.cpp:53-58 | the queue of shared messages does what the pipeline's Enqueue does |
| RequestPipes.RequestPipe.TakeFront | src/transport/modbus_tcp_client.cpp:140-142 | the front message moves into the slot under the next id |
| RequestPipes.RequestPipe.Reset | src/transport/modbus_tcp_client.cpp:175 | frees the slot and nothing else |
| RtuMasterActor.ModbusRtuMaster.constructor | src/transport/modbus_rtu_master.cpp:9-31 | the object starts in the initial state of the state machine |
| RtuMasterActor.ModbusRtuMaster.Receive | src/transport/modbus_rtu_master.cpp:46-73 | the object steps as the state machine does on a received message; only the buffer of the message put on the wire is written to |
| RtuMasterActor.ModbusRtuMaster.QueueProcess | src/transport/modbus_rtu_master.cpp:75-105 | refines RtuMaster.QueueProcess; the buffer started keeps unit id and PDU and gets the frame type of the master |
| RtuMasterActor.ModbusRtuMaster.StartMessageTask | src/transport/modbus_rtu_master.cpp:107-150 | the front message goes to the slot under the next id, its buffer is converted and written |
| RtuMasterActor.ModbusRtuMaster.WriteDone | src/transport/modbus_rtu_master.cpp:130-150 | refines the step: an error frees the slot, success arms the timer and reads into a new buffer |
| RtuMasterActor.ModbusRtuMaster.WaitDone | src/transport/modbus_rtu_master.cpp:157-180 | refines the step of the timer handler |
| RtuMasterActor.ModbusRtuMaster.ReadDone | src/transport/modbus_rtu_master.cpp:187-230 | refines the step; a message is sent exactly when one is delivered, to the source of the slot's request, with the buffer just read |
| RtuMasterActor.ModbusRtuMaster.Reply | src/transport/modbus_rtu_master.cpp:219-228 | answer the slot's request, send the answer, then look at the queue |
| RtuMasterActor.ModbusRtuMaster.MakeResponse | src/transport/modbus_rtu_master.cpp:232-266 | a message exactly when there is a request in the slot and the frame passes both checks, with the saved info |
| TcpClientActor.ModbusTcpClient.constructor | src/transport/modbus_tcp_client.cpp:8-24 | the object starts in the initial state of the state machine |
| TcpClientActor.ModbusTcpClient.Receive | src/transport/modbus_tcp_client.cpp:31-58 | the object steps as the state machine does, which receives the message in every state (MasterRuns.ReceivesExactly); only the buffer of the message sent is written to |
| TcpClientActor.ModbusTcpClient.QueueProcess | src/transport/modbus_tcp_client.cpp:60-82 | refines TcpClient.QueueProcess |
| TcpClientActor.ModbusTcpClient.StartMessageTask | src/transport/modbus_tcp_client.cpp:116-190 | refines TcpClient.StartMessage; what is sent is a TCP frame under the id in the slot with unit id and PDU kept |
| TcpClientActor.ModbusTcpClient.SendFront | src/transport/modbus_tcp_client.cpp:140-164 | the front message goes to the slot under the next id; its buffer becomes a TCP frame with that id, unit id and PDU kept |
| TcpClientActor.ModbusTcpClient.ConnectDone | src/transport/modbus_tcp_client.cpp:87-113 | refines the step of a connect completion |
| TcpClientActor.ModbusTcpClient.SendDone | src/transport/modbus_tcp_client.cpp:164-189 | refines the step of a send completion |
| TcpClientActor.ModbusTcpClient.Break | src/transport/modbus_tcp_client.cpp:174-184 | a failed operation frees the slot; the connection is kept if it was only cancelled, and closed otherwise (TcpClientLinks.IdleIff) |
| TcpClientActor.ModbusTcpClient.WaitDone | src/transport/modbus_tcp_client.cpp:197-220 | refines the step of the timer handler |
| TcpClientActor.ModbusTcpClient.ReceiveDone | src/transport/modbus_tcp_client.cpp:270-321 | refines the step; a message is sent exactly when one is delivered, to the source of the slot's request |
| TcpClientActor.ModbusTcpClient.Reply | src/transport/modbus_tcp_client.cpp:308-320 | answer the slot's request, send the answer, then look at the queue |
| TcpClientActor.ModbusTcpClient.MakeResponse | src/transport/modbus_tcp_client.cpp:223-263 | a message exactly when the slot is occupied, the frame passes its checks and carries the id in the slot |
| SlaveActors.ModbusTcpConnection.Start | src/transport/modbus_tcp_connection.cpp:59-66 | starts the first receive, into a new TCP buffer |
| SlaveActors.ModbusTcpConnection.ReceiveDone | src/transport/modbus_tcp_connection.cpp:101-149 | refines the step; a valid request becomes the record and goes where its unit id is routed, with the id the client sent; otherwise the server is told or the next receive starts |
| SlaveActors.ModbusTcpConnection.MakeRequest | src/transport/modbus_tcp_connection.cpp:78-95 | a request exactly when size and frame are valid, with the client's id saved |
| SlaveActors.ModbusTcpConnection.Receive | src/transport/modbus_tcp_connection.cpp:207-230 | refines the step; exactly a matching response with a buffer is written, as a TCP frame under the id on record, unit id and PDU kept; any other buffer is untouched |
| SlaveActors.ModbusTcpConnection.MakeResponse | src/transport/modbus_tcp_connection.cpp:152-205 | does what the state machine does on a response, whose condition SlaveRuns.TakesIff states; a matching response uses up the record even when it has no buffer |
| SlaveActors.ModbusRtuSlave.Start | src/transport/modbus_rtu_slave.cpp:70-73 | starts the first read, into a new buffer of the slave's frame type |
| SlaveActors.ModbusRtuSlave.ReadDone | src/transport/modbus_rtu_slave.cpp:84-138 | refines the step; a valid request gets the next generated id |
| SlaveActors.ModbusRtuSlave.MakeRequest | src/transport/modbus_rtu_slave.cpp:140-165 | the id counter moves exactly when the request is valid |
| SlaveActors.ModbusRtuSlave.Receive | src/transport/modbus_rtu_slave.cpp:167-190 | refines the step; exactly a matching response with a buffer is written, in the slave's frame type |
| SlaveActors.ModbusRtuSlave.MakeResponse | src/transport/modbus_rtu_slave.cpp:192-244 | a matching response uses up the record even when it has no buffer |
| UnitIds.UnitIdRange.constructor | src/config/unit_id_range.cpp:9-23 | whatever order the bounds come in, begin <= end and the range covers everything between them |
| UnitIds.UnitIdRange.Normalize | src/config/unit_id_range.cpp:25-29 | orders the two bounds |
| UnitIds.InsertIff | src/config/validators.cpp:89-95 | on a set of disjoint ranges, insertion succeeds if and only if the new range meets none of them, and keeps the set ordered and disjoint |
| UnitIds.UnitIdRangeValidator.InsertClient | src/config/validators.cpp:103-138 | the loop inserts and counts all ranges of a client, or refuses, exactly as the specification that ValidateIff characterises |
| UnitIds.AddAllIff | src/config/validators.cpp:119-128 | adding ranges to a set succeeds if and only if they are pairwise disjoint and meet none in the set, which then holds exactly them as well |
| UnitIds.UnitIdRangeValidator.CheckCoverage | src/config/validators.cpp:140-149 | for a counter that the insertions produced, passes if and only if there is a default client or uncovered unit ids and longer ranges are together at most one |
| UnitIds.ValidateClients | src/config/validators.cpp:103-149 | the validator fed with all clients of a configuration accepts if and only if all ranges are pairwise disjoint, at most one client has none, and, unless one has none, unit ids in no range and longer ranges are together at most one |
| UnitIds.ValidateIff | src/config/validators.cpp:103-138 | a configuration is accepted if and only if all its ranges are pairwise disjoint and at most one client has none |
| UnitIds.ValidatedIsCounted | src/config/validators.cpp:129-136 | the eight-bit counter never wraps: it is the number of covered unit ids less one for each longer range |
| UnitIds.PassesIff | src/config/validators.cpp:140-149 | the same for the specification, so what passes without a default leaves at most one unit id uncovered |
| UnitIds.FullCoverageRefused | src/config/validators.cpp:140-149 | two longer ranges that cover everything are refused |
| UnitIds.OneUncoveredPasses | src/config/validators.cpp:140-149 | of the configurations with the single ids 1 to n, those pass that leave at most one unit id uncovered |
| Routing.MakeMasters | src/modbus_gateway.cpp:35-91 | refuses exactly the configurations of non-masters; otherwise pairs each with its own actor, the masters without ranges first and the others following in configured order |
| Routing.ArrangedIsPermutation | src/modbus_gateway.cpp:57-83 | the arrangement neither loses nor duplicates a master |
| Routing.OneDefault | src/modbus_gateway.cpp:57-83 | a single default is first and all others keep their order |
| Routing.Validate | src/config/config.cpp:26-59 | accepts exactly when at most one configured master has no ranges |
| Routing.Router.constructor | src/transport/router.cpp:5-11 | every entry is the default |
| Routing.Router.Set | src/transport/router.cpp:17-19 | changes one entry and no other |
| Routing.MakeRouter | src/modbus_gateway.cpp:93-135 | for every list of masters the table agrees on every unit id with the lookup: the last master with a range containing it, or else the default's id, or else no id; no table only for no masters |
| Routing.SetRanges | src/modbus_gateway.cpp:119-132 | the nested loops, the inner one with an eight-bit variable, end and set exactly the unit ids in the ranges |
| Routing.LoopEndsIff | src/modbus_gateway.cpp:126-127 | the guard of the eight-bit inner loop holds forever if and only if the range ends at 255; otherwise it fails after as many steps as the range has unit ids |
| Routing.LookupIsLast | src/modbus_gateway.cpp:119-132 | the lookup is the id of the last covering master, and the default if none covers |
| Routing.RouteSelects | src/modbus_gateway.cpp:57-135 | the route in terms of the configured order: the last configured master that covers the unit id, or else the last configured default, or else no id |
| Routing.RouteOfConfiguration | src/modbus_gateway.cpp:35-135 | the route in terms of the configurations and the ids of the actors made for them: the id of the last configuration with the unit id, or else of the last one without ranges, or else no id |
| Routing.RouteIsUnique | src/modbus_gateway.cpp:93-135 | that leaves exactly one choice for every unit id |
| Routing.ConfigureRouter | src/modbus_gateway.cpp:214-222 | the two functions together give no table exactly for an empty configuration or one of a non-master; otherwise every entry of the table is the route of the configuration |
| Routing.OrderIsIrrelevant | src/modbus_gateway.cpp:119-132 | when masters do not disagree about a unit id, its route is the same for every permutation of the masters |
| Routing.OrderMatters | src/modbus_gateway.cpp:119-132 | when a covering master is not the one routed to, some other order gives another route |
| Routing.AcceptedIsOrderFree | src/config/validators.cpp:121-128 | over a configuration the interval validator accepts, every route is the same for every permutation of the masters |

## Left out

- Sockets, serial ports, signals, logging, command line: only their completions appear, as inputs of steps.
- Byte layouts, CRC and LRC of frames: they belong to the modbus library; sizes and checks enter as verdicts.
- The exchange library and its id generator: a send is a letter with arbitrary delay, a failed send a letter that is never
  answered, and the id given to a new slave is an input, free of those in use; that it is not reused too early is a hypothesis
  where it is needed. `exchange::defaultId` is the parameter `noId`.
- ModbusTcpServer: its client table is not modelled; connections join and leave the gateway at any time instead.
- Messages of other types, which every actor ignores with a warning.
- RtuMasterActor.ModbusRtuMaster.Receive: requires that the message is not already held, and that the message put on the wire,
  if any, has a buffer; the program would dereference a null buffer there.
- TcpClientActor.ModbusTcpClient.Receive: the same.
- SlaveActors.ModbusTcpConnection.ReceiveDone: for a request to unit id 255 the program reads past the end of the route table;
  the id found there is an input, and nothing else that this may do is modelled.
- SlaveActors.ModbusRtuSlave.ReadDone: the same.
- UnitIds.ValidateClients: the checks of addresses and ports that the program makes between the insertions are not modelled.
- Routing.Router.Set: unit id 255 is excluded, the table has no entry for it.
- Routing.MakeRouter: ranges end below 255, which the extraction of unit ids (at most 247) guarantees.
- Responses without a buffer: modelled for a slave alone; the masters of the gateway never make one.
- Mutexes and parallel execution of handlers, destructors, `Stop`, and shutdown after the exchange has died; the early returns
  for a dead exchange are modelled.
- `timer_.cancel` throwing an exception: the handlers log it and go on, leaving the wait pending.
- JSON extraction, the string conversions and the trace of configuration errors.
