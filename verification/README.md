# UMTP verification

A Dafny model of the Universal Message Transaction Protocol stack, with proofs. `dafny verify dfyconfig.toml`
checks all of it.

What is modelled:

- **Ring buffer** (`Words`, `RingLayout`, `DequeSpec`, `RingBuffer`, `RingSpsc`, `RingProgress`). `RingBuffers.RingBuffer` works in place
  on a block of bytes with 32-bit counters that wrap; pointers into the block are byte offsets. It is proved to be the
  bounded deque of `DequeSpec`. `RingSpsc` is the same code as a state machine in which every load of a counter, every
  byte copied and every store of a counter is a step, shared by one producer and one consumer without a lock, the way
  the receive queue is used: the consumer may look at any bytes of a peeked element, pop it at any moment, or give up
  and leave it queued. `RingProgress` adds that every operation gets done, in a fixed number of its own steps. Memory
  is sequentially consistent.
- **Session table** (`SessionSpec`, `SessionTable`, `SessionRefinement`, `SessionRuns`). The class updates 255 slots and
  an `int` counter in place; `SessionSpec` says what each operation does to the table as a value, `SessionRefinement`
  what it does to a finite map from ids to sessions, `SessionRuns` what holds over whole runs. The counter is a 32-bit
  two's complement `int`, truncated to eight bits at each lookup. C leaves its overflow undefined; the model wraps it, so
  that every counter value is covered. Retry limit and timeout are fixed for a run, ticks are arbitrary.
- **Messages** (`Pdus`, `ApduSpec`, `Apdu`, `Wire`, `EndToEnd`). `ApduLayer` builds requests, replies and frames byte by
  byte; `ApduSpec` says what they mean, `Wire` what is on the wire and what a receiver makes of every frame, in plain
  bytes. Request handlers are functions of the peer and the payload, at most `MAX_APDU - 4`
  bytes of answer. Calls into the application are recorded as values, in order.
- **Protocol** (`Incarnations`, `Outcomes`, `RequestStories`, `Network`, `Deliveries`, `StaleReplies`). A requester over whole runs,
  with each confirmed request numbered as an incarnation of its session id, and a log, proved to miss no call, no
  resend and no departure. `Incarnations` lets any frame arrive at any time; `Outcomes` says when a request ends,
  `RequestStories` everything that is logged about it until then; `Network` adds a responder and a network that may
  deliver anything ever sent any number of times, in any order, or never; `Deliveries` what is achieved when it does.
- **Message processing unit** (`MpuSpec`, `Mpu`). Two ring buffers of 2024-byte packets, the handlers that connect them
  to the layers above and below, and the drain loop. The data link is a function that returns its status code. The
  unit may be stopped and started at any time.
- **List and registry** (`IntrusiveList`, `ServiceRegistry`). The circular list on the heap, and the service registry on
  top of it, proved to be the map from service id to handlers that `ApduSpec` dispatches through.

What the proofs found where the code falls short of what one would expect of it:

- A reply is matched by its session id alone. `EndToEnd.LateReplyIsAccepted` states it; `Network` proves how far the
  matching goes nevertheless: always to a request that held the same id, and to the request itself as long as its id is
  fresh. `StaleReplies.OwnAnswerIff` gives the exact bound: confirmed request number n, counting from 0, gets only its
  own answers in every run if and only if n < 255. For every later n there is a run, under the default limits, in which
  it is handed the answer to the request 255 before it.
- A slot reserved with `ringbuf_data_peek` can be lost to `ringbuf_put_front`, which takes the free slots from the other
  end and so takes the reserved one last. `DequeSpec.ReservationSurvivesIff`: what is operated on at the front keeps the
  reserved bytes if and only if the queue never fills up before they are published. `DequeSpec.ReservationCanBeLost`
  is the smallest loss.
- A packet its handler rejects blocks the receive queue for good, and one the link keeps refusing blocks the send queue;
  `MpuSpec.DrainEndsIff` gives the exact condition for the drain loop to end, `MpuSpec.OldVersionBlocks` an input for
  which it does not.
- When the send queue is full the first request of a drain reaches its service twice (`Mpus.Mpu.Drain`); an input is
  in `MpuSpec.HandlerCanRunTwice`, the exact condition is `MpuSpec.FirstAttemptFails`.
- The drain loop goes on after `mpu_stop`, and from then on a request counts as handled though its reply is dropped:
  `MpuSpec.ReplyLostIff` and `Mpus.Mpu.StopWhileDraining` say exactly which replies are lost.
- A refusal whose status is a multiple of 256 is reported as status 0 (`EndToEnd.RefusalRoundTrip`).
- A response without data ends its session without any call (`EndToEnd.RequestReplyRoundTrip`).
- `mpu_put_recv` and `mpu_put_send` report success for a message a stopped unit drops.

Preconditions are those the code leaves to its callers: payloads of at most `MAX_APDU - 4` bytes, queued messages of at
most `MAX_MPU_DATA` bytes and sent ones of at most `MAX_APDU`, complete headers on received messages, only registered
nodes unregistered, callbacks that do not re-enter the session table, destination buffers apart from the ring's block,
no write through a pointer that is no longer reserved.

## Model

| member | source | states |
|---|---|---|
| `RingLayout.SlotsSurviveWrapIffPowerOfTwo` | core/ringbuf.c:250-255 | for every count below 2^32: stepping a counter moves to the neighbouring slot for every counter value, the wrap at 2^32 included, if and only if the count is a power of two |
| `RingLayout.OtherSlotKept` | core/ringbuf.c:153-157 | writing one slot leaves the bytes of every other slot intact, for any element size |
| `RingLayout.ReservedSlotInvisible` | core/ringbuf.c:206-219 | writes into the slot under head change nothing in the queue while it is not full |
| `RingLayout.HeadBumpAppends` | core/ringbuf.c:236-243 | head++ appends the bytes of the head slot, also when head overflows |
| `RingLayout.TailBumpDrops` | core/ringbuf.c:121-131 | tail++ drops exactly the oldest element |
| `RingLayout.TailRetreatPrepends` | core/ringbuf.c:184-193 | tail--, also from 0, and a write of its slot prepend one element and keep the others |
| `RingLayout.WriteChangesFirstVacant` | core/ringbuf.c:206-219 | and among the free slots it changes the first one only, the one under head |
| `RingLayout.PutAppends` | core/ringbuf.c:153-159 | writing the head slot and bumping head moves exactly that slot from the free ones to the end of the queue |
| `RingLayout.TailRetreatUsesVacant` | core/ringbuf.c:184-193 | prepending uses up the last free slot and leaves the bytes of all others, the reserved one among them, as they were |
| `RingLayout.TailBumpFreesSlot` | core/ringbuf.c:121-131 | a popped element's slot becomes the last free one, its bytes still in it |
| `RingBuffers.RingBuffer.constructor` | core/ringbuf.c:257-272 | an empty queue over the caller's block |
| `RingBuffers.RingBuffer.Count` | core/ringbuf.c:50-62 | the wrapped difference of the counters is the length of the queue |
| `RingBuffers.RingBuffer.Full` | core/ringbuf.c:70-74 | true exactly when the queue holds element_count elements |
| `RingBuffers.RingBuffer.Empty` | core/ringbuf.c:82-86 | true exactly when the queue is empty |
| `RingBuffers.RingBuffer.Peek` | core/ringbuf.c:94-105 | null exactly on an empty queue; otherwise the offset of the front element's bytes |
| `RingBuffers.RingBuffer.Pop` | core/ringbuf.c:113-134 | removes and copies out the front element, byte by byte; a null destination only drops it; an empty queue and the destination's remaining bytes are untouched |
| `RingBuffers.RingBuffer.Put` | core/ringbuf.c:142-164 | appends the caller's bytes, or refuses exactly when full or given null |
| `RingBuffers.RingBuffer.PutFront` | core/ringbuf.c:174-197 | prepends the caller's bytes, or refuses exactly when full or given null; takes the last free slot, so a reserved slot keeps its bytes unless it is the only one left |
| `RingBuffers.RingBuffer.DataPeek` | core/ringbuf.c:206-219 | null exactly when full; otherwise the slot under head |
| `RingBuffers.RingBuffer.DataPut` | core/ringbuf.c:229-248 | succeeds exactly when not full and given the current head slot, and then appends the bytes now in it |
| `RingBuffers.RingBuffer.WriteReserved` | core/mpu.c:163-169 | a caller's write through the reserved pointer is invisible in the queue, and changes that one byte of that one free slot |
| `RingBuffers.RingBuffer.Run` | core/ringbuf.c:50-248 | any script of put, put_front, pop, peek, data_peek, single-byte fills of the reserved slot and data_put of any slot, in any order, from any state of the counters, has the queue, the free slots, the head slot and the replies of the deque of byte strings |
| `DequeSpec.RunConserves` | core/ringbuf.c:113-248 | over any script nothing is overfilled, lost or made up: what was there and went in is what came out and is left |
| `DequeSpec.RunIsFifo` | core/ringbuf.c:113-164 | without put_front, elements leave in the order they entered |
| `DequeSpec.Replies` | core/ringbuf.c:94-219 | room decides every addition and emptiness every removal; a peek sees what a pop would take and changes nothing |
| `DequeSpec.PopUndoesPutFront` | core/ringbuf.c:113-197 | what put_front adds is popped first and leaves the queue as it was |
| `DequeSpec.FilledReservationIsPut` | core/ringbuf.c:206-248 | data_peek, a fill byte by byte and data_put together are a put of those bytes |
| `DequeSpec.ReservedSlotAcceptedIff` | core/ringbuf.c:229-248 | whatever happens since a slot was handed out, data_put accepts it if and only if there is room and the elements appended since then come to a whole number of turns of the ring |
| `DequeSpec.ReservationAfter` | core/ringbuf.c:174-219 | operations at the front run as if the reserved bytes were not there; after the queue has once filled up the reserved bytes are gone |
| `DequeSpec.ReservationSurvivesIff` | core/ringbuf.c:174-248 | through any script of put_front, pop, peek and data_peek the reserved bytes, whatever they are, survive if and only if the queue never fills up on the way |
| `DequeSpec.ReservationCanBeLost` | core/ringbuf.c:174-248 | in a ring of two slots, after two put_front and a pop, data_put accepts the reserved slot and publishes another element's bytes |
| `RingSpsc.StepKeepsInv` | core/ringbuf.c:94-248 | each single load, byte copy or store by either side keeps the two-thread invariant |
| `RingSpsc.RunKeepsInv` | core/ringbuf.c:94-248 | so every interleaving of any length does |
| `RingSpsc.EveryRunIsSafe` | core/mpu.c:52-70 | for every interleaving of one producer and one consumer, peeks abandoned by a failing handler and pops of partly read elements included: taken elements are a prefix of published ones, the counters' difference stays within 0..count, and no data_put after data_peek and no pop after peek is refused |
| `RingSpsc.NoTornRead` | core/mpu.c:61-66 | at every moment the bytes copied out so far, and any bytes looked at through a peeked pointer, are those of the next element, whose slot still holds all of it |
| `RingSpsc.PeekedElementIsStable` | core/mpu.c:61-68 | a peeked element is unchanged until popped, whatever the producer does |
| `RingSpsc.HistoryGrows` | core/ringbuf.c:113-164 | published and taken histories only grow |
| `RingProgress.TakeIsWaitFree` | core/ringbuf.c:94-134 | whatever the producer does meanwhile: a pop begun on a non-empty ring takes exactly the front element, in size + 4 steps of its own, or 5 after a peek, and not before; begun on an empty one it takes nothing and knows after one step |
| `RingProgress.PutIsWaitFree` | core/ringbuf.c:142-248 | whatever the consumer does meanwhile: with room, a put publishes in size + 4 steps of its own and a reservation in 6, and not before; what is published is what the slot held overwritten by exactly the writes made through the pointer |
| `RingProgress.PutPublishesItsElement` | core/ringbuf.c:142-164 | a put publishes exactly its element |
| `RingProgress.NoRoomNoPut` | core/ringbuf.c:142-219 | without room nothing in the state changes |
| `RingProgress.ViewShows` | core/mpu.c:61-63 | a byte looked at through a peeked pointer is that byte of the front element, and looking changes nothing shared |
| `RingProgress.AbandonedPeekLeavesNoTrace` | core/mpu.c:61-66 | a peek given up by a failing handler leaves the whole state as it was |
| `SessionSpec.SomeIdUnused` | core/session.c:46-50 | pigeonhole: with a free slot, some non-zero id is unused |
| `SessionSpec.ReserveFirstUnused` | core/session.c:41-74 | the allocator returns 0 exactly when no slot is free, and otherwise the first unused non-zero id in cyclic order from the counter, which is left just past it |
| `SessionTables.SearchMeets` | core/session.c:50-70 | from any 32-bit counter value the search meets that id within 255 counter steps, the truncation to 0 included |
| `SessionTables.SessionTable.GetIndex` | core/session.c:23-36 | the first slot holding the id, or 255 |
| `SessionTables.SessionTable.FindUnused` | core/session.c:50-70 | the search loop terminates, on the first unused id in cyclic order |
| `SessionTables.SessionTable.FreeSession` | core/session.c:41-74 | reserves the first free slot under that id, within 256 counter steps, or fails leaving all unchanged |
| `SessionTables.SessionTable.Set` | core/session.c:76-100 | arms the session an id names, and nothing else; id 0 and unknown ids change nothing |
| `SessionTables.SessionTable.Get` | core/session.c:102-137 | the slot a non-zero id names, if any |
| `SessionTables.SessionTable.Process` | core/session.c:139-170 | one tick of all 255 slots, and the resends and expiries it emits, in slot order |
| `SessionTables.SessionTable.Clear` | core/session.c:172-180 | frees the slot an id names |
| `SessionRefinement.ReserveRefines` | core/session.c:54-60 | on the finite map from ids to sessions: adds one fresh key bound to a session not waiting, or changes nothing; keeps ids distinct, waiting slots named and retries within the limit |
| `SessionRefinement.SetRefines` | core/session.c:83-99 | on the map: rebinds a known key, ignores any other; keeps the table invariant |
| `SessionRefinement.ClearRefines` | core/session.c:172-180 | on the map: removes one key; clearing 0 or an unknown id leaves the table itself unchanged; keeps the table invariant |
| `SessionRefinement.TickRefines` | core/session.c:143-169 | on the map: each entry ticks by itself and vanishes when it expires; keeps the table invariant |
| `SessionRuns.Perform` | core/session.c:41-180 | the table in memory goes through exactly the states and events of any script of its operations |
| `SessionRuns.RunKeepsConsistent` | core/session.c:41-180 | the table invariant in every reachable state |
| `SessionRuns.LifeResendsTheOriginal` | core/session.c:151-166 | a session's events are some resends of the stored bytes to the stored destination and, at its end only, one expiry with the same bytes |
| `SessionRuns.LifeTiming` | core/session.c:146-154 | from any point of a session's life: no expiry before the remaining time, no life after it has been overshot tick by tick |
| `SessionRuns.RetryTiming` | core/session.c:146-166 | an unanswered session is resent exactly R times and expires after at least (R+1)*T and at most (R+1)*(max(T,1)+D-1) milliseconds of ticks of 1..D |
| `SessionRuns.ConstantTickTiming` | core/session.c:146-166 | under a constant tick d it is still waiting after n ticks if and only if n < (R+1)*ceil(max(T,1)/d) |
| `SessionRuns.LookupAfterApply` | core/session.c:76-180 | an operation that does not name an id leaves its session alone, but for its own tick |
| `SessionRuns.LifeWithinRun` | core/session.c:143-169 | whatever other sessions do in a run, the events of one session are those of its own life under the run's ticks |
| `SessionRuns.SetSessionInRun` | core/session.c:76-170 | from umtp_session_set on, whatever happens to other sessions: at most R resends, each of the bytes set to the destination set; expiry only after R of them, with the same bytes, not before (R+1)*T milliseconds, and always once (R+1)*(max(T,1)+D-1) have passed in ticks of 1..D |
| `SessionRuns.ClearSilences` | core/session.c:172-180 | after a clear the id is out of the table, every other id is as before, and nothing is heard of it until it is set again |
| `SessionRuns.DelayedReuse` | core/session.c:50-70 | between two allocations of the same id the allocator visits every one of the other 254 |
| `SessionRuns.VisitedIdTakenOrHandedOut` | core/session.c:50-66 | each visited id was in use or is the one handed out |
| `Pdus.DecodeEncode` | core/apdu.c:97-104 | decoding undoes encoding of flag, type, service, session id and payload, for both header sizes |
| `Pdus.EncodeDecode` | core/apdu.c:97-104 | and encoding undoes decoding |
| `Wire.RequestOnWire` | core/apdu.c:185-206 | the bytes of every framed request: 1, 1, 0, service, id and payload if confirmed, 1, 0, 0, service and payload if not |
| `Wire.RequestFrame` | core/apdu.c:107-141 | what a receiver makes of any request, in bytes: an error 234 without payload, an error 254 for an unknown service, otherwise the answer of the registered handler to exactly the sender and the payload; no other effect |
| `Wire.ResponseFrame` | core/apdu.c:142-151 | of any response: the call with the session its id names, or with none when there is no session byte; that session ends, no other does |
| `Wire.ErrorFrame` | core/apdu.c:152-159 | of any error, likewise, with its status byte |
| `Wire.OtherFrames` | core/apdu.c:97-170 | of a reject, an unknown type, another version and a bare version byte |
| `Wire.FrameForms` | core/npdu.c:42-55 | and there are no other frames |
| `ApduLayer.EncodeFrame` | core/npdu.c:58-81 | the version byte followed by the APDU; -EINVAL for an empty one |
| `ApduLayer.BuildRequest` | core/apdu.c:189-206 | the request built byte by byte is the encoding of its fields |
| `ApduLayer.Apdu.CopyWithin` | core/apdu.c:130 | the in-place copy of the reply's data has equal source and destination and preserves the block |
| `ApduLayer.Apdu.BuildReply` | core/apdu.c:115-132 | the reply built in place is the encoding of `ReplyTo`: flag, service and session kept, type and payload as `Wire.RequestFrame` gives them in bytes |
| `ApduLayer.Apdu.Handle` | core/apdu.c:80-170 | dispatch of each PDU type as `React` says, which the `Wire` rows spell out for every frame: the reply, the calls, the sessions cleared, -EPROTO for an unknown type |
| `ApduLayer.Apdu.HandleFrame` | core/npdu.c:32-56 | the version check and the empty frame in front of it |
| `ApduLayer.Apdu.HandleFrameSync` | core/apdu.c:66-74 | in synchronous mode a reply is framed and given to the link at once, whose status is the handler's result; calls and sessions are as in the other mode |
| `ApduLayer.Apdu.Submit` | core/apdu.c:185-210 | one attempt: reserve, encode, arm; None exactly while every session is taken |
| `ApduLayer.SubmitWaitsIff` | core/apdu.c:194-201 | a submission finds no session exactly when it is confirmed and every slot is taken, and then changes nothing |
| `ApduLayer.Apdu.Await` | core/apdu.c:194-210 | with anything done to the table between the turns of the wait: it submits in the first state that has a free session, having found every earlier one full, and gives up only after finding all of them full |
| `EndToEnd.ReplyEchoesRequest` | core/apdu.c:106-131 | the receiver of a framed request replies with the same flag, service and session and touches none of its own sessions |
| `EndToEnd.RequestReplyRoundTrip` | core/apdu.c:106-151 | an accepted request's reply hands the requester exactly the service's data with that session, ends that session and leaves every other slot unchanged; no call exactly when there is no data or no handler |
| `EndToEnd.RefusalRoundTrip` | core/apdu.c:126-159 | a refusal comes back as the status modulo 256, which reads 0 exactly for multiples of 256 |
| `EndToEnd.AnyRequestRoundTrip` | core/apdu.c:106-159 | every request, confirmed or not, served or not: the requester is told 234 or 254, or the handler's data or status modulo 256, with the session if confirmed and without one if not; a confirmed request's session ends and no other changes |
| `EndToEnd.UnconfirmedRoundTrip` | core/apdu.c:185-213 | submitting an unconfirmed request takes no session, and its reply, data or refusal, reaches the handlers without one and leaves all sessions alone |
| `EndToEnd.UnservedRequest` | core/service.c:52-57 | a request without payload comes back as error 234, one for a service nobody has registered as error 254 |
| `EndToEnd.TimeoutGetsOriginalRequest` | core/apdu.c:59-64 | reading the service and the payload back out of a stored request's bytes gives those submitted; `Incarnations.TimeoutCallsGetTheRequest` has it for runs |
| `EndToEnd.LateReplyIsAccepted` | core/apdu.c:142-159 | a reply ends whatever session holds its id now and hands that session over with its own answer, data or status: source address and request are not compared |
| `Incarnations.SendKeepsInv` | core/apdu.c:185-212 | submitting starts one incarnation, waiting with the encoded request stored |
| `Incarnations.ReceiveKeepsInv` | core/apdu.c:142-164 | any frame from anyone ends at most the incarnation its id names |
| `Incarnations.TickKeepsInv` | core/session.c:139-170 | a tick only resends or ends incarnations in the table |
| `Incarnations.RunKeepsInv` | core/apdu.c:80-213 | the table holds exactly the live incarnations, each the latest under its id, in every reachable state |
| `Incarnations.EachIncarnationEndsOnce` | core/apdu.c:142-164 | in the log of every run, whatever arrives: an incarnation ends at most once, gets at most one call, and after its end there is no resend and no call. `NoCallGoesUnnoted`, `Outcomes.NoResendGoesUnnoted` and `Outcomes.EndedIffLeft` show that the log is complete, `TimeoutCallsGetTheRequest` and `RepliesHandOverTheSession` that it names the right incarnation |
| `Incarnations.NoCallGoesUnnoted` | core/apdu.c:142-159 | the calls in the log are, in order, all the calls of the run that hand over a session or report a timeout |
| `Incarnations.TimeoutCallsGetTheRequest` | core/apdu.c:59-64 | in every run, each final timeout call carries the destination, service and payload submitted for its incarnation |
| `Incarnations.RepliesHandOverTheSession` | core/apdu.c:142-157 | in every run, each response or error call logged for an incarnation hands over the session set up for it: its id, its destination and the bytes submitted |
| `Incarnations.ActiveIncarnationsAwaitReplies` | core/session.c:152-163 | one still in the table has had no call, and every resend in the log, which has them all by `Outcomes.NoResendGoesUnnoted`, carries the bytes and destination submitted |
| `Outcomes.EndedIffLeft` | core/session.c:154-180 | the log misses no departure: in every run an incarnation is in the table if and only if the log does not have its end |
| `Outcomes.NoResendGoesUnnoted` | core/session.c:151-153 | the log misses no resend: the resends in it are, in order, destination and bytes of all retransmissions of the run, whichever sessions they come from |
| `Outcomes.PendingIff` | core/session.c:139-180 | in every run, a request is in the table if and only if no frame has cleared its id since and its own session, ticking by itself, has not run out; other requests, and whoever holds the id later, make no difference |
| `Outcomes.OneOutcomeInTime` | core/session.c:139-180 | under ticks of 1..D, whatever frames arrive: once (R+1)*(max(T,1)+D-1) milliseconds have passed since its submission a request has ended exactly once in the log, with nothing about it afterwards; and before (R+1)*T it is still pending unless a frame with its id came |
| `RequestStories.RequestStory` | core/apdu.c:142-213 | all that is ever logged about one request, in any run: while pending, as many resends of its exact bytes as its own clock calls for; then at most R resends, at most one call and its end; exactly R resends, the timeout call if there is a handler, and its end if no frame with its id came |
| `Network.AdvanceKeepsInv` | core/apdu.c:80-213 | provenance of everything on the wire and in the log, kept by every move of requester, responder and network |
| `Network.CallsAreAnswers` | core/apdu.c:142-159 | with loss, duplication and reordering: every response or error call is the responder's own answer to this or an earlier request under the same session id |
| `Network.FreshIdsGetTheirOwnAnswer` | core/apdu.c:142-159 | it is the answer to this very request when no earlier one held its id |
| `Network.FirstRequestsGetTheirOwnAnswer` | core/session.c:50-66 | which holds of the first 255 confirmed requests of any run |
| `Deliveries.PendingRequestCanComplete` | core/apdu.c:106-159 | from every reachable state, whatever was lost, repeated or reordered before: serving a pending request and delivering the reply ends it, its handler told exactly what the responder makes of the request |
| `Deliveries.UnconfirmedRequestCanComplete` | core/apdu.c:185-213 | an unconfirmed request, served and answered, is told the same without a session, and nothing else of the requester changes |
| `StaleReplies.OwnAnswerIff` | core/apdu.c:142-151 | for every n: confirmed request number n, counting from 0, is handed nothing but its own answers in every run of every requester and responder, if and only if n < 255 |
| `StaleReplies.LaterRequestCanGetAStaleAnswer` | core/session.c:50-66 | for every n >= 255, a run under the default limits in which request n is handed what answers request n - 255 and not request n |
| `StaleReplies.Request255CanGetAStaleAnswer` | core/apdu.c:142-151 | the smallest instance: request number 255 |
| `MpuSpec.DrainEndsIff` | core/mpu.c:102-106 | the drain loop ends if and only if no queued packet is one its handler rejects and no queued packet or reply is one the link refuses |
| `MpuSpec.RejectedIffMalformed` | core/npdu.c:42-43 | the rejected packets are exactly those of another version or an unknown type |
| `MpuSpec.OldVersionBlocks` | core/mpu.c:63-66 | one received packet of another version keeps the drain loop from ever ending |
| `MpuSpec.HandlerCanRunTwice` | core/mpu.c:102-106 | one request received with a full send queue is handed to its service twice by a drain that ends |
| `MpuSpec.ReplyLostIff` | core/mpu.c:189-192 | a request leaves the receive queue without its reply entering the send queue if and only if the unit is stopped |
| `MpuSpec.SendableIff` | core/npdu.c:76-85 | a packet can be sent exactly when the link takes, for its own address, byte 1 followed by its message |
| `MpuSpec.OwnDatagramSuffices` | core/npdu.c:76-85 | a link that accepts nothing but that datagram is enough |
| `MpuSpec.PeerReadsDatagram` | core/npdu.c:42-50 | a peer that gets the datagram reacts as to the message |
| `MpuSpec.RequestIsAnswered` | core/umtp.c:24-34 | a received request's reply goes back to its sender, who, on getting its datagram, is told what `EndToEnd.AnyRequestRoundTrip` says |
| `MpuSpec.TurnProgress` | core/mpu.c:102-106 | 2*|recv|+|send| strictly decreases, and after one pass the send queue has room, so no later receive attempt fails |
| `MpuSpec.RunKeepsOrder` | core/mpu.c:52-70 | over every run, from any state in which it holds: what a queue accepted is what was handled followed by what is queued |
| `MpuSpec.PutsAcceptedIff` | core/mpu.c:157-172 | in the history machine a put is accepted exactly by a running unit with fewer than 16 packets in that queue |
| `MpuSpec.RunsTakeTurns` | core/mpu.c:102-106 | a run of alternating handler turns is the drain loop |
| `MpuSpec.RunsCanFinish` | core/mpu.c:102-106 | so from any state with nothing stuck a run can empty both queues |
| `MpuSpec.HandledInOrder` | core/mpu.c:52-70 | in every run, with other producers, a link that fails at times, and stops and starts, packets are handled and sent in the order accepted, none skipped or repeated |
| `Mpus.StoredReadsBack` | core/mpu.c:164-169 | the stored packet reads back with its message, peer and data pointer, whatever the slot held |
| `Mpus.Enqueue` | core/mpu.c:195-204 | appends exactly that packet, or -ENOMEM exactly when full |
| `Mpus.Mpu.PutRecv` | core/mpu.c:148-177 | the same on the receive queue; a stopped unit drops the message and reports success |
| `Mpus.Mpu.PutSend` | core/mpu.c:179-209 | the same on the send queue |
| `Mpus.Mpu.HandlePacket` | core/umtp.c:30-34 | the receive handler of the queued mode: decoding, dispatch, and -ENOMEM exactly when the unit runs and a reply finds the send queue full; a stopped unit drops the reply and reports success |
| `Mpus.Mpu.SubmitRequest` | core/apdu.c:172-213 | the whole of umtp_apdu_submit: the wait for a session, then the request at the end of the send queue, or -ENOMEM exactly when the unit runs and that is full; a stopped unit drops it with success; the session stays armed all the same |
| `Mpus.Mpu.HandleRecv` | core/mpu.c:52-70 | a packet leaves the receive queue only when its handler, the submission of its reply included, succeeded, which for a stopped unit drops the reply; otherwise both queues are unchanged |
| `Mpus.Mpu.HandleSend` | core/umtp.c:24-28 | the link is handed byte 1 and the front packet's message, at that packet's address, or nothing when there is no packet or no message; the packet leaves the queue exactly when the link returned 0 for that |
| `Mpus.Mpu.Perform` | core/mpu.c:52-209 | any script of puts, handler turns, stops and starts takes the unit through exactly the states of the history machine, and the session table and the calls are those of handling, once each and in order, the packets it takes off the receive queue |
| `Mpus.Mpu.Drain` | core/mpu.c:102-106 | ends with both queues empty; sends what was queued and then the replies, in order, none of these if the unit is stopped; what the link is handed is byte 1 and each message, at each packet's address, in that order; handles every received packet once, in order, but for one repeated attempt of the first when the send queue was full |
| `Mpus.Mpu.StopWhileDraining` | core/mpu.c:96-144 | with mpu_stop after any number of passes: the drain still empties both queues and handles every packet in order; what is sent lacks exactly the replies to the packets still queued at the stop |
| `IntrusiveList.Insert` | core/list.c:16-23 | links a node between two neighbours of one well-formed cycle |
| `IntrusiveList.Add` | core/list.c:33-36 | prepends an entry |
| `IntrusiveList.AddTail` | core/list.c:46-49 | appends an entry |
| `IntrusiveList.Del` | core/list.c:62-69 | removes an entry and leaves its own links as they were |
| `IntrusiveList.Empty` | core/list.c:55-58 | true exactly for no entries |
| `IntrusiveList.EndsAreEnds` | include/list.h:17-32 | list_is_first and list_is_last hold of exactly the first and the last entry |
| `IntrusiveList.ForEach` | include/list.h:89-90 | terminates having visited every entry once, in order |
| `IntrusiveList.ForEachSafeDel` | include/list.h:106-108 | with entries deleted on the way: still visits every entry once, in order, and leaves exactly the others |
| `IntrusiveList.Run` | core/list.c:4-69 | any script of add, add_tail and del of valid nodes leaves one well-formed cycle in the order of the sequence it stands for |
| `IntrusiveList.AddsAndDels` | core/list.c:33-69 | add and add_tail put entries at either end, and del undoes either |
| `ServiceRegistry.Registry.Get` | core/service.c:9-21 | null exactly when the id is not in the map; otherwise the service the map binds |
| `ServiceRegistry.Registry.Register` | core/service.c:23-37 | -EINVAL exactly for a null service or one without a request handler, -EEXIST exactly when it has one and its id is registered, 0 otherwise; 0 adds it in front and binds its id, anything else changes nothing |
| `ServiceRegistry.Registry.Unregister` | core/service.c:39-43 | removes that service and unbinds its id; null changes nothing |
| `ServiceRegistry.TypesAfter` | core/service.c:23-43 | what either does to the list is what it does to a map from ids to handlers; ids stay unique |
| `ServiceRegistry.Registry.Run` | core/service.c:9-43 | any script gives the map's results call by call and the map's services in the end |
| `ServiceRegistry.MapRunAt` | core/service.c:23-43 | each call of a script by itself: its result and its effect by what is registered just before it |
| `ServiceRegistry.OrderIrrelevant` | core/service.c:34 | lookup does not depend on the order of registration |
| `ServiceRegistry.Registry.HandleRequest` | core/service.c:45-63 | -EINVAL without data, -ENOENT without service, else exactly what the registered handler answers to this sender and this data |
| `ServiceRegistry.Registry.HandleResponse` | core/service.c:65-81 | one call, to the registered handler with that session and data, exactly when there is data, the service is registered and has such a handler; otherwise none |
| `ServiceRegistry.Registry.HandleError` | core/service.c:84-95 | one call, with that status and session, exactly when the service is registered and has such a handler; otherwise none |
| `ServiceRegistry.Registry.HandleTimeout` | core/service.c:97-107 | one call, with that destination, service and payload, exactly when an expired session wants one, the service is registered and has such a handler; otherwise none |

## Left out

- Null handles for the ring buffer, the list, the MPU and the stack itself: each guard returns a fixed value; null data pointers of `ringbuf_pop`, `ringbuf_put` and `ringbuf_put_front` are modelled.
- Ring buffer with several producers, as on the send queue, and memory orders weaker than sequential consistency.
- RingBuffers.RingBuffer.Run: a fill goes to the slot under head as it is then; a write through a pointer whose slot has since been published or taken is not modelled.
- RingBuffers.RingBuffer.constructor: the element count must be a power of two and the block at most 2^32 bytes, as its header and the width of the offset arithmetic demand; SlotsSurviveWrapIffPowerOfTwo shows that the first is necessary.
- SessionTables.SessionTable.Set: a stored message is its first `pdu_len` bytes; the stale rest of the slot's buffer, which nothing reads, is not modelled.
- ApduLayer.Apdu.Submit: one turn of the wait for a free session; Await has the wait, for as long as what happens between its turns is given. The sleep itself is not modelled.
- ApduLayer.Apdu.Handle: dispatches through the map that the registry is proved to stand for, not through the list itself; a request handler sees only the peer and the payload and has no state of its own.
- Mpus.Mpu.Drain: no other producer runs meanwhile, and neither the link's answer to a frame nor the running flag changes during the drain; HandledInOrder and Perform have all three, StopWhileDraining has the last.
- Mpus.StoredReadsBack: the layout of a packet is that of a 64-bit little-endian target.
- Received messages with an incomplete header, on which the code reads past the end.
- Addresses in Network: one responder answers whatever was sent to any destination.
- core/dl_udp.c, core/umtp_dl.c: sockets and address conversion; the link is a parameter.
- core/crypt.c: encryption, which is not enabled.
- core/umtp.c: threads and the clock; a tick is the value already truncated to 16 bits that `umtp_session_process` receives.
- core/hook.c and core/memory.c: not used by the parts above.
- Mutexes, condition variables, timed waits, debug output, and the getters and setters of retry limit and timeout.
