# A verified model of the UDP relay and its engines

The relay accepts datagrams on two ports. A client registers by sending exactly eight bytes, read as
a 64-bit session id; a peer datagram of at least eight bytes is forwarded to the client registered
under the id in its first eight bytes. The shared logic is small. The engines around it are not: each
recycles packet buffers under a discipline that is right only because of the order of steps across
several functions. This project models the shared logic, the batched (`mmsg`), completion-queue
(`uring`) and callback (`libuv`) engines, the intrusive stack and the start-up latch, and proves what
they keep over every run, with the kernel, the event library and the other threads left free to do
whatever they may.

| file | content |
|---|---|
| `Wire.dfy` | bytes, endpoints, datagrams; the session id and its little-endian reading |
| `RelaySpec.dfy` | the reference relay: what a run should send, as a function of the datagrams seen |
| `Statistics.dfy` | wrapping per-thread counters, their aggregation, and the scaling of rates |
| `RelayLogic.dfy` | class `Relay`: session table, hand-off to sending, counters |
| `ReceiveCredits.dfy` | a library that keeps the documented contract, driving the relay |
| `IntrusiveStack.dfy` | the heap-linked LIFO |
| `MmsgRelay.dfy` | the batched engine: one slab, descriptor arrays, the send loop |
| `UringSpec.dfy` | what a worker of the completion-queue engine does, as the kernel sees it: the reference for the next file |
| `UringRelay.dfy` | the completion-queue engine: event pool, slab slices, queues, completion loop |
| `LibuvRelay.dfy` | the callback engine: reference-counted pooled buffers |
| `StartupLatch.dfy` | the latch as interleaved steps of N threads |

How the results compose. `RelaySpec.Relayed(trace)` is what a relay sends that handles each datagram of
`trace` at once, and `RelayedExactly` says what that is on the bytes alone. `RelayLogic.Relay` keeps
`forwarded == Relayed(trace)`. Each engine then proves that what it sends is `forwarded`: the batched
engine that the kernel accepts it in order, the other two that every forwarded message is either
carried by exactly one send that still holds its bytes, or has been completed once with its own bytes.
Their run theorems say that a whole run, under any script of the environment, stands where a pure
reference does that has no buffers: how it ends, which datagrams reached the relay, what the kernel took
or completed (`MmsgRelay.Reference`, `UringSpec.Reference`, `LibuvRelay.Reference`,
`ReceiveCredits.Reference`).

Assumptions about the surroundings, each visible in a parameter or a guard:

* Table and counters: each locked table operation is atomic, and so is each read-and-reset of one
  thread's counters. Between any two steps of a worker, other workers may register clients; during an
  aggregation, other threads may count.
* `recvmmsg` fills at most as many slots as it is given and cuts a datagram to its slot; `sendmmsg`
  accepts any number of messages from the front, asks for a retry, or fails.
* The ring completes submitted operations in any order, with any 32-bit result, at most the slice
  length; it may take any number of queued entries at a time.
* The event loop runs a receive burst (one allocation, the data callbacks, a closing callback) without a
  send completion or another allocation in between; sends complete in any order between bursts. Without
  multi-datagram receives, a burst is one callback. The statistics tick, on another loop, reads the threads'
  records one by one, each between two events of this thread.
* A condition variable gives the mutex back and falls asleep in one step, and may wake without a reason.

Where the code does something other than its documentation or a reader may expect, the code is modelled:

* The rate computation multiplies by eight before dividing and wraps. `BitsPerSec` proves the result
  right if and only if the eightfold byte count fits in 64 bits; `WrappedRateIsWrong` shows 2^61 bytes.
* The ring engine counts a failed send as a sent packet and adds its negative result, read as an unsigned
  32-bit number, to the bytes sent. `CountedAtLeastSent` proves the byte counter exact if and only if no
  send failed; `FailedSendIsCounted` shows one failure.
* README.md of the program says `on_session_sent` follows the completion of a send; the batched engine
  calls it when a message is queued. `MmsgRelay.IoWorker.Run` proves that counters and kernel agree exactly
  when everything forwarded has been accepted, as at the end of every frame.
* The stack asks that a pushed element be in no container. `Push` proves that this is needed: pushing an
  element already in the stack leaves a top from which no finite list starts.

## Model

| member | source | states |
|---|---|---|
| Wire.SameIdIffSamePrefix | urn/relay.hpp:196-202 | two datagrams have the same id exactly if their first eight bytes agree, so an id never stands for two prefixes |
| Wire.ByteWeights | urn/relay.hpp:196-202 | in an id, the byte at position i weighs 256^i |
| Wire.IdsAreTheSixtyFourBitIntegers | urn/relay.hpp:33 | the ids that registrations can carry are exactly the 64-bit integers |
| RelaySpec.TableHoldsFirstClaims | urn/relay.hpp:205-209 | after any interleaving of datagrams a session exists exactly for the keys claimed by an eight-byte client datagram, and belongs to the first claimant |
| RelaySpec.ForwardedToFirstClaimant | urn/relay.hpp:84-101 | a peer datagram goes to an endpoint if and only if that endpoint sent the earliest client datagram equal to its first eight bytes |
| RelaySpec.SessionsAreForever | urn/relay.hpp:135-143 | whatever happens later, a found session stays in the table with its endpoint |
| RelaySpec.RelayedExactly | urn/relay.hpp:84-101 | a run forwards exactly the forwardable datagrams, each once, in order, unchanged, to the first claimant |
| RelayLogic.Relay.TryRegisterSession | urn/relay.hpp:205-209 | registers only a free id, and reports whether it did |
| RelayLogic.Relay.FindSession | urn/relay.hpp:135-143 | the endpoint registered for an id, if any |
| RelayLogic.Relay.UpdateIoStatistics | urn/relay.hpp:212-217 | each counter of one thread grows by its amount modulo 2^64, no other thread's moves, and no traffic is lost from the books |
| RelayLogic.Relay.OnClientReceived | urn/relay.hpp:68-81 | counts one packet in with its length, for this thread alone; keeps the table the one of the reference relay; restarts the client receive, and starts a peer receive exactly per new session |
| RelayLogic.Relay.OnPeerReceived | urn/relay.hpp:84-101 | counts one packet in with its length, for this thread alone; hands over exactly what the reference relay forwards, and restarts the peer receive exactly otherwise |
| RelayLogic.Relay.OnSessionSent | urn/relay.hpp:122-132 | counts one packet out with its length, for this thread alone, and restarts the peer receive |
| RelayLogic.Relay.ReadRecord | urn/relay.hpp:220-231 | reads and zeroes one thread's record, with updates before it, and keeps reported plus held traffic equal to all traffic |
| RelayLogic.Relay.LoadStatistics | urn/relay.hpp:220-231 | drains all threads while others keep counting, and keeps reported plus held traffic equal to all traffic; undisturbed, it returns what the counters held and leaves zeros |
| RelayLogic.Relay.CountersAddUp | urn/relay.hpp:169-190 | at any time, for packets and bytes each way: all totals reported plus what the counters hold is all traffic counted, modulo 2^64 |
| Statistics.WrapKeeps | urn/relay.hpp:169-174 | a 64-bit record holds an amount modulo 2^64, so exactly as long as it fits |
| Statistics.LoadConserves | urn/relay.hpp:176-190 | an aggregation interrupted anywhere by updates loses and doubles nothing, modulo 2^64 |
| Statistics.LoadLosesNothing | urn/relay.hpp:176-190 | the same in numbers, for packets and bytes in both directions |
| Statistics.QuietLoad | urn/relay.hpp:220-231 | an undisturbed aggregation returns each sum modulo 2^64 and leaves every counter zero |
| Statistics.NoTrafficLost | urn/relay.hpp:169-192 | over any run of updates and aggregations, all reported totals plus the counters are all traffic, modulo 2^64, for packets and bytes in both directions |
| Statistics.PossibleExactly | urn/relay.hpp:169-192 | any updates and aggregations by the threads there are make a run |
| Statistics.TickPossibleExactly | urn/relay.hpp:220-231 | exactly the updates of other threads, in their own records, can land inside a tick |
| Statistics.BitsPerSec | urn/relay.hpp:255-269 | the rate is the rounded-down bit rate in its unit exactly if the bit count does not wrap; the unit is the smallest that brings it to 1000, or the largest |
| Statistics.WrappedRateIsWrong | urn/relay.hpp:255-269 | 2^61 bytes over five seconds are reported as 0, which is not their rate |
| ReceiveCredits.ContractLibrary.Complete | README.md:35-57 | a completion has the effect of the contract on datagrams, sends in flight and sends completed, and keeps the credit balance |
| ReceiveCredits.ContractLibrary.PossibleIffOutstanding | README.md:35-57 | the credits left make a completion possible exactly if, for a receive, there are more sessions than sends in flight |
| ReceiveCredits.ContractLibrary.Run | urn/relay.hpp:68-132 | every script of completions ends where the contract alone says; peer receives plus sends in flight are then as many as sessions, client receives constant, and forwarded messages in flight or sent, each once |
| ReceiveCredits.ReferenceConcat | README.md:35-57 | a script of completions can be cut anywhere |
| ReceiveCredits.OneSession | README.md:35-57 | no peer datagram can arrive before there is a session, nor while the one it has is sending; the one that does is forwarded and sent |
| IntrusiveStack.ChainIsAcyclic | urn/intrusive_stack.hpp:71-87 | a list followed by its hooks never meets an element twice |
| IntrusiveStack.ChainIsUnique | urn/intrusive_stack.hpp:101-103 | top and hooks determine the contents |
| IntrusiveStack.Stack.Push | urn/intrusive_stack.hpp:71-75 | puts the element on top and changes only its hook; the stack stays well formed if and only if the element was not in it |
| IntrusiveStack.Stack.TryPop | urn/intrusive_stack.hpp:78-86 | returns and removes the top, or null |
| IntrusiveStack.Stack.Empty | urn/intrusive_stack.hpp:95-98 | tells whether there are contents |
| IntrusiveStack.Stack.Run | urn/intrusive_stack.hpp:18-47 | every sequence of allowed pushes and pops behaves as on a mathematical stack |
| IntrusiveStack.LastInFirstOut | urn/intrusive_stack.hpp:71-87 | distinct elements pushed one by one come back in reverse, and leave the stack as it was |
| IntrusiveStack.PopOfEmpty | urn/intrusive_stack.hpp:78-86 | a pop of an empty stack returns null and leaves it empty |
| MmsgRelay.IoVectorsInit | mmsg/relay.cpp:177-193 | slots are disjoint 1024-byte slices in order, with offsets inside 32 bits |
| MmsgRelay.Recvmmsg | mmsg/relay.cpp:240-243 | slot i holds the i-th datagram, cut to the slot, and its sender; the slots themselves are unchanged |
| MmsgRelay.TakenExactly | mmsg/relay.cpp:240-268 | a ready socket gives all its datagrams, up to as many as there are slots |
| MmsgRelay.DrainExactly | mmsg/relay.cpp:270-289 | the send loop sends as much as is offered, but no more than is queued, and aborts exactly if a hard error comes first |
| MmsgRelay.SendLoopCompletes | mmsg/relay.cpp:270-289 | without a hard error, as many productive calls as messages finish the loop, whatever retries come between |
| MmsgRelay.ProductiveCounts | mmsg/relay.cpp:270-289 | the productive calls are those that accept at least one message |
| MmsgRelay.IoWorker.constructor | mmsg/relay.cpp:225-236 | the entries of all four descriptor arrays point to the slots of one slab; nothing is queued, forwarded or accepted |
| MmsgRelay.IoWorker.RunClientReceiveFrame | mmsg/relay.cpp:255-268 | hands every datagram received, with its bytes and sender, to the relay in order |
| MmsgRelay.IoWorker.StartSend | mmsg/relay.cpp:428-441 | appends to the queue a pointer that reads back the packet, and leaves the other entries reading theirs |
| MmsgRelay.IoWorker.RunPeerReceiveFrame | mmsg/relay.cpp:240-253 | afterwards the queue reads back exactly the messages forwarded in this frame, with every index below capacity |
| MmsgRelay.IoWorker.RunClientSendFrame | mmsg/relay.cpp:270-289 | the kernel takes a prefix of the queue in order, once; all of it exactly on normal exit |
| MmsgRelay.IoWorker.TickAndSend | mmsg/relay.cpp:329-367 | a tick reports one total, that of an aggregation, and leaves the counters so; then the queue is sent as the kernel allows |
| MmsgRelay.IoWorker.RunFrame | mmsg/relay.cpp:329-367 | a batched frame ends, handles datagrams and has messages accepted exactly as the reference frame, which handles its datagrams one at a time |
| MmsgRelay.IoWorker.Run | mmsg/relay.cpp:293-369 | a run ends how the reference does, with the same datagrams handled, the same messages accepted and as many totals reported; the out-counters agree with the kernel if and only if everything forwarded is accepted |
| MmsgRelay.AcceptsInOrder | mmsg/relay.cpp:293-369 | however a run ends, the kernel has accepted a prefix of what a per-packet relay sends for the datagrams of all frames; all of it if every frame got to its end |
| MmsgRelay.AcceptsEverything | mmsg/relay.cpp:270-289 | without errors, and with as many productive send calls per frame as peer datagrams taken, every frame gets to its end and everything is accepted, whatever retries and partial sends come between |
| MmsgRelay.OneFrameForwards | mmsg/relay.cpp:329-367 | from start-up, a registration and a datagram for it in one frame: the kernel accepts the datagram, unchanged, for that client, even after a retry |
| MmsgRelay.PartialSends | mmsg/relay.cpp:270-289 | two datagrams in a frame are accepted one at a time, in order, and after a hard error no more |
| UringRelay.ListenContext.constructor | uring/relay.cpp:294-299 | a fresh pool of ids 0 to n-1 over one slab |
| UringRelay.ListenContext.AllocEvent | uring/relay.cpp:191-212 | takes the last free id and resets its record to its own slice; fails exactly if none is free |
| UringRelay.ListenContext.Start | uring/relay.cpp:388-401 | establishes the state of the loop head: receives at n-1 and n-2, the main worker's timer at n-3, all others free; so the reference's initial state |
| UringRelay.ListenContext.SlicesDisjoint | uring/relay.cpp:204-205 | no two operations in flight share memory of the slab |
| UringRelay.ListenContext.QueueNeverFull | uring/relay.cpp:344-371 | at most n entries are ever queued, far below the queue depth |
| UringRelay.ListenContext.StartSend | uring/relay.cpp:535-543 | copies the packet to a free event that now carries exactly this message; fails exactly if no event is free |
| UringRelay.ListenContext.RearmRx | uring/relay.cpp:425-428 | releasing a receive and allocating one returns the same id, never fails, and leaves every send's payload alone |
| UringRelay.ListenContext.FinishSend | uring/relay.cpp:431-436 | a completed send books its message, once, with the bytes it still held, and frees its event |
| UringRelay.ListenContext.HandleCompletion | uring/relay.cpp:415-464 | keeps the whole invariant, in which this thread's in-counter is what it was handed; a tick aggregates, reports and drains; the worker runs out of events exactly if a datagram is to be forwarded while every send event is in flight |
| UringRelay.ListenContext.HandleTimer | uring/relay.cpp:454-457 | a tick reports the total of an aggregation, leaves the counters as that does, and queues the timer again |
| UringRelay.ListenContext.PossibleIffReportable | uring/relay.cpp:344-371 | the kernel can complete the operation on an event exactly if, in the reference, it holds the task that the operation is for |
| UringRelay.ListenContext.Outstanding | uring/relay.cpp:416-436 | the sends in flight are as many as the messages forwarded and not completed |
| UringRelay.ListenContext.SubmitAndWait | uring/relay.cpp:404 | the kernel takes the oldest entries of the queue, in order |
| UringRelay.ListenContext.HandleOne | uring/relay.cpp:411-464 | a completion has the effect that it has in the reference, or stops the worker there for the same reason |
| UringRelay.ListenContext.Run | uring/relay.cpp:403-471 | any run stands where the reference does: same outcome, same queue and operations held by the kernel, same datagrams relayed, same sends completed with the same results, as many totals reported; and while it runs, pool and payloads are in order |
| UringRelay.Worker | uring/relay.cpp:57 | from start-up with 16 events, a run is the reference run of a worker with 13 sends, or 14 off the main thread, and gives up only with so many in flight |
| UringSpec.NothingIsForgotten | uring/relay.cpp:388-471 | in every run both receives, the main worker's timer and every message forwarded and not completed are queued or held by the kernel, once, and nothing else is; whenever the queue is empty, the kernel holds them all |
| UringSpec.RoundTripCompletes | uring/relay.cpp:403-471 | from start-up, registering a client, forwarding a datagram and completing its send is a run that goes on, with both receives held |
| UringSpec.TimerGoesOn | uring/relay.cpp:454-457 | a timer that the kernel holds can expire; then a total is reported and the timer queued again |
| UringSpec.LateRegistration | uring/relay.cpp:416-428 | a client that another thread registers just before a peer datagram is handled gets it |
| UringRelay.CountedAtLeastSent | uring/relay.cpp:431-434 | the sent-bytes counter equals the bytes the kernel sent if and only if no send failed, and is larger otherwise |
| UringRelay.FailedSendIsCounted | uring/relay.cpp:431-434 | one send that fails with -1 adds 2^32 - 1 to the sent-bytes counter while nothing was sent |
| LibuvRelay.TakeChunk | libuv/relay.cpp:380-388 | the chunk numbered by the reference count belongs to no send in flight, and taking it keeps every count and owner right |
| LibuvRelay.DropReference | libuv/relay.cpp:402-405 | with its last reference, and only then, a buffer returns to the pool, which does not yet hold it |
| LibuvRelay.Thread.Alloc | libuv/relay.cpp:105-119 | hands a burst a buffer that no send reads |
| LibuvRelay.Thread.StartSend | libuv/relay.cpp:375-392 | a new send reads exactly the packet, all others read what they read; fails exactly if every chunk is taken |
| LibuvRelay.Thread.OnClientRead | libuv/relay.cpp:266-287 | a non-empty datagram reaches the relay; the buffer is returned at the end of the burst |
| LibuvRelay.Thread.OnPeerRead | libuv/relay.cpp:291-316 | a non-empty datagram reaches the relay; at the end of the burst the buffer is returned exactly if no send reads it |
| LibuvRelay.Thread.PeerBurst | libuv/relay.cpp:290-317 | a burst gives up if and only if more of its datagrams are to be forwarded than a buffer has chunks; its buffer is the one last returned, or new only if the pool is empty, and returns at once exactly if nothing was forwarded |
| LibuvRelay.EveryDatagramOfABurst | libuv/relay.cpp:266-316 | with multi-datagram receives, all of a client burst reaches the relay, and all of a peer burst unless the chunks run out |
| LibuvRelay.TheDatagramOfABurst | libuv/relay.cpp:266-316 | without them, the one datagram of a burst reaches the relay |
| LibuvRelay.AtMostOneEach | libuv/relay.cpp:290-317 | a burst forwards at most as many messages as it carries datagrams |
| LibuvRelay.Thread.OnSendComplete | libuv/relay.cpp:394-406 | a completing send still reads its message; the buffer is pooled exactly with its last reference |
| LibuvRelay.Thread.CompleteSend | libuv/relay.cpp:394-406 | the completion of a send under way is booked once, and its buffer goes on top of the pool exactly with its last reference; no other completion changes anything |
| LibuvRelay.Thread.ReadRecord | libuv/relay.cpp:345-355 | one read of a tick on the default loop reports a record and leaves it zero; buffers and sends are untouched |
| LibuvRelay.Thread.PooledBuffersAreIdle | libuv/relay.cpp:100-125 | no pooled buffer is read by a send, pooled twice or in a burst |
| LibuvRelay.Thread.Handle | libuv/relay.cpp:260-327 | each event of the loop has the effect, seen from outside, that it has on a thread without buffers |
| LibuvRelay.Thread.Run | libuv/relay.cpp:260-327 | over any run the same datagrams reach the relay, the same sends complete in the same order, as many records are read, and the thread stops at the same event as a thread without buffers; each buffer has one owner, each send under way reads its own message, and completed sends read what was forwarded, each once |
| LibuvRelay.EventLoop | libuv/relay.cpp:92-96 | the same from start-up, completions of buffers made during the run included; with the program's chunk and buffer sizes the abort for lack of chunks is unreachable |
| LibuvRelay.NeverOutOfChunks | libuv/relay.cpp:92-93 | no run whose bursts carry at most as many datagrams as a buffer has chunks stops for lack of a chunk |
| LibuvRelay.RoundTripCompletes | libuv/relay.cpp:394-406 | registering a client, forwarding a datagram and completing its send is a run that completes message 0 and goes on |
| LibuvRelay.TwoInOneBurstComplete | libuv/relay.cpp:380-406 | from start-up, one burst forwards two datagrams, and both sends complete, the later first, with a record read between |
| LibuvRelay.BufferComesBack | libuv/relay.cpp:105-124 | from start-up, the buffer of a completed send is the one the next burst is read into, and the only one ever made |
| StartupLatch.NobodyPassesEarly | common/latch.h:11-22 | nobody returns from wait, or binds, before all have arrived |
| StartupLatch.NoWakeupIsLost | common/latch.h:15-19 | once the latch is open and its mutex free, nobody sleeps |
| StartupLatch.NeverStuck | common/latch.h:11-22 | some worker can step, without a spurious wakeup, exactly until all have bound |
| StartupLatch.AllGetThrough | common/latch.h:11-22 | from any state a schedule can lead to, the workers can go on, without spurious wakeups, until all have bound |
| StartupLatch.PossibleExactly | common/latch.h:15-21 | a worker can step exactly if it is enabled, and wake without a reason exactly if it sleeps |
| StartupLatch.SchedulesAreBounded | common/latch.h:11-22 | N workers take at most 10 N steps plus two per spurious wakeup |
| StartupLatch.AdvancesCounts | common/latch.h:11-22 | the steps counted are those of workers |
| StartupLatch.CountdownLatch.CountDown | common/latch.h:13-18 | the critical section of the object is the step of the model |
| StartupLatch.CountdownLatch.NotifyAllAndReturn | common/latch.h:17-18 | wakes every sleeper and lets the last arrival return |
| StartupLatch.CountdownLatch.TestAndSleep | common/latch.h:21 | returns if the generation changed, otherwise sleeps and frees the mutex |
| StartupLatch.CountdownLatch.Step | uring/relay.cpp:373-384 | each step of a worker around the latch, from initialising to binding, is the step of the model |
| StartupLatch.CountdownLatch.Run | common/latch.h:11-22 | the object, under any schedule with spurious wakeups, is where the model is: nobody has passed early, nobody sleeps once it is open and free, it is stuck only when all have bound, and the steps taken are bounded |

## Left out

- RelayLogic.Relay.LoadStatistics: unsynchronised races inside one thread's record are not modelled, because the program declares the aggregation not thread-safe; each read-and-reset is atomic here.
- RelayLogic.Relay.OthersRegister: other workers appear as registrations only; what they forward is theirs and does not touch this worker's buffers.
- LibuvRelay.Thread.Fill: a buffer's memory is a sequence of regions, one per datagram, instead of flat bytes with offsets; a packet starts at the head of its region.
- MmsgRelay.IoWorker.RunClientSendFrame: the loop retries for ever; the model ends, as stalled, when its script of kernel answers does, and `SendLoopCompletes` says when it cannot.
- Sockets, binding, affinity, packet filters, address printing, signals and the real time of timers: system calls without logic of their own.
- Command lines, percentage text, float formatting and console output.
- The `receive_peer_data` path and the Seastar engine: its loop lives in Seastar and it does not follow the receive-credit protocol.
- The `demi` experiment: a thin wrapper over declarations without bodies.
- Benchmarks, the unit-test harness and the build files.
