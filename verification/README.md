# A verified model of the network layer

The repository's network layer is a reactor: an event loop with timers, two interchangeable
pollers, TCP connections over growing byte buffers, an HTTP context, an asynchronous logger,
lock-free and blocking queues, calendar arithmetic, and a JSON parser with its printer.  Most of
its classes keep two views of one fact in step and only assert the agreement.  These Dafny modules
restate that code, branch by branch, and prove the agreement for every input, every run and every
interleaving.

| module | file | subject |
|---|---|---|
| `TimerSpec`, `TimerStore`, `TimerLives`, `TimerQueues` | `TimerSpec.dfy`, `TimerStore.dfy`, `TimerLives.dfy`, `TimerQueue.dfy` | what a timer queue should do; its state as a value; what requests come to over a whole life; the queue itself, refining the first |
| `EventLoops` | `EventLoop.dfy` | the hand-off of functors between threads, and the loop |
| `TcpSpec`, `TcpConnections`, `Buffers`, `Bytes` | `TcpSpec.dfy`, `TcpConnection.dfy`, `Buffer.dfy`, `Bytes.dfy` | a connection as a value, the sending half of the class, its buffer, integer encodings |
| `Pollers` | `Pollers.dfy` | both pollers against one interest map |
| `HttpSpec`, `Http` | `HttpSpec.dfy`, `HttpContext.dfy` | the incremental parser and the response printer |
| `AsyncLog` | `AsyncLogging.dfy` | the logger and its four recycled buffers |
| `BlockingQueues`, `SpscRing`, `Kfifo` | `BoundedBlockingQueue.dfy`, `SpscRing.dfy`, `Kfifo.dfy` | a monitor, an atomic ring, a kfifo with wrapping counters |
| `Calendar` | `Calendar.dfy` | day numbers (ISO 8601:2004 section 3.2.1) and seconds since the Epoch (IEEE Std 1003.1-2017, Base Definitions section 4.16) |
| `JsonSpec`, `JsonStrings`, `JsonTrees`, `JsonParser`, `JsonLocal`, `JsonRoundTrip` | `JsonSpec.dfy`, `JsonStrings.dfy`, `JsonTrees.dfy`, `JsonParser.dfy`, `JsonLocal.dfy`, `JsonRoundTrip.dfy` | the mutually recursive parser and the configuration printer; what strings and whole documents mean, byte by byte (RFC 8259 section 7); what a reading depends on; when a map comes back |
| `Basics` | `Basics.dfy` | what several of them share |

How the pieces are modelled:

- Classes that change their fields are classes here, with the same fields; each method is proved
  against a function of the old state, and the promises are lemmas about those functions.
- System calls, clocks and the allocator are parameters that range over every answer they may give
  (`WriteResult`, `ReadResult`, `now`, `clock`, any free address).  Callbacks are scripts: any
  sequence of calls back into the object.
- Threads are steps.  `EventLoops`, `BlockingQueues` and `SpscRing` give the atomic steps of the
  protocol as a function and quantify over all sequences of them; their classes perform these steps
  in the source's own loops.  In `AsyncLog` each method is one critical section.
- In `TimerStore` memory is a map from addresses to timers.  Addresses are reused after `delete`,
  every dereference carries a proof that the timer is allocated, and every allocated timer is owned
  by exactly one place, so each is deleted once and never used afterwards.

What the proofs bring to light about the code:

- `getExpired` runs timers that are due exactly now, although its comment says it does not; the
  floor for arming the timerfd is 100 microseconds, not the milliseconds of the comment.
- A cancel that overtakes the timer's own `addTimerInLoop` is forgotten (`CancelIsFinalExactly`).
- Functors queued before `loop()` are not announced (`EntryConditionIsExact`); those queued by the
  destructor of a functor are announced exactly when something ends the next poll anyway
  (`NoLostWakeupExactly`, `DestructorAnnouncedExactly`).
- The assert in `handleClose` fails exactly for a hang-up without POLLIN but with POLLPRI or
  POLLRDHUP, when the read then finds end of file (`HandleEvent`).
- A batch of more than 25 log buffers loses all but its first two (`Overrun`), and a line as long
  as a buffer is dropped.
- A header line without a colon ends the headers.
- The printer escapes quotes but not backslashes, so a value with a backslash does not survive
  (`ObjectRoundTripExactly`); an object among the values is printed raw and comes back with its
  names unquoted, unless it is empty (`RawRoundTripExactly`).
- PollPoller cannot remove a channel whose only update had an empty mask, as that of an acceptor
  that never listened, nor register a removed channel object again, because removal leaves its
  index; EPollPoller can do both (`RunPoll`, `RemovedAfterOneUpdate`, `RegisteredAgain`).
- `connectDestroyed` on a connection that is being closed fails the assert in `Channel::remove`,
  because only an established one switches its interest off (`Life`).
- `weekDay` is negative for most days before day -1, and `tm_yday` is one too low in year -4800.
- With capacity zero every putter and every taker of the blocking queue waits for ever
  (`DeadlockExactly`, `NothingMoves`, `NobodyLeaves`).

## Model

| member | source | states |
|---|---|---|
| TimerSpec.OneShotFiresOnce | network/net/net_timer_queue.cpp:174-260 | in any run, whatever callbacks add and cancel, a timer that does not repeat runs its callback in at most one batch |
| TimerSpec.CancelIsFinal | network/net/net_timer_queue.cpp:153-172 | a cancel made outside a batch stops an inserted timer in every later batch |
| TimerSpec.CancelInBatchIsFinal | network/net/net_timer_queue.cpp:153-195 | a cancel made by a callback, once the addTimerInLoop of the timer has run, is final for every later batch, even for a timer of the running batch, self-cancel included |
| TimerSpec.CancelInBatchIsFinalExactly | network/net/net_timer_queue.cpp:153-195 | behind any calls of any batch, a cancel stops the timer in every later batch of every continuation if and only if its addTimerInLoop has already run |
| TimerSpec.OvertakenInBatch | network/net/net_timer_queue.cpp:140-172 | otherwise addTimerInLoop later in the same batch makes it run |
| TimerSpec.CancelIsFinalExactly | network/net/net_timer_queue.cpp:134-172 | a cancel stops the timer in every continuation if and only if its addTimerInLoop has already run |
| TimerSpec.EarlyCancelIsForgotten | network/net/net_timer_queue.cpp:118-172 | a cancel that overtakes addTimerInLoop is forgotten and the timer runs when it is due |
| TimerSpec.KeptUntilDue | network/net/net_timer_queue.cpp:153-260 | until it is cancelled or due an alarm stays as it was set, over any run |
| TimerSpec.FiresInFirstDueBatch | network/net/net_timer_queue.cpp:174-224 | an uncancelled timer runs in the first batch at or after its expiration and in none before it |
| TimerSpec.RepeatsFromBatchTime | network/net/net_timer.cpp:8-20 | a repeating timer that nobody cancelled is due again one interval after the batch, not after its old expiration, and still repeats with that interval |
| TimerSpec.RunsWhenAsked | network/net/net_timer_queue.cpp:118-224 | from the call that makes a timer: linked by any later call, in the same batch or not, and not cancelled after that, it runs in the first batch at or after the time asked for and in none before, however it is cancelled before it is linked |
| TimerSpec.RunsAgain | network/net/net_timer_queue.cpp:174-260 | a repeating timer that ran and is not cancelled runs again in the first batch at or after one interval from that batch, and in none between |
| TimerSpec.MadeWaits | network/net/net_timer_queue.cpp:118-151 | from the call that makes a timer until the one that links it, over any calls and events between, it keeps the time, the flag and the interval asked for |
| TimerSpec.KeepsKind | network/net/net_timer.h:23-30 | whenever a timer runs, it repeats, and with the interval, exactly as it was made |
| TimerSpec.CancelStops | network/net/net_timer_queue.cpp:153-195 | a cancel, at any place in any event, of a timer that is not on its way to addTimerInLoop is final |
| TimerSpec.DoomedNeverFires | network/net/net_timer_queue.cpp:153-260 | a timer that is gone stays gone: no later event of any run fires it |
| TimerStore.SizesAgree | network/net/net_timer_queue.cpp:264-290 | the size asserts hold: consistent indexes have equally many elements |
| TimerStore.NewOk | network/net/net_timer.h:23-30 | constructing a timer at any free address keeps the state consistent, is Create on the schedule, and gives the timer the expiration, the flag and the interval asked for |
| TimerStore.InsertOk | network/net/net_timer_queue.cpp:262-292 | linking an unlinked timer finds both indexes without it, keeps them in agreement and is Insert on the schedule |
| TimerStore.EraseOk | network/net/net_timer_queue.cpp:153-172 | an active handle is found in both indexes; erasing and deleting it keeps agreement and is Cancel on the schedule |
| TimerStore.MissOk | network/net/net_timer_queue.cpp:153-172 | a stale handle, even one whose address was reused, cancels nothing but is remembered during a batch |
| TimerStore.TakeOk | network/net/net_timer_queue.cpp:197-224 | moving everything due out of both indexes keeps agreement and begins the batch on the schedule |
| TimerStore.ReinsertOk | network/net/net_timer_queue.cpp:229-249 | restarting and reinserting a repeating timer keeps agreement and leaves the end of the batch unchanged |
| TimerStore.DeleteOk | network/net/net_timer_queue.cpp:229-249 | a one-shot or cancelled timer is live until deleted here, exactly once; the rest stays consistent |
| TimerQueues.BatchOrder | network/net/net_timer_queue.cpp:197-213 | the callbacks of a batch are the due alarms, each once, earliest expiration first |
| TimerQueues.TimerQueue.New | network/net/net_timer_queue.cpp:118-132 | the handle names the new timer by address and a sequence number never used before; the timer has the expiration, the flag and the interval asked for, and no other timer is touched |
| TimerQueues.TimerQueue.ResetTimerfd | network/net/net_timer_queue.cpp:34-81 | the timerfd is set to the expiration, but no sooner than 100 microseconds from now |
| TimerQueues.TimerQueue.Insert | network/net/net_timer_queue.cpp:262-292 | reports a change exactly when the new timer is earlier than all others, and links it in both indexes |
| TimerQueues.TimerQueue.AddInLoop | network/net/net_timer_queue.cpp:140-151 | refines Insert of the schedule; whatever the timerfd covered before is still covered |
| TimerQueues.TimerQueue.Cancel | network/net/net_timer_queue.cpp:153-172 | refines Cancel of the schedule for every handle ever issued; timers of the running batch stay allocated |
| TimerQueues.TimerQueue.CopyExpired | network/net/net_timer_queue.cpp:200-211 | exactly the entries due at now, now included, in increasing order |
| TimerQueues.TimerQueue.GetExpired | network/net/net_timer_queue.cpp:197-224 | removes exactly the due timers from both indexes; every erase finds its element |
| TimerQueues.TimerQueue.RunExpired | network/net/net_timer_queue.cpp:189-193 | every callback of the batch runs once on a live timer, and exactly what the callbacks request is done, in order |
| TimerQueues.TimerQueue.Reset | network/net/net_timer_queue.cpp:229-260 | ends the batch as the schedule says, frees what does not repeat, and leaves the timerfd covering every timer |
| TimerQueues.TimerQueue.HandleRead | network/net/net_timer_queue.cpp:174-195 | one batch of the schedule with the actions the callbacks request, in expiration order; afterwards no timer is lost |
| TimerQueues.TimerQueue.RunSteps | network/net/net_timer_queue.cpp:118-292 | a whole life: each step makes the event its requests stand for, runs a callback exactly when the schedule fires it (a one-shot timer so at most once), keeps the indexes in agreement and every timer covered by the armed timerfd; every timer added runs in the first timerfd event at or past the time asked for, again one interval after each event that ran it if it repeats, and in no other, until it is cancelled, and never after that |
| TimerLives.FiredIsScheduled | network/net/net_timer_queue.cpp:174-195 | what the queue runs over a life is what the schedule fires, so the laws of the schedule are laws of the queue |
| TimerLives.TimerRuns | network/net/net_timer_queue.cpp:118-195 | what a user of addTimer gets, on the queue itself: a timer made at any place of any step and added at any later one, and not cancelled after that, runs in the first timerfd event at or past the time asked for and in none before |
| TimerLives.TimerRunsAgain | network/net/net_timer_queue.cpp:174-260 | and a repeating one runs again, every time, in the first timerfd event at or past one interval from the event that ran it, and in none between |
| TimerLives.TimerStops | network/net/net_timer_queue.cpp:153-195 | a cancel of a handle that addTimer returned, made outside or by a callback, after the addTimerInLoop of the timer: it runs in no later step |
| TimerLives.TimerRunsOnce | network/net/net_timer_queue.cpp:174-260 | a timer made without an interval runs in one step at most |
| TimerQueues.RunEvery | network/net/net_timer_queue.cpp:118-292 | runAt and runEvery on a new queue: the callback runs at the first wakeup at or past its time, and at the later ones, an interval or more apart, exactly when it repeats |
| TimerLives.ScriptStands | network/net/net_timer_queue.cpp:118-172 | any requests lead the queue where the actions they stand for lead the schedule, and never take back an address handed out |
| TimerLives.PerformInTwo | network/net/net_timer_queue.cpp:140-172 | requests made in two parts do what they do in one |
| EventLoops.FunctorsInOrder | network/net/net_event_loop.cpp:182-192 | over all interleavings functors start at most once and in queue order, functors queued by functors included; with QueuedIsQueuedBy, in the order of the calls of queueInLoop |
| EventLoops.QueuedIsQueuedBy | network/net/net_event_loop.cpp:182-192 | over all interleavings what has been queued is exactly the functors of the queueInLoop calls, whoever made them, in order; until doPendingFunctors takes the queue, all of it is in the queue |
| EventLoops.QuitIsQuitBy | network/net/net_event_loop.cpp:150-160 | the loop is told to end if and only if somebody called quit |
| EventLoops.PlaceIs | network/net/net_event_loop.cpp:150-192 | each thread goes through its calls one half after the other, whatever the others do |
| EventLoops.ExitedStays | network/net/net_event_loop.cpp:110-148 | after loop() nothing is run any more, whoever still queues |
| EventLoops.NoLostWakeup | network/net/net_event_loop.cpp:110-148 | as long as destructors of functors queue only where something ends the next poll, whenever the loop thread polls with a functor or a quit pending the eventfd is readable or some thread is between its push and its wakeup |
| EventLoops.NoLostWakeupExactly | network/net/net_event_loop.cpp:110-148 | for every run of every set of threads: no poll, in progress or begun at once, is in vain if and only if no destructor queues, before the loop goes on to poll, while nothing is going to end that poll |
| EventLoops.DestructorAnnouncedExactly | network/net/net_event_loop.cpp:277-293 | what one destructor queues is announced if and only if the eventfd is readable or another thread is about to wake the loop |
| EventLoops.EntryConditionIsExact | network/net/net_event_loop.cpp:110-148 | that holds for all runs if and only if loop() is entered with an empty queue, a readable eventfd, or a thread about to write to it |
| EventLoops.DestructorQueuesUnannounced | network/net/net_event_loop.cpp:277-293 | on an idle loop, for one, a functor queued by the destructor of a functor, after callingPendingFunctors_ is reset, is not announced: the next poll waits in vain |
| EventLoops.OneTurnRunsEverything | network/net/net_event_loop.cpp:110-148 | once the poll has ended, one undisturbed turn runs everything queued |
| EventLoops.CoveredStep | network/net/net_event_loop.cpp:182-292 | a step of any thread keeps the wakeup invariant unless a destructor queues while nothing is going to end the next poll, which breaks it |
| EventLoops.OrderStep | network/net/net_event_loop.cpp:182-293 | every step keeps: started, rest of the batch and queue are together everything queued, in order |
| EventLoops.EventLoop.QueueInLoop | network/net/net_event_loop.cpp:182-192 | appends to the queue, and while functors are being called leaves the eventfd readable; these are steps of the protocol |
| EventLoops.EventLoop.OtherThread | network/net/net_event_loop.cpp:150-192 | another thread that begins queueInLoop has its functor at the end of the queue, one that begins quit has set the flag, the second half of either adds one to the eventfd; each is a step of the protocol and leaves the loop thread alone |
| EventLoops.EventLoop.DoPendingFunctors | network/net/net_event_loop.cpp:277-293 | runs exactly what was queued when it began, once and in order; what functors and threads queue meanwhile is the queue it leaves, in order |
| EventLoops.EventLoop.Perform | network/net/net_event_loop.cpp:150-192 | user code on the loop thread, and other threads meanwhile, make exactly the steps of the protocol their calls stand for: every functor they queue is in the queue, in order, and a quit is noted |
| EventLoops.EventLoop.TakeTurn | network/net/net_event_loop.cpp:118-144 | one turn runs what was queued before it and everything that other threads queued during the poll and callbacks queued, in order; what is queued later waits; it ends polling or, exactly after a quit, outside |
| EventLoops.EventLoop.Loop | network/net/net_event_loop.cpp:110-148 | loop() is the run of the protocol that its turns make: every functor of a queueInLoop call has run or is still queued, in the order of the calls, nothing queued before it is left behind, no wakeup is lost, and it ends exactly after a quit |
| EventLoops.AskedInTwo | network/net/net_event_loop.cpp:150-192 | what two stretches of user code ask for, one after the other, is what they ask for together, threads inside a call between them included |
| TcpConnections.TcpConnection.SendInLoop | network/net/net_tcp_connection.cpp:158-217 | the payload is accepted unless the connection is gone or the direct write met EPIPE or ECONNRESET; accepted bytes are in the kernel or behind the backlog, in order; one write-complete is queued when the direct write took everything and one high-water callback when the backlog rose through the mark, if the user set them, and nothing else |
| TcpConnections.TcpConnection.WriteDirectly | network/net/net_tcp_connection.cpp:171-196 | the kernel takes a prefix of the payload; the write-complete callback is queued exactly when it takes all and the callback is set |
| TcpConnections.TcpConnection.Enqueue | network/net/net_tcp_connection.cpp:199-216 | the rest waits in the buffer with write interest on; the high-water callback is queued exactly when the backlog rises through the mark |
| TcpConnections.TcpConnection.Send | network/net/net_tcp_connection.cpp:88-114 | outside kConnected nothing is accepted and nothing changes |
| TcpConnections.TcpConnection.Shutdown | network/net/net_tcp_connection.cpp:223-243 | the write side closes here exactly when every accepted byte is already in the kernel |
| TcpConnections.TcpConnection.HandleWrite | network/net/net_tcp_connection.cpp:419-468 | the kernel takes a prefix of the backlog; the write that empties it ends a shutdown in progress and queues the write-complete callback if it is set; no other write queues anything |
| TcpConnections.TcpConnection.ForceClose | network/net/net_tcp_connection.cpp:269-299 | an open connection goes to kDisconnecting with one closing functor queued; otherwise nothing changes |
| TcpConnections.TcpConnection.HandleRead | network/net/net_tcp_connection.cpp:395-417 | whatever the message callback does, the invariants hold; the assert of handleClose fails exactly for end of file on a closed connection |
| TcpConnections.TcpConnection.HandleEvent | network/net/net_channel.cpp:99-134 | a writable socket alone hands over what the kernel takes and changes nothing else; a hang-up without POLLIN, or end of file, closes; data goes to the message callback; the assert of handleClose fails exactly for a hang-up without POLLIN, with POLLPRI or POLLRDHUP, whose read finds end of file |
| TcpConnections.TcpConnection.Run | network/net/net_tcp_connection.cpp:88-490 | over any life the bytes accepted are the payloads sent and not refused; the kernel bytes followed by the output buffer are those bytes in order; after the write side closes nothing more goes out; there is one write-complete callback for each write that left nothing waiting, if it is set, and one closing functor for each forced close of an open connection; between any two high-water callbacks the backlog was below the mark |
| TcpConnections.Life | network/net/net_tcp_connection.cpp:33-490 | the same from the constructor to connectDestroyed, whose assert in Channel::remove fails exactly while a close is under way |
| TcpConnections.TcpConnection.ConnectDestroyed | network/net/net_tcp_connection.cpp:382-393 | only an established connection is closed; the assert of Channel::remove fails exactly while a close is under way, or for a connection never established with bytes waiting |
| TcpConnections.TcpConnection.Drain | network/net/net_tcp_connection.cpp:429-453 | the bytes taken leave the backlog; the write that empties it switches write interest off, queues the write-complete callback if it is set, and ends a shutdown |
| TcpSpec.LifeAccepts | network/net/net_tcp_connection.cpp:88-217 | what is accepted over a life is what was sent and not refused, in order |
| TcpSpec.LifeTallied | network/net/net_tcp_connection.cpp:158-299 | over any life as many write-complete callbacks are queued as writes left nothing waiting, and as many closing functors as forced closes found the connection open |
| TcpSpec.StepTallied | network/net/net_tcp_connection.cpp:158-468 | the same for every step: a call, a queued send or close, an event with everything its callbacks do |
| TcpSpec.CallbacksSeparated | network/net/net_tcp_connection.cpp:203-210 | each high-water callback is told the backlog at a rise through the mark, and between any two of them the backlog was below it |
| TcpSpec.BacklogNoted | network/net/net_tcp_connection.cpp:203-210 | queueing the callback when the backlog rises keeps one callback for each rise |
| TcpSpec.RisesAreRises | network/net/net_tcp_connection.cpp:203-210 | the recorded rises are the places where the backlog passes the mark, in order |
| Buffers.Buffer.Append | network/net/net_buffer.h:195-216 | appends to the readable bytes, whether space is there, is made by compaction, or by growth |
| Buffers.Buffer.Prepend | network/net/net_buffer.h:382-388 | puts the bytes before the readable bytes |
| Buffers.Buffer.MakeSpace | network/net/net_buffer.h:422-452 | growing or compacting changes no readable byte, its assert holds, and there is room afterwards |
| Buffers.Buffer.MoveToFront | network/net/net_buffer.h:436-451 | the overlapping copy keeps the readable bytes |
| Buffers.Buffer.EnsureWritableBytes | network/net/net_buffer.h:218-225 | room for len bytes, readable bytes unchanged; nothing moves when there was room |
| Buffers.Buffer.Retrieve | network/net/net_buffer.h:123-139 | drops the first len readable bytes, on both branches |
| Buffers.Buffer.RetrieveAsString | network/net/net_buffer.h:179-188 | returns the first len readable bytes and drops them |
| Buffers.Buffer.Unwrite | network/net/net_buffer.h:243-247 | takes back the last len readable bytes |
| Buffers.Buffer.Shrink | network/net/net_buffer.h:390-397 | keeps the content and leaves room for the reserve |
| Buffers.Buffer.ReadFd | network/net/net_buffer.cpp:42-90 | appends exactly the bytes read, for any count the two iovecs allow; an error appends nothing |
| Buffers.Buffer.AppendInt | network/net/net_buffer.h:252-277 | appends the big-endian two's complement bytes |
| Buffers.Buffer.PeekInt | network/net/net_buffer.h:318-350 | reads the one integer whose big-endian bytes are first, leaving the buffer alone |
| Buffers.Buffer.ReadInt | network/net/net_buffer.h:282-312 | what it returns, encoded, followed by what is left, is what there was |
| Buffers.Buffer.PrependInt | network/net/net_buffer.h:356-380 | puts the encoding before the readable bytes |
| Buffers.Buffer.FindCRLF | network/net/net_buffer.h:92-97 | the offset of the first CR LF, or none |
| Bytes.SignedRoundTrip | network/net/net_buffer.h:252-350 | a signed integer of any width is read back from its encoding |
| Bytes.SignedOnto | network/net/net_buffer.h:318-350 | every byte string is the encoding of the integer read from it |
| Bytes.ReadBack | network/net/net_buffer.h:252-312 | an appended integer followed by anything is read back, leaving the rest |
| Bytes.SignedBigEndian | network/net/net_buffer.h:252-277 | byte i of n stands for 256 to the power n - 1 - i, in two's complement: network byte order |
| HttpSpec.ParseInTwo | network/http/net_http_context.cpp:52-118 | parsing what has arrived and then the rest is parsing all of it at once |
| HttpSpec.ChunkingIndependence | network/http/net_http_context.cpp:52-118 | for every split into messages, state, request, answer and left-over bytes are those of one call on the whole |
| HttpSpec.LineAccepted | network/http/net_http_context.cpp:7-49 | every line "method SP target SP HTTP/1.0 or 1.1" with a known method is accepted, with the fields it says; PrintedLineReadBack says which bytes these are |
| HttpSpec.OnlyLinesAccepted | network/http/net_http_context.cpp:7-49 | no other line is accepted |
| HttpSpec.PrintedLineReadBack | network/http/net_http_request.h:96-121 | for every request, target and minor version, the line printed byte by byte from a method is accepted and read as that method, that version and that target |
| HttpSpec.NamesReadBack | network/http/net_http_request.h:59-89 | GET, POST, HEAD, PUT and DELETE, spelled out in bytes, are read as the methods of these names |
| HttpSpec.AcceptedLineIsPrinted | network/http/net_http_context.cpp:7-49 | an accepted line is, byte by byte, the line printed from the method it sets: its first word is the methodString of that method |
| HttpSpec.MethodNames | network/http/net_http_request.h:59-89 | setMethod takes exactly the five names |
| HttpSpec.TargetSplits | network/http/net_http_context.cpp:18-28 | path and query, question mark included, are the target cut at its first question mark |
| HttpSpec.OneHeader | network/http/net_http_context.cpp:82-104 | one printed header line is read as that header and the parser goes on behind it |
| HttpSpec.BlanksAroundValue | network/http/net_http_request.h:152-167 | any spaces, tabs and feeds before and behind the value of a header line are dropped, none inside it, and the parser goes on behind the line |
| HttpSpec.HeadersRoundTrip | network/http/net_http_response.cpp:60-66 | the block printed for any clean header map is read back as that map |
| HttpSpec.MessageRoundTrip | network/http/net_http_response.cpp:60-73 | header block, empty line and body are read back as the headers, leaving exactly the body |
| Http.ResponseReadBack | network/http/net_http_response.cpp:51-73 | what follows the status line is read back as the same headers plus Connection, leaving exactly the body |
| Http.ConnectionPrinted | network/http/net_http_response.cpp:51-66 | among the headers printed is, byte by byte, Connection: close or Connection: Keep-Alive, as closeConnection says |
| Http.DecimalDenotes | network/http/net_http_response.cpp:45-46 | the status is printed in decimal digits that denote it, without a leading zero |
| Http.HttpContext.ProcessRequestLine | network/http/net_http_context.cpp:7-49 | the pointer searches compute the specified request line, fields set on failure included; an accepted line begins with the methodString of the method set, and a space |
| Http.HttpContext.ParseLine | network/http/net_http_context.cpp:58-113 | one turn of the loop consumes readable bytes or stops, and leaves the outcome of parsing unchanged |
| Http.HttpContext.ParseRequest | network/http/net_http_context.cpp:52-118 | terminates, and state, request, answer and buffer are those specified |
| Http.HttpContext.ParseMessages | network/http/net_http_context.cpp:52-118 | one call per message on a real buffer gives the outcome of all the bytes at once |
| Http.HttpRequest.AddHeader | network/http/net_http_request.h:152-167 | the name is what precedes the colon, the value is trimmed on both sides; a later line replaces an earlier one |
| Http.HttpResponse.AppendHeaders | network/http/net_http_response.cpp:60-66 | each header is printed once |
| Http.HttpResponse.AppendToBuffer | network/http/net_http_response.cpp:41-74 | HTTP/1.1, code and message, each header once with Connection set, external header, empty line and body, appended to what the buffer held |
| BlockingQueues.TakesInPutOrder | network/net_base/bounded_blocking_queue.h:29-65 | in any run takes return the items in put order, none lost or doubled, and the size never exceeds the capacity |
| BlockingQueues.NobodyForgotten | network/net_base/bounded_blocking_queue.h:29-65 | with barging and spurious wakeups, an item is never left while every taker inside sleeps unsignalled, nor a free slot while every putter does |
| BlockingQueues.NoDeadlock | network/net_base/bounded_blocking_queue.h:29-65 | putters and takers never all wait unsignalled together unless the capacity is zero |
| BlockingQueues.DeadlockExactly | network/net_base/bounded_blocking_queue.h:29-65 | some run leaves all of them asleep with nobody on the way if and only if the capacity is zero |
| BlockingQueues.FirstTwoSleep | network/net_base/bounded_blocking_queue.h:29-65 | one take and one put are enough for it |
| BlockingQueues.OneIsNotEnough | network/net_base/bounded_blocking_queue.h:29-65 | and no shorter run is: theirs is the shortest deadlock |
| BlockingQueues.NothingMoves | network/net_base/bounded_blocking_queue.h:29-65 | with capacity zero no run puts or takes anything |
| BlockingQueues.NobodyLeaves | network/net_base/bounded_blocking_queue.h:29-65 | with capacity zero who is inside put or take stays inside |
| BlockingQueues.RunMatched | network/net_base/bounded_blocking_queue.h:29-65 | while a taker sleeps unsignalled there are at most as many items as signalled takers; the same for putters and free slots |
| BlockingQueues.MatchedStep | network/net_base/bounded_blocking_queue.h:29-65 | every critical section keeps that balance |
| BlockingQueues.BoundedBlockingQueue.Put | network/net_base/bounded_blocking_queue.h:29-39 | the wait loop, with any steps of other threads during each wait, is a run of the protocol and returns only with its item appended |
| BlockingQueues.BoundedBlockingQueue.Take | network/net_base/bounded_blocking_queue.h:53-65 | the same for take, which returns the item that was at the front |
| SpscRing.PopsArePrefixOfPushes | base/base_ring_buffer.h:205-235 | over all interleavings of loads, slot accesses and stores, with stale loads, popped values are a prefix of pushed ones and occupancy never exceeds Size - 1 |
| SpscRing.UnreadSlotsUntouched | base/base_ring_buffer.h:205-219 | the slot being written is never an unread one |
| SpscRing.RefusalsAreHonest | base/base_ring_buffer.h:205-235 | push refuses exactly when its view shows Size - 1 items, pop exactly when its view shows none |
| SpscRing.CountersStep | base/base_ring_buffer.h:205-247 | every step keeps the counters within a turn of each other |
| SpscRing.ContentsStep | base/base_ring_buffer.h:205-247 | every step keeps each unread value in its slot |
| SpscRing.BaseSimpleRingBuffer.Push | base/base_ring_buffer.h:205-219 | on the array: refuses exactly when full by its view, otherwise the value is pushed; these are the steps of the protocol |
| SpscRing.BaseSimpleRingBuffer.Pop | base/base_ring_buffer.h:224-236 | on the array: returns the oldest unread value, or refuses and leaves the caller's variable |
| Kfifo.IsPowerOf2Exact | base/base_ring_buffer.h:260-263 | the bit test says yes exactly for powers of two |
| Kfifo.RoundupPowerOf2 | base/base_ring_buffer.h:270-282 | for 0 < a < 2^30 the result is the power of two above a: r / 2 <= a < r |
| Kfifo.RoundupIsLeast | base/base_ring_buffer.h:270-282 | for a that is not a power of two it is the least power of two not below a |
| Kfifo.MaskIsMod | base/base_ring_buffer.cpp:65-89 | masking with size - 1 is the remainder when the size is a power of two |
| Kfifo.WrapKeepsSlots | base/base_ring_buffer.cpp:35-101 | wrapping a counter at 2^32 does not change the slots counted from it |
| Kfifo.WrittenBehind | base/base_ring_buffer.cpp:80-101 | slots written behind the content continue it and are none of those in use |
| Kfifo.Grown | base/base_ring_buffer.cpp:80-101 | bytes stored behind the content extend it, for every counter value |
| Kfifo.Shrunk | base/base_ring_buffer.cpp:52-79 | counting from a moved counter drops the first bytes of the content |
| Kfifo.FreeSpace | base/base_ring_buffer.cpp:80-101 | the unsigned difference the source computes is the free space, wherever the counters are |
| Kfifo.BaseSingleRingBufferData.constructor | base/base_ring_buffer.cpp:6-26 | the size is the least power of two not below the request; the content is empty |
| Kfifo.BaseSingleRingBufferData.Store | base/base_ring_buffer.cpp:85-89 | the two copies put byte j in the slot j places on and change no other slot |
| Kfifo.BaseSingleRingBufferData.Load | base/base_ring_buffer.cpp:63-71 | the two copies return the first bytes of the content |
| Kfifo.BaseSingleRingBufferData.BaseWrite | base/base_ring_buffer.cpp:80-101 | appends as much as fits to the FIFO, and says how much, for every counter value |
| Kfifo.BaseSingleRingBufferData.BaseRead | base/base_ring_buffer.cpp:52-79 | takes up to len bytes from the front of the FIFO |
| Kfifo.BaseSingleRingBufferData.MoveOut | base/base_ring_buffer.cpp:35-43 | drops up to len bytes from the front |
| Kfifo.BaseSingleRingBufferData.MoveIn | base/base_ring_buffer.cpp:44-50 | claims up to the free space, keeping what is there |
| AsyncLog.AsyncLogging.Append | network/net_base/async_logging.cpp:33-55 | a line is added to what is in memory exactly when it is shorter than a buffer |
| AsyncLog.AsyncLogging.Rotate | network/net_base/async_logging.cpp:40-51 | queueing the full buffer and taking the spare, or a new one, loses nothing |
| AsyncLog.AsyncLogging.TakeBuffers | network/net_base/async_logging.cpp:75-91 | the batch is the full buffers and the current one, in order; both shared buffers are empty again |
| AsyncLog.AsyncLogging.Drop | network/net_base/async_logging.cpp:93-108 | a batch of more than 25 buffers keeps its first two, after a message; with lines shorter than a buffer what is dropped is not empty |
| AsyncLog.AsyncLogging.WriteOne | network/net_base/async_logging.cpp:110-114 | one buffer moves from memory to the file |
| AsyncLog.AsyncLogging.Recycle | network/net_base/async_logging.cpp:115-138 | two spare empty buffers can always be rebuilt: the asserts of threadFunc hold |
| AsyncLog.AsyncLogging.WriterStep | network/net_base/async_logging.cpp:57-142 | no step of the writer loses or reorders anything, except beginning a batch of more than 25 buffers |
| AsyncLog.AsyncLogging.Run | network/net_base/async_logging.cpp:33-142 | over any schedule what is logged are the lines shorter than a buffer; file, in-flight, queued and current buffers are all of it in order, unless some batch exceeded 25 buffers; beginning to write such a batch does lose part of it; the writer makes its steps |
| AsyncLog.Overrun | network/net_base/async_logging.cpp:33-142 | 26 lines that each fill a buffer, before the writer first runs, and part of what was logged is neither in the file nor in memory |
| AsyncLog.ContentConcat | network/net_base/async_logging.cpp:110-114 | writing buffers one by one writes their concatenation |
| Pollers.SideBySide | network/poller/net_poll_poller.cpp:68-136 | over any legal run EPollPoller has the registered channels and for each descriptor the mask last set, and PollPoller the same, exactly when every removed channel had a second update and none is registered again |
| Pollers.WantedIsLastSet | network/poller/net_epoll_poller.cpp:126-191 | what a descriptor is watched for is what the last call for it set, and nothing once it is removed |
| Pollers.ReadyIs | network/poller/net_poll_poller.cpp:48-66 | reported are the descriptors of exactly the entries with an event |
| Pollers.RunPoll | network/poller/net_poll_poller.cpp:68-136 | PollPoller over any legal run, with the channel objects as their owners keep them: its asserts hold throughout if and only if that condition holds, and then its channels and masks are those asked for |
| Pollers.RunEPoll | network/poller/net_epoll_poller.cpp:126-215 | EPollPoller gets through every legal run and has the channels and masks asked for |
| Pollers.AssertsAre | network/poller/net_poll_poller.cpp:68-136 | the asserts of updateChannel and removeChannel, read off the entries, are the condition on the past updates |
| Pollers.RemovedAfterOneUpdate | network/poller/net_poll_poller.cpp:106-117 | the failing input: a channel updated once, with an empty mask, and removed |
| Pollers.RemovedAfterTwoUpdates | network/poller/net_poll_poller.cpp:106-117 | after a second update, empty as it may be, the removal is taken |
| Pollers.RegisteredAgain | network/poller/net_poll_poller.cpp:86-90 | a removed channel object registered again fails the assert of updateChannel, a new object does not |
| Pollers.PollPoller.UpdateChannel | network/poller/net_poll_poller.cpp:68-104 | indices stay a bijection and the map gets the new mask; an entry is negated exactly for a registered channel without events |
| Pollers.PollPoller.RemoveChannel | network/poller/net_poll_poller.cpp:106-136 | swap-remove keeps the bijection and the map; the removed channel keeps its index |
| Pollers.PollPoller.FillActiveChannels | network/poller/net_poll_poller.cpp:48-66 | reports exactly the ready channels, in array order, each with its events; the early exit misses none |
| Pollers.AddedOk | network/poller/net_poll_poller.cpp:72-86 | a new entry at the end keeps the bijection |
| Pollers.ChangedOk | network/poller/net_poll_poller.cpp:88-103 | rewriting in place keeps the bijection |
| Pollers.RemovedOk | network/poller/net_poll_poller.cpp:106-136 | moving the last entry into the hole keeps the bijection and every other mask |
| Pollers.EPollPoller.Update | network/poller/net_epoll_poller.cpp:193-215 | ADD only when the kernel does not know the descriptor, MOD and DEL only when it does |
| Pollers.EPollPoller.UpdateChannel | network/poller/net_epoll_poller.cpp:126-170 | the index machine follows the kernel registration and the map gets the new mask |
| Pollers.EPollPoller.RemoveChannel | network/poller/net_epoll_poller.cpp:172-191 | an idle channel is forgotten by the kernel if it was known, and the map is unchanged for all others |
| Calendar.NextDateIsNextNumber | network/net_base/base_date.cpp:14-25 | consecutive dates of the Gregorian calendar have consecutive numbers |
| Calendar.NumberingIsUnique | network/net_base/base_date.cpp:14-42 | any numbering that gives 1970-01-01 the number 2440588 and consecutive dates consecutive numbers is that of getJulianDayNumber |
| Calendar.DateRoundTrip | network/net_base/base_date.cpp:14-39 | getYearMonthDay inverts getJulianDayNumber on every valid date from -4800-03-01 that its int arithmetic can take |
| Calendar.NumberRoundTrip | network/net_base/base_date.cpp:14-39 | getJulianDayNumber inverts getYearMonthDay on every number from -32044 to the int bound, and the result is a valid date |
| Calendar.EveryNumberIsADate | network/net_base/base_date.cpp:14-25 | every such number is the number of a date |
| Calendar.OrderIsCalendarOrder | network/net_base/base_date.h:96-99 | comparing numbers is comparing dates |
| Calendar.WeekDayFollowsDays | network/net_base/base_date.h:85-88 | the weekday advances by one a day from day -1 on; before that it is a weekday number only on Sundays |
| Calendar.ToUtcTime | network/net_base/time_zone.cpp:314-340 | fromUtcTime(toUtcTime(t)) == t, negative t included; weekday and day of the year are those of the date |
| Calendar.SecondsOfTheClock | network/net_base/time_zone.cpp:342-355 | one second later on the clock, over minutes, hours, days, months and years, is one second more, and midnight of January 1st, 1970 is 0 |
| Calendar.FromUtcTimeInjective | network/net_base/time_zone.cpp:342-355 | two different valid broken-down times never have the same seconds |
| Calendar.DayOfYearIs | network/net_base/time_zone.cpp:334-338 | tm_yday is the day of the year, except in year -4800, where it is one too low |
| JsonParser.ExtractString | base/base_json_parser.cpp:87-182 | terminates; on success the cursor advances to the specified place, on failure cursor and string are untouched; a string spelled as section 7 of RFC 8259 has it is read as what it means, so every value is read back from its escaped text |
| JsonParser.ExtractValue | base/base_json_parser.cpp:185-254 | the same for a value of any kind, through the mutual recursion |
| JsonParser.ExtractArrayAsString | base/base_json_parser.cpp:257-313 | the same for an array, rebuilt as text |
| JsonParser.ExtractObjectAsString | base/base_json_parser.cpp:316-388 | the same for an object, rebuilt as text |
| JsonParser.SimpleJsonParser | base/base_json_parser.cpp:26-84 | the loop computes the specified map; every compact document that is an object gives its values by name, the first value of a name; every value comes back from its escaped text |
| JsonSpec.Value | base/base_json_parser.cpp:185-254 | whatever is read, the cursor moves forward on success and never past the NUL |
| JsonStrings.StringMeans | base/base_json_parser.cpp:87-182 | a string spelled in plain characters, the eight short escapes of RFC 8259 and \u with four characters is read as what these mean; \u adds nothing |
| JsonStrings.StrIsSpelled | base/base_json_parser.cpp:87-182 | and nothing else is accepted as a string |
| JsonStrings.EscapedReadBack | base/base_json_parser.cpp:141-169 | every value is read back from its text as section 7 of RFC 8259 escapes it, backslashes and line ends included |
| JsonStrings.SpacesSkipped | base/base_json_parser.cpp:26-33 | spaces are skipped, all of them, and nothing else |
| JsonTrees.ValueReads | base/base_json_parser.cpp:185-388 | every compact value, nested as deep as it may be, is read as what it comes to: strings without their escapes, in arrays and inner objects with their quotes, names of inner objects without them |
| JsonTrees.DocumentReads | base/base_json_parser.cpp:26-84 | every compact document that is an object is read as its values by name |
| JsonTrees.FirstStays | base/base_json_parser.cpp:62-63 | of two members of one name the first stays, and there are no other names |
| JsonTrees.OneFieldReadBack | base/base_json_parser.cpp:26-182 | a name and a value, both escaped by RFC 8259, come back as they were |
| JsonRoundTrip.BodyReadsEscaped | base/base_json_parser.cpp:87-182 | a value as the configuration printer escapes it is read back up to its closing quote |
| JsonRoundTrip.BodyCost | base/base_json_parser.cpp:87-182 | reading a string takes one backslash of text for each quote read and two for each backslash, wherever the string ends |
| JsonRoundTrip.FieldReads | base/base_json_parser.cpp:42-84 | one printed entry is read back as its name and as what its value becomes, up to the character behind it |
| JsonRoundTrip.FieldsReadEntries | base/base_json_parser.cpp:42-84 | the parser reads every printed entry, in order, into the map |
| JsonRoundTrip.ObjectRoundTrip | webcamera/web_camera_control_handler.cpp:62-90 | when every value survives (strings without a backslash, objects rebuilt to themselves) the parser returns exactly the map that was printed |
| JsonRoundTrip.ObjectRoundTripExactly | webcamera/web_camera_control_handler.cpp:62-90 | the parser returns the printed map if and only if no value has a backslash, which the printer does not escape (names plain, no NUL, nothing embedded raw) |
| JsonRoundTrip.RawRoundTripExactly | webcamera/web_camera_control_handler.cpp:76-81 | where no string has a backslash, the map comes back if and only if the only object among its values is the empty one |
| JsonLocal.RawSurvivesExactly | base/base_json_parser.cpp:316-388 | an object is rebuilt to itself exactly when it is empty, because every name loses its quotes |
| JsonLocal.RawReads | base/base_json_parser.cpp:185-254 | an object embedded in a text is read as it would be alone |
| JsonLocal.ValueLocal | base/base_json_parser.cpp:185-254 | what a successful extractor reads does not depend on the text around it |
| JsonLocal.MembersLength | base/base_json_parser.cpp:316-388 | an object is rebuilt to no more characters than it was read from |
| JsonRoundTrip.FieldsBreak | webcamera/web_camera_control_handler.cpp:62-90 | the first value that does not survive is read back as another one or makes the parser give up, whatever entries follow |
| JsonRoundTrip.FieldsKeep | base/base_json_parser.cpp:62-63 | a later field never replaces the value of a name already there |
| JsonParser.StringReplace | base/base_str_tools.cpp:27-49 | every occurrence is replaced once, left to right, never inside what was put in; an empty pattern changes nothing |
| JsonParser.AppendEntry | webcamera/web_camera_control_handler.cpp:62-90 | comma, name and value; a value that is itself an object is embedded as it is |
| JsonParser.PrintConfig | webcamera/web_camera_control_handler.cpp:15-92 | the reply is the status followed by the object; the parser reads the object back as the same map exactly when no value has a backslash (with no value embedded raw), or when the only object among the values is the empty one (with no backslash) |

## Left out

- TimerQueues.TimerQueue.RunSteps: batches happen at positive times, as the clock gives them; a timer with a non-positive expiration is covered as soon as it is inserted but not re-armed by `reset`, as in the source.
- HttpSpec.ChunkingIndependence: receive time is not part of the compared request; `ParseLine` says when it is set.
- JsonRoundTrip.ObjectRoundTrip: for a map that has both a string with a backslash and an object among its values, only that it comes back when every value survives; the converse is shown for maps with one of the two.
- JsonParser.PrintConfig: values contain no NUL, because SimpleJsonParser reads its argument as a C string.
- Kfifo.RoundupPowerOf2: arguments from 2^30 on, where the shift no longer fits an int.
- Calendar.DateRoundTrip: dates before -4800-03-01 and numbers whose fourfold does not fit an int.
- SpscRing.BaseSimpleRingBuffer.Push: the class performs the three steps of a call without interruption; interleavings within a call are the subject of the step system.
- BlockingQueues.BoundedBlockingQueue.Put: steps of other threads happen while the caller waits; other interleavings are the subject of the step system.
- EventLoops.EventLoop.QueueInLoop: on the loop thread the push and the wakeup are not interrupted; with interruption they are two steps of the step system.
- JsonTrees.DocumentReads: documents without spaces; spaces are skipped wherever the parser looks for the next character.
- System calls (epoll_wait, poll, readv, write, timerfd_settime, eventfd): oracles with the results they may give; their failures beyond those named are not modelled.
- `std::set` and `std::map` are mathematical sets and maps with the iteration order the code relies on; where the order does not matter to the result any order is allowed, as in the response printer and the JSON printer.
- Buffer and connection sizes are unbounded numbers; wrap-around of size_t is not modelled. The kfifo counters, which do wrap, are 32-bit.
- Timer intervals are whole microseconds; the source takes a floating-point number of seconds.
- Storing more bytes than a `vector` can hold, and allocation failure.
- EPollPoller's fillActiveChannels and the growth of its event list: the events carry the channel pointer, so there is no agreement to prove.
- Channel's own life (tie, addedToLoop, destructor), and reading interest switched by startRead and stopRead: an open connection reads.
- `send(Buffer*)`, `forceCloseWithDelay` and the timer of a connection: one call to operations that are modelled.
- TcpServer's connection map: the close callback is commented out in the source. Unsynchronised writes to the connection state from other threads: calls are on the loop thread.
- Connector, Acceptor, ThreadPool and the thread classes.
- CircuBuffer, GetDataLen, ForceWrite and SingleRingBuffer: they do not do what their comments say. Concurrent use of the kfifo.
- The logger's shutdown: what is in memory when the writer stops; file rolling and flushing.
- Time zone files, daylight saving and local time.
- HttpContext after kGotAll without reset, or after a rejected request line.
- Parsing the list of requested properties and setting properties in the configuration handler; the reply to a posted object.
- Image capture, drawing, V4L2 and the web interface.
