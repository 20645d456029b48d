/** What a connection does on the loop thread, as a value: which bytes it has taken from its users,
    which the kernel has taken from it, what it has queued, and how it is going to end. */
module TcpSpec {
  import opened Bytes

  datatype StateE = Disconnected | Connecting | Connected | Disconnecting

  datatype Errno = EWOULDBLOCK | EPIPE | ECONNRESET | OtherErrno

  /** What write(2) on the non-blocking socket answers. */
  datatype WriteResult = Wrote(n: nat) | WriteError(errno: Errno)

  /** Functors handed to queueInLoop. */
  datatype Queued = WriteComplete | HighWater(backlog: nat) | ForceCloseInLoop

  datatype Flag = POLLIN | POLLPRI | POLLOUT | POLLHUP | POLLRDHUP | POLLERR | POLLNVAL

  datatype UserCall = Send(data: seq<byte>, result: WriteResult) | Shutdown | ForceClose

  /** Outcome of reading the socket; with data, the message callback makes these calls. */
  datatype ReadOutcome = Message(calls: seq<UserCall>) | Eof | ReadError

  datatype Step =
    | Call(call: UserCall)
    | QueuedSend(data: seq<byte>, result: WriteResult)
    | QueuedForceClose
    | Event(revents: set<Flag>, read: ReadOutcome, write: WriteResult)

  /** Which callbacks the user has set. */
  datatype Callbacks = Callbacks(mark: nat, highWater: bool, writeComplete: bool)

  datatype Conn = Conn(
    state: StateE,
    reading: bool,
    writeClosed: bool,
    asked: bool,              // shutdown() was called in Connected
    kernel: seq<byte>,        // every byte the kernel took, in order
    accepted: seq<byte>,      // every byte taken from the users, in order
    queue: seq<Queued>,       // everything queued, in order
    backlogs: seq<nat>)       // the length of the backlog after every write to the buffer or from it

  function Backlog(c: Conn): seq<byte> {
    if |c.kernel| <= |c.accepted| then c.accepted[|c.kernel|..] else []
  }

  predicate Open(c: Conn) {
    c.state == Connected || c.state == Disconnecting
  }

  /** What the kernel can answer to a write of `len` bytes. */
  predicate Possible(c: Conn, len: nat, result: WriteResult) {
    && (result.Wrote? ==> result.n <= len)
    && (c.writeClosed && len > 0 ==> result == WriteError(EPIPE))
  }

  predicate PeerGone(result: WriteResult) {
    result == WriteError(EPIPE) || result == WriteError(ECONNRESET)
  }

  /** The payload is not taken: the connection is gone, or a direct write finds the peer gone. */
  predicate Refuses(c: Conn, result: WriteResult) {
    c.state == Disconnected || (Backlog(c) == [] && PeerGone(result))
  }

  /** The functors that follow a write that left nothing waiting, and a backlog that rose. */
  function Completes(cb: Callbacks, done: bool): seq<Queued> {
    if done && cb.writeComplete then [WriteComplete] else []
  }

  function Rises(cb: Callbacks, before: nat, after: nat): seq<Queued> {
    if cb.highWater && before < cb.mark <= after then [HighWater(after)] else []
  }

  function Noted(changed: bool, backlog: nat): seq<nat> {
    if changed then [backlog] else []
  }

  // ---- One call, one event ----

  function Sent(cb: Callbacks, c: Conn, data: seq<byte>, result: WriteResult): Conn
    requires Possible(c, |data|, result)
  {
    if Refuses(c, result) then c
    else
      var direct, before := Backlog(c) == [], |Backlog(c)|;
      var n := if direct && result.Wrote? then result.n else 0;
      c.(kernel := c.kernel + data[..n], accepted := c.accepted + data,
         queue := c.queue + Completes(cb, direct && result == Wrote(|data|)) + Rises(cb, before, before + |data| - n),
         backlogs := c.backlogs + Noted(n < |data|, before + |data| - n))
  }

  function ShutDown(c: Conn): Conn {
    if c.state == Connected then
      c.(state := Disconnecting, asked := true, writeClosed := c.writeClosed || Backlog(c) == [])
    else c
  }

  function ForceClosed(c: Conn): Conn {
    if Open(c) then c.(state := Disconnecting, queue := c.queue + [ForceCloseInLoop]) else c
  }

  function Closed(c: Conn): Conn {
    c.(state := Disconnected, reading := false)
  }

  /** An answer the kernel cannot give is no call. */
  function Called(cb: Callbacks, c: Conn, call: UserCall): Conn {
    match call
    case Send(data, result) =>
      if c.state == Connected && Possible(c, |data|, result) then Sent(cb, c, data, result) else c
    case Shutdown => ShutDown(c)
    case ForceClose => ForceClosed(c)
  }

  function CalledAll(cb: Callbacks, c: Conn, calls: seq<UserCall>): Conn {
    if calls == [] then c
    else Called(cb, CalledAll(cb, c, calls[..|calls| - 1]), calls[|calls| - 1])
  }

  /** The socket is writable: part of the backlog goes out. */
  function Written(cb: Callbacks, c: Conn, result: WriteResult): Conn
    requires Possible(c, |Backlog(c)|, result)
  {
    if c.state == Disconnected || Backlog(c) == [] || !result.Wrote? then c
    else
      var drained := result.n == |Backlog(c)|;
      c.(kernel := c.kernel + Backlog(c)[..result.n],
         queue := c.queue + Completes(cb, drained),
         backlogs := c.backlogs + Noted(result.n > 0, |Backlog(c)| - result.n),
         writeClosed := c.writeClosed || (drained && c.state == Disconnecting))
  }

  /** handleRead; the second component is false when the assert of handleClose fails. */
  function Read(cb: Callbacks, c: Conn, read: ReadOutcome): (Conn, bool) {
    match read
    case Message(calls) => (CalledAll(cb, c, calls), true)
    case Eof => if Open(c) then (Closed(c), true) else (c, false)
    case ReadError => (c, true)
  }

  predicate HangsUp(revents: set<Flag>) {
    POLLHUP in revents && POLLIN !in revents
  }

  predicate Reads(revents: set<Flag>) {
    POLLIN in revents || POLLPRI in revents || POLLRDHUP in revents
  }

  function Handled(cb: Callbacks, c: Conn, revents: set<Flag>, read: ReadOutcome, write: WriteResult): (Conn, bool) {
    var c1 := if HangsUp(revents) then Closed(c) else c;
    var (c2, ok) := if Reads(revents) then Read(cb, c1, read) else (c1, true);
    if ok && POLLOUT in revents && Possible(c2, |Backlog(c2)|, write) then (Written(cb, c2, write), true) else (c2, ok)
  }

  function Stepped(cb: Callbacks, c: Conn, step: Step): (Conn, bool) {
    match step
    case Call(call) => (Called(cb, c, call), true)
    case QueuedSend(data, result) => (if Possible(c, |data|, result) then Sent(cb, c, data, result) else c, true)
    case QueuedForceClose => (if Open(c) then Closed(c) else c, true)
    case Event(revents, read, write) =>
      // a channel with no event enabled is not polled
      if Open(c) then Handled(cb, c, revents, read, write) else (c, true)
  }

  /** A life: the steps in order, up to a failed assert. */
  function Lived(cb: Callbacks, c: Conn, steps: seq<Step>): (Conn, bool) {
    if steps == [] then (c, true)
    else
      var (d, ok) := Lived(cb, c, steps[..|steps| - 1]);
      if ok then Stepped(cb, d, steps[|steps| - 1]) else (d, false)
  }

  // ---- What is accepted ----

  /** The payload of a call, when it is taken. */
  function Payload(c: Conn, call: UserCall): seq<byte> {
    if call.Send? && c.state == Connected && Possible(c, |call.data|, call.result) && !Refuses(c, call.result)
    then call.data else []
  }

  function Payloads(cb: Callbacks, c: Conn, calls: seq<UserCall>): seq<byte> {
    if calls == [] then []
    else
      var init := calls[..|calls| - 1];
      Payloads(cb, c, init) + Payload(CalledAll(cb, c, init), calls[|calls| - 1])
  }

  function StepPayload(cb: Callbacks, c: Conn, step: Step): seq<byte> {
    match step
    case Call(call) => Payload(c, call)
    case QueuedSend(data, result) => if Possible(c, |data|, result) && !Refuses(c, result) then data else []
    case QueuedForceClose => []
    case Event(revents, read, _) =>
      if Open(c) && Reads(revents) && read.Message? then
        Payloads(cb, if HangsUp(revents) then Closed(c) else c, read.calls)
      else []
  }

  /** The payloads of a life, in order: those sent and not refused. */
  function LifePayload(cb: Callbacks, c: Conn, steps: seq<Step>): seq<byte> {
    if steps == [] then []
    else
      var init := steps[..|steps| - 1];
      var (d, ok) := Lived(cb, c, init);
      LifePayload(cb, c, init) + (if ok then StepPayload(cb, d, steps[|steps| - 1]) else [])
  }

  lemma {:induction false} CallsAccept(cb: Callbacks, c: Conn, calls: seq<UserCall>)
    ensures CalledAll(cb, c, calls).accepted == c.accepted + Payloads(cb, c, calls)
  {
    hide Payload, Called;
    if calls == [] {
      assert c.accepted + [] == c.accepted;
    } else {
      var init := calls[..|calls| - 1];
      CallsAccept(cb, c, init);
      CallAccepts(cb, CalledAll(cb, c, init), calls[|calls| - 1]);
      Regroup(c.accepted, Payloads(cb, c, init), Payload(CalledAll(cb, c, init), calls[|calls| - 1]));
    }
  }

  lemma CallAccepts(cb: Callbacks, c: Conn, call: UserCall)
    ensures Called(cb, c, call).accepted == c.accepted + Payload(c, call)
  {
    assert c.accepted + [] == c.accepted;
  }

  lemma StepAccepts(cb: Callbacks, c: Conn, step: Step)
    ensures Stepped(cb, c, step).0.accepted == c.accepted + StepPayload(cb, c, step)
  {
    hide CalledAll, Payloads, Called, Payload;
    assert c.accepted + [] == c.accepted;
    match step {
      case Call(call) => CallAccepts(cb, c, call);
      case Event(revents, read, _) =>
        if read.Message? { CallsAccept(cb, if HangsUp(revents) then Closed(c) else c, read.calls); }
      case _ =>
    }
  }

  /** Over any life, what is accepted is what was sent and not refused, in order. */
  lemma {:induction false} LifeAccepts(cb: Callbacks, c: Conn, steps: seq<Step>)
    ensures Lived(cb, c, steps).0.accepted == c.accepted + LifePayload(cb, c, steps)
  {
    hide Stepped, StepPayload;
    if steps == [] {
      assert c.accepted + [] == c.accepted;
    } else {
      var init, last := steps[..|steps| - 1], steps[|steps| - 1];
      LifeAccepts(cb, c, init);
      var (d, ok) := Lived(cb, c, init);
      if ok { StepAccepts(cb, d, last); }
      var more := if ok then StepPayload(cb, d, last) else [];
      Regroup(c.accepted, LifePayload(cb, c, init), more);
      assert d.accepted + [] == d.accepted;
    }
  }

  // ---- What is queued ----

  /** How many writes left nothing waiting, and how many forced closes found the connection open. */
  datatype Tally = Tally(emptied: nat, forced: nat)

  const NONE := Tally(0, 0)

  function Plus(a: Tally, b: Tally): Tally {
    Tally(a.emptied + b.emptied, a.forced + b.forced)
  }

  /** With nothing waiting before it, the whole payload goes out at once. */
  predicate TakenWhole(c: Conn, data: seq<byte>, result: WriteResult) {
    c.state != Disconnected && Backlog(c) == [] && result == Wrote(|data|)
  }

  function CallTally(c: Conn, call: UserCall): Tally {
    match call
    case Send(data, result) =>
      if c.state == Connected && Possible(c, |data|, result) && TakenWhole(c, data, result) then Tally(1, 0) else NONE
    case Shutdown => NONE
    case ForceClose => if c.state == Connected || c.state == Disconnecting then Tally(0, 1) else NONE
  }

  function CallsTally(cb: Callbacks, c: Conn, calls: seq<UserCall>): Tally {
    if calls == [] then NONE
    else
      var init := calls[..|calls| - 1];
      Plus(CallsTally(cb, c, init), CallTally(CalledAll(cb, c, init), calls[|calls| - 1]))
  }

  /** The socket was writable and the whole backlog went out. */
  function WriteTally(c: Conn, revents: set<Flag>, write: WriteResult): Tally {
    if POLLOUT in revents && Possible(c, |Backlog(c)|, write) && c.state != Disconnected && Backlog(c) != [] &&
       write == Wrote(|Backlog(c)|)
    then Tally(1, 0) else NONE
  }

  function EventTally(cb: Callbacks, c: Conn, revents: set<Flag>, read: ReadOutcome, write: WriteResult): Tally {
    var c1 := if HangsUp(revents) then Closed(c) else c;
    var (c2, ok) := if Reads(revents) then Read(cb, c1, read) else (c1, true);
    Plus(if Reads(revents) && read.Message? then CallsTally(cb, c1, read.calls) else NONE,
         if ok then WriteTally(c2, revents, write) else NONE)
  }

  function StepTally(cb: Callbacks, c: Conn, step: Step): Tally {
    match step
    case Call(call) => CallTally(c, call)
    case QueuedSend(data, result) =>
      if Possible(c, |data|, result) && TakenWhole(c, data, result) then Tally(1, 0) else NONE
    case QueuedForceClose => NONE
    case Event(revents, read, write) => if Open(c) then EventTally(cb, c, revents, read, write) else NONE
  }

  function LifeTally(cb: Callbacks, c: Conn, steps: seq<Step>): Tally {
    if steps == [] then NONE
    else
      var init := steps[..|steps| - 1];
      var (d, ok) := Lived(cb, c, init);
      Plus(LifeTally(cb, c, init), if ok then StepTally(cb, d, steps[|steps| - 1]) else NONE)
  }

  /** Each write that left nothing waiting has queued one write-complete callback, if there is one, and
      each forced close of an open connection one closing functor; nothing else queues either. */
  ghost predicate Tallied(cb: Callbacks, before: seq<Queued>, after: seq<Queued>, t: Tally) {
    && multiset(after)[WriteComplete] == multiset(before)[WriteComplete] + (if cb.writeComplete then t.emptied else 0)
    && multiset(after)[ForceCloseInLoop] == multiset(before)[ForceCloseInLoop] + t.forced
  }

  lemma MoreTallied(cb: Callbacks, a: seq<Queued>, b: seq<Queued>, c: seq<Queued>, t: Tally, u: Tally)
    requires Tallied(cb, a, b, t) && Tallied(cb, b, c, u)
    ensures Tallied(cb, a, c, Plus(t, u))
  {
  }

  lemma NoneTallied(cb: Callbacks, queue: seq<Queued>)
    ensures Tallied(cb, queue, queue, NONE)
  {
  }

  lemma SentTallied(cb: Callbacks, c: Conn, data: seq<byte>, result: WriteResult)
    requires Possible(c, |data|, result)
    ensures Tallied(cb, c.queue, Sent(cb, c, data, result).queue,
                    if TakenWhole(c, data, result) then Tally(1, 0) else NONE)
  {
    hide Backlog;
  }

  lemma WrittenTallied(cb: Callbacks, c: Conn, revents: set<Flag>, write: WriteResult)
    requires POLLOUT in revents && Possible(c, |Backlog(c)|, write)
    ensures Tallied(cb, c.queue, Written(cb, c, write).queue, WriteTally(c, revents, write))
  {
    hide Backlog;
  }

  lemma CallTallied(cb: Callbacks, c: Conn, call: UserCall)
    ensures Tallied(cb, c.queue, Called(cb, c, call).queue, CallTally(c, call))
  {
    hide Sent;
    match call {
      case Send(data, result) =>
        if c.state == Connected && Possible(c, |data|, result) { SentTallied(cb, c, data, result); }
      case _ =>
    }
  }

  lemma {:induction false} CallsTallied(cb: Callbacks, c: Conn, calls: seq<UserCall>)
    ensures Tallied(cb, c.queue, CalledAll(cb, c, calls).queue, CallsTally(cb, c, calls))
  {
    hide Called, CallTally, Tallied;
    if calls == [] {
      NoneTallied(cb, c.queue);
    } else {
      var init, last := calls[..|calls| - 1], calls[|calls| - 1];
      CallsTallied(cb, c, init);
      CallTallied(cb, CalledAll(cb, c, init), last);
      MoreTallied(cb, c.queue, CalledAll(cb, c, init).queue, CalledAll(cb, c, calls).queue, CallsTally(cb, c, init),
                  CallTally(CalledAll(cb, c, init), last));
    }
  }

  lemma EventTallied(cb: Callbacks, c: Conn, revents: set<Flag>, read: ReadOutcome, write: WriteResult)
    ensures Tallied(cb, c.queue, Handled(cb, c, revents, read, write).0.queue, EventTally(cb, c, revents, read, write))
  {
    hide Called, CalledAll, CallsTally, Tallied, Written, WriteTally, Possible, Backlog, HangsUp, Reads;
    var c1 := if HangsUp(revents) then Closed(c) else c;
    var (c2, ok) := if Reads(revents) then Read(cb, c1, read) else (c1, true);
    var t := if Reads(revents) && read.Message? then CallsTally(cb, c1, read.calls) else NONE;
    NoneTallied(cb, c.queue);
    if Reads(revents) && read.Message? { CallsTallied(cb, c1, read.calls); }
    assert Tallied(cb, c.queue, c2.queue, t);
    NoneTallied(cb, c2.queue);
    if ok && POLLOUT in revents && Possible(c2, |Backlog(c2)|, write) {
      WrittenTallied(cb, c2, revents, write);
    } else {
      NotWritten(c2, revents, write);
    }
    MoreTallied(cb, c.queue, c2.queue, Handled(cb, c, revents, read, write).0.queue, t,
                if ok then WriteTally(c2, revents, write) else NONE);
  }

  lemma NotWritten(c: Conn, revents: set<Flag>, write: WriteResult)
    ensures !(POLLOUT in revents && Possible(c, |Backlog(c)|, write)) ==> WriteTally(c, revents, write) == NONE
  {
  }

  lemma StepTallied(cb: Callbacks, c: Conn, step: Step)
    ensures Tallied(cb, c.queue, Stepped(cb, c, step).0.queue, StepTally(cb, c, step))
  {
    hide Called, CallTally, Tallied, Sent, Handled, EventTally, TakenWhole, Possible;
    NoneTallied(cb, c.queue);
    match step {
      case Call(call) => CallTallied(cb, c, call);
      case QueuedSend(data, result) =>
        if Possible(c, |data|, result) { SentTallied(cb, c, data, result); }
      case QueuedForceClose =>
      case Event(revents, read, write) => EventTallied(cb, c, revents, read, write);
    }
  }

  /** Over any life the functors queued are as many as what calls for them. */
  lemma {:induction false} LifeTallied(cb: Callbacks, c: Conn, steps: seq<Step>)
    ensures Tallied(cb, c.queue, Lived(cb, c, steps).0.queue, LifeTally(cb, c, steps))
  {
    hide Stepped, StepTally, Tallied;
    if steps == [] {
      NoneTallied(cb, c.queue);
    } else {
      var init, last := steps[..|steps| - 1], steps[|steps| - 1];
      LifeTallied(cb, c, init);
      var (d, ok) := Lived(cb, c, init);
      NoneTallied(cb, d.queue);
      if ok { StepTallied(cb, d, last); }
      MoreTallied(cb, c.queue, d.queue, Lived(cb, c, steps).0.queue, LifeTally(cb, c, init),
                  if ok then StepTally(cb, d, last) else NONE);
    }
  }

  // ---- High water ----

  /** Where a sequence of backlogs rises through the mark. */
  function RisesAt(trace: seq<nat>, mark: nat): seq<nat> {
    if |trace| < 2 then []
    else
      RisesAt(trace[..|trace| - 1], mark) +
      (if trace[|trace| - 2] < mark <= trace[|trace| - 1] then [|trace| - 1] else [])
  }

  /** What the high-water callbacks are told, in order. */
  function Marks(queue: seq<Queued>): seq<nat> {
    if queue == [] then []
    else Marks(queue[..|queue| - 1]) + (if queue[|queue| - 1].HighWater? then [queue[|queue| - 1].backlog] else [])
  }

  /** One high-water callback for each rise, told the backlog it rose to. */
  ghost predicate MarksRises(cb: Callbacks, queue: seq<Queued>, trace: seq<nat>) {
    if cb.highWater then
      && |Marks(queue)| == |RisesAt(trace, cb.mark)|
      && forall r :: 0 <= r < |Marks(queue)| ==>
           RisesAt(trace, cb.mark)[r] < |trace| && Marks(queue)[r] == trace[RisesAt(trace, cb.mark)[r]]
    else Marks(queue) == []
  }

  lemma {:induction false} MarksAppend(a: seq<Queued>, b: seq<Queued>)
    ensures Marks(a + b) == Marks(a) + Marks(b)
  {
    if b == [] {
      assert a + b == a;
    } else {
      MarksAppend(a, b[..|b| - 1]);
      assert (a + b)[..|a + b| - 1] == a + b[..|b| - 1];
    }
  }

  /** Queueing anything else changes no mark. */
  lemma OtherQueued(cb: Callbacks, queue: seq<Queued>, more: seq<Queued>, trace: seq<nat>)
    requires MarksRises(cb, queue, trace) && forall q :: q in more ==> !q.HighWater?
    ensures MarksRises(cb, queue + more, trace)
  {
    MarksAppend(queue, more);
    NoMarks(more);
    assert Marks(queue) + [] == Marks(queue);
  }

  lemma {:induction false} NoMarks(more: seq<Queued>)
    requires forall q :: q in more ==> !q.HighWater?
    ensures Marks(more) == []
  {
    if more != [] { NoMarks(more[..|more| - 1]); }
  }

  /** A backlog is noted, and its rise queued. */
  lemma BacklogNoted(cb: Callbacks, queue: seq<Queued>, trace: seq<nat>, after: nat)
    requires MarksRises(cb, queue, trace) && trace != []
    ensures MarksRises(cb, queue + Rises(cb, trace[|trace| - 1], after), trace + [after])
  {
    var before, longer := trace[|trace| - 1], trace + [after];
    MarksAppend(queue, Rises(cb, before, after));
    MarksOne(after);
    assert longer[..|longer| - 1] == trace;
    assert Marks([]) == [] && Marks(queue) + [] == Marks(queue);
  }

  lemma MarksOne(after: nat)
    ensures Marks([HighWater(after)]) == [after]
  {
    assert [HighWater(after)][..0] == [];
  }

  lemma {:induction false} RisesAreRises(trace: seq<nat>, mark: nat)
    ensures forall r :: 0 <= r < |RisesAt(trace, mark)| ==>
              var at := RisesAt(trace, mark)[r]; 0 < at < |trace| && trace[at - 1] < mark <= trace[at]
    ensures forall q, r :: 0 <= q < r < |RisesAt(trace, mark)| ==> RisesAt(trace, mark)[q] < RisesAt(trace, mark)[r]
  {
    if |trace| >= 2 { RisesAreRises(trace[..|trace| - 1], mark); }
  }

  /** Which mark a queued high-water callback is. */
  lemma {:induction false} MarkOf(queue: seq<Queued>, i: nat)
    requires i < |queue| && queue[i].HighWater?
    ensures |Marks(queue[..i])| < |Marks(queue)| && Marks(queue)[|Marks(queue[..i])|] == queue[i].backlog
  {
    var init := queue[..|queue| - 1];
    if i < |init| {
      MarkOf(init, i);
      assert init[..i] == queue[..i];
    }
  }

  /** The callback was queued when the backlog rose to what it is told. */
  ghost predicate RoseAt(trace: seq<nat>, mark: nat, at: nat, backlog: nat) {
    0 < at < |trace| && trace[at - 1] < mark <= trace[at] == backlog
  }

  /** Between two high-water callbacks the backlog was below the mark. */
  ghost predicate Separated(trace: seq<nat>, mark: nat, first: nat, second: nat) {
    exists a, k, b :: RoseAt(trace, mark, a, first) && a < k < b && RoseAt(trace, mark, b, second) && trace[k] < mark
  }

  lemma CallbacksSeparated(cb: Callbacks, queue: seq<Queued>, trace: seq<nat>, i: nat, j: nat)
    requires MarksRises(cb, queue, trace)
    requires i < j < |queue| && queue[i].HighWater? && queue[j].HighWater?
    ensures Separated(trace, cb.mark, queue[i].backlog, queue[j].backlog)
  {
    MarkOf(queue, i);
    MarkOf(queue, j);
    MarkOf(queue[..j], i);
    assert queue[..j][..i] == queue[..i];
    RisesAreRises(trace, cb.mark);
    var r, q := |Marks(queue[..i])|, |Marks(queue[..j])|;
    var a, b := RisesAt(trace, cb.mark)[r], RisesAt(trace, cb.mark)[q];
    assert RoseAt(trace, cb.mark, a, queue[i].backlog) && RoseAt(trace, cb.mark, b, queue[j].backlog);
    assert trace[b - 1] < cb.mark && a < b - 1;
  }
}
