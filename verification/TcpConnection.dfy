/** The sending half and the life cycle of net::TcpConnection, on the loop thread: bytes go to
    the kernel directly or through the output buffer, write interest is switched on and off, and
    shutdown waits for the buffer to drain. */
module TcpConnections {
  import opened Bytes
  import opened Buffers
  import opened TcpSpec

  lemma Halves(taken: seq<byte>, data: seq<byte>, n: nat)
    requires n <= |data|
    ensures data[n..n + (|data| - n)] == data[n..] && taken + data[..n] + data[n..] == taken + data
    ensures n == 0 ==> taken + data[..n] == taken
    ensures n == |data| ==> data[..n] == data && data[n..] == []
  {
    assert data[..n] + data[n..] == data;
    Regroup(taken, data[..n], data[n..]);
  }

  /** Which functors follow a write that left nothing waiting, and a rise of the backlog. */
  lemma QueuedIs(cb: Callbacks, done: bool, before: nat, after: nat)
    ensures Completes(cb, done) == if cb.writeComplete && done then [WriteComplete] else []
    ensures Rises(cb, before, after) == if cb.highWater && before < cb.mark <= after then [HighWater(after)] else []
  {
  }

  /** What sendInLoop comes to: nothing is taken, or part goes out directly and the rest waits. */
  lemma SentIs(cb: Callbacks, c: Conn, data: seq<byte>, result: WriteResult)
    requires TcpSpec.Possible(c, |data|, result)
    ensures c.kernel + [] == c.kernel && c.accepted + [] == c.accepted && c.backlogs + [] == c.backlogs
    ensures c.queue + [] + [] == c.queue && Completes(cb, false) == []
    ensures forall k :: Rises(cb, k, k) == []
    ensures TcpSpec.Refuses(c, result) ==> Sent(cb, c, data, result) == c
    ensures !TcpSpec.Refuses(c, result) ==>
              var direct, before := Backlog(c) == [], |Backlog(c)|;
              var n := if direct && result.Wrote? then result.n else 0;
              Sent(cb, c, data, result) ==
                c.(kernel := c.kernel + data[..n], accepted := c.accepted + data,
                   queue := c.queue + Completes(cb, direct && result == Wrote(|data|)) +
                            Rises(cb, before, before + |data| - n),
                   backlogs := c.backlogs + if n < |data| then [before + |data| - n] else [])
  {
    hide Backlog;
  }

  lemma NothingQueued(cb: Callbacks, c: Conn, k: nat)
    ensures c.kernel + [] == c.kernel && c.accepted + [] == c.accepted && c.backlogs + [] == c.backlogs
    ensures Completes(cb, false) == [] && Rises(cb, k, k) == []
    ensures c.queue + [] == c.queue && c.queue + Completes(cb, true) + [] == c.queue + Completes(cb, true)
  {
  }

  /** What handleWrite comes to on a connection with a backlog. */
  lemma WrittenIs(cb: Callbacks, c: Conn, result: WriteResult)
    requires TcpSpec.Possible(c, |Backlog(c)|, result)
    ensures c.kernel + [] == c.kernel && c.queue + [] == c.queue && c.backlogs + [] == c.backlogs
    ensures Completes(cb, false) == []
    ensures (c.state == Disconnected || Backlog(c) == [] || !result.Wrote? || result.n == 0) ==>
              Written(cb, c, result) == c
    ensures c.state != Disconnected && Backlog(c) != [] && result.Wrote? && result.n > 0 ==>
              Written(cb, c, result) ==
                c.(kernel := c.kernel + Backlog(c)[..result.n],
                   queue := c.queue + Completes(cb, result.n == |Backlog(c)|),
                   backlogs := c.backlogs + [|Backlog(c)| - result.n],
                   writeClosed := c.writeClosed || (result.n == |Backlog(c)| && c.state == Disconnecting))
  {
    hide Backlog;
    if result.Wrote? && result.n == 0 {
      assert c.kernel + Backlog(c)[..0] == c.kernel && c.queue + [] == c.queue && c.backlogs + [] == c.backlogs;
    }
  }

  /** The three parts of an event. */
  lemma HandledIs(cb: Callbacks, c: Conn, c1: Conn, c2: Conn, ok: bool, revents: set<Flag>, read: ReadOutcome,
                  write: WriteResult)
    requires c1 == if HangsUp(revents) then Closed(c) else c
    requires (c2, ok) == if Reads(revents) then Read(cb, c1, read) else (c1, true)
    ensures Handled(cb, c, revents, read, write) ==
              if ok && POLLOUT in revents && TcpSpec.Possible(c2, |Backlog(c2)|, write)
              then (Written(cb, c2, write), true) else (c2, ok)
  {
    hide Read, Written, Closed, HangsUp, Reads, Backlog;
  }

  class TcpConnection {
    var state: StateE
    var writing: bool                 // channel_->isWriting()
    var channelReading: bool          // channel_->isReading()
    const output: Buffer
    const highWaterMark: nat
    const hasHighWaterMarkCallback: bool
    const hasWriteCompleteCallback: bool
    // what happened, for the specification
    var writeClosed: bool             // socket_->shutdownWrite() was called
    ghost var kernel: seq<byte>       // every byte the kernel took, in order
    ghost var accepted: seq<byte>     // every byte sendInLoop took responsibility for, in order
    ghost var askedToShutdown: bool   // shutdown() was called in Connected
    ghost var queue: seq<Queued>
    ghost var backlogs: seq<nat>      // the backlog after every write to the buffer or the kernel

    ghost function CB(): Callbacks {
      Callbacks(highWaterMark, hasHighWaterMarkCallback, hasWriteCompleteCallback)
    }

    ghost function C(): Conn
      reads this
    {
      Conn(state, channelReading, writeClosed, askedToShutdown, kernel, accepted, queue, backlogs)
    }

    ghost predicate Valid()
      reads this, output, output.buffer
    {
      && output.Valid()
      // stream conservation
      && accepted == kernel + output.Contents()
      // write interest says whether there is a backlog
      && (state != Disconnected ==> (writing <==> output.Contents() != []))
      && (state == Disconnected ==> !writing)
      && (channelReading <==> state == Connected || state == Disconnecting)
      // graceful shutdown
      && (writeClosed ==> output.Contents() == [] && state in {Disconnecting, Disconnected})
      && (askedToShutdown ==> state in {Disconnecting, Disconnected})
      && (askedToShutdown && state == Disconnecting ==> (writeClosed <==> kernel == accepted))
      // high water
      && backlogs != [] && backlogs[|backlogs| - 1] == |output.Contents()|
      && MarksRises(CB(), queue, backlogs)
    }

    constructor (mark: nat, highWater: bool, writeComplete: bool)
      ensures Valid() && state == Connecting && kernel == [] && accepted == [] && queue == [] && backlogs == [0]
      ensures fresh(output) && fresh(output.buffer)
      ensures !writeClosed && !askedToShutdown && CB() == Callbacks(mark, highWater, writeComplete)
    {
      state, writing, channelReading := Connecting, false, false;
      output := new Buffer(INITIAL_SIZE);
      highWaterMark, hasHighWaterMarkCallback, hasWriteCompleteCallback := mark, highWater, writeComplete;
      writeClosed := false;
      kernel, accepted, askedToShutdown, queue, backlogs := [], [], false, [], [0];
    }

    predicate Possible(len: nat, result: WriteResult)
      reads this
    {
      && (result.Wrote? ==> result.n <= len)
      && (writeClosed && len > 0 ==> result == WriteError(EPIPE))
    }

    /** sendInLoop does not take the payload: the connection is gone, or the peer is. */
    predicate Refuses(result: WriteResult)
      reads this, output
      requires output.Valid()
    {
      state == Disconnected || (!writing && output.ReadableBytes() == 0 && PeerGone(result))
    }

    /** The buffer holds what is accepted and not in the kernel. */
    lemma BufferIsBacklog()
      requires Valid()
      ensures Backlog(C()) == output.Contents() && (Backlog(C()) == [] <==> kernel == accepted)
    {
      assert (kernel + output.Contents())[|kernel|..] == output.Contents();
      if output.Contents() == [] { assert kernel + [] == kernel; }
    }

    method QueueInLoop(cb: Queued)
      modifies this`queue
      ensures queue == old(queue) + [cb]
    {
      queue := queue + [cb];
    }

    method SendInLoop(data: seq<byte>, result: WriteResult)
      requires Valid() && Possible(|data|, result)
      modifies this, output, output.buffer
      ensures Valid() && (output.buffer == old(output.buffer) || fresh(output.buffer))
      ensures accepted == old(accepted) +
                if old(state) == Disconnected ||
                   (old(output.Contents()) == [] && (result == WriteError(EPIPE) || result == WriteError(ECONNRESET)))
                then [] else data
      ensures kernel == old(kernel) +
                if old(state) != Disconnected && old(output.Contents()) == [] && result.Wrote?
                then data[..result.n] else []
      ensures queue == old(queue) +
                (if hasWriteCompleteCallback && old(state) != Disconnected && old(output.Contents()) == [] &&
                    result == Wrote(|data|)
                 then [WriteComplete] else []) +
                (if hasHighWaterMarkCallback && |old(output.Contents())| < highWaterMark <= |output.Contents()|
                 then [HighWater(|output.Contents()|)] else [])
      ensures C() == Sent(CB(), old(C()), data, result)
      ensures state == old(state) && writeClosed == old(writeClosed) && askedToShutdown == old(askedToShutdown)
      ensures writeClosed ==> kernel == old(kernel)
    {
      hide MarksRises, Sent, Backlog, Completes, Rises, Noted;
      BufferIsBacklog();
      SentIs(CB(), C(), data, result);
      if state != Disconnected {
        WriteOrWait(data, result);
      }
      ghost var before := old(output.Contents());
      QueuedIs(CB(), before == [] && result == Wrote(|data|), |before|, |output.Contents()|);
    }

    /** Writes directly when nothing is waiting; what is not written waits, unless the peer is gone. */
    method WriteOrWait(data: seq<byte>, result: WriteResult)
      requires Valid() && Possible(|data|, result) && state != Disconnected
      modifies this`kernel, this`accepted, this`queue, this`writing, this`backlogs, output, output.buffer
      ensures Valid() && (output.buffer == old(output.buffer) || fresh(output.buffer))
      ensures accepted == old(accepted) + if old(output.Contents()) == [] && PeerGone(result) then [] else data
      ensures kernel == old(kernel) +
                if old(output.Contents()) == [] && result.Wrote? then data[..result.n] else []
      ensures queue == old(queue) + Completes(CB(), old(output.Contents()) == [] && result == Wrote(|data|)) +
                       Rises(CB(), |old(output.Contents())|, |output.Contents()|)
      ensures var refused, n := old(output.Contents()) == [] && PeerGone(result),
                                if old(output.Contents()) == [] && result.Wrote? then result.n else 0;
              && |output.Contents()| == |old(output.Contents())| + (if refused then 0 else |data| - n)
              && backlogs == old(backlogs) + if !refused && n < |data| then [|output.Contents()|] else []
    {
      hide MarksRises, Completes, Rises;
      ghost var before := output.Contents();
      NothingQueued(CB(), C(), |before|);
      QueuedIs(CB(), result == Wrote(|data|), 0, 0);
      var nwrote, remaining, faultError := 0, |data|, false;
      if !writing && output.ReadableBytes() == 0 {
        nwrote, faultError := WriteDirectly(data, result);
        remaining := |data| - nwrote;
      }
      assert remaining <= |data|;
      Halves(old(accepted), data, nwrote);
      if !faultError && remaining > 0 {
        Enqueue(data[nwrote..nwrote + remaining]);
      }
    }

    /** The first write, when nothing is waiting. */
    method WriteDirectly(data: seq<byte>, result: WriteResult) returns (nwrote: nat, faultError: bool)
      requires Valid() && Possible(|data|, result) && state != Disconnected && output.Contents() == []
      modifies this`kernel, this`accepted, this`queue
      ensures Valid() && output.Contents() == []
      ensures nwrote == if result.Wrote? then result.n else 0
      ensures nwrote <= |data|
      ensures faultError <==> PeerGone(result)
      ensures accepted == old(accepted) + data[..nwrote] && kernel == old(kernel) + data[..nwrote]
      ensures queue == old(queue) + if hasWriteCompleteCallback && result == Wrote(|data|) then [WriteComplete] else []
    {
      hide MarksRises;
      nwrote, faultError := 0, false;
      match result {
        case Wrote(n) =>
          nwrote := n;
          kernel, accepted := kernel + data[..n], accepted + data[..n];
          if |data| - nwrote == 0 && hasWriteCompleteCallback {
            QueueInLoop(WriteComplete);
            OtherQueued(CB(), old(queue), [WriteComplete], backlogs);
          }
        case WriteError(errno) =>
          if errno != EWOULDBLOCK && (errno == EPIPE || errno == ECONNRESET) {
            faultError := true;
          }
      }
    }

    /** What the kernel did not take waits in the output buffer. */
    method Enqueue(rest: seq<byte>)
      requires Valid() && state != Disconnected && rest != [] && !writeClosed
      modifies this`queue, this`accepted, this`writing, this`backlogs, output, output.buffer
      ensures Valid() && (output.buffer == old(output.buffer) || fresh(output.buffer))
      ensures accepted == old(accepted) + rest
      ensures queue == old(queue) + Rises(CB(), |old(output.Contents())|, |output.Contents()|)
      ensures output.Contents() == old(output.Contents()) + rest
      ensures backlogs == old(backlogs) + [|output.Contents()|]
    {
      hide MarksRises, Rises;
      ghost var before := output.Contents();
      QueueRise(output.ReadableBytes(), |rest|);
      output.Append(rest);
      Regroup(kernel, before, rest);
      accepted := accepted + rest;
      if !writing {
        writing := true;           // enableWriting
      }
      Note(old(queue));
    }

    ghost method Note(before: seq<Queued>)
      requires output.Valid() && backlogs != [] && MarksRises(CB(), before, backlogs)
      requires queue == before + Rises(CB(), backlogs[|backlogs| - 1], |output.Contents()|)
      modifies this`backlogs
      ensures backlogs == old(backlogs) + [|output.Contents()|] && MarksRises(CB(), queue, backlogs)
    {
      hide MarksRises, Rises;
      BacklogNoted(CB(), before, backlogs, |output.Contents()|);
      backlogs := backlogs + [|output.Contents()|];
    }

    method QueueRise(oldLen: nat, remaining: nat)
      modifies this`queue
      ensures queue == old(queue) + Rises(CB(), oldLen, oldLen + remaining)
    {
      if oldLen + remaining >= highWaterMark && oldLen < highWaterMark && hasHighWaterMarkCallback {
        QueueInLoop(HighWater(oldLen + remaining));
      } else {
        assert queue + [] == queue;
      }
    }

    method Send(data: seq<byte>, result: WriteResult)
      requires Valid() && Possible(|data|, result)
      modifies this, output, output.buffer
      ensures Valid() && (output.buffer == old(output.buffer) || fresh(output.buffer))
      ensures accepted == old(accepted) + if old(state) != Connected || old(Refuses(result)) then [] else data
      ensures state == old(state) && writeClosed == old(writeClosed) && askedToShutdown == old(askedToShutdown)
      ensures old(kernel) <= kernel && (writeClosed ==> kernel == old(kernel))
      ensures C() == Called(CB(), old(C()), UserCall.Send(data, result))
    {
      hide MarksRises;
      if state == Connected {
        SendInLoop(data, result);
      }
    }

    method ShutdownInLoop()
      requires output.Valid() && (!writing ==> output.Contents() == [])
      modifies this`writeClosed
      ensures writeClosed == (old(writeClosed) || !writing)
    {
      if !writing {
        writeClosed := true;         // socket_->shutdownWrite()
      }
    }

    /** The write side closes here and now exactly when nothing is waiting. */
    method Shutdown()
      requires Valid()
      modifies this`state, this`writeClosed, this`askedToShutdown
      ensures Valid()
      ensures old(state) == Connected ==>
                askedToShutdown && state == Disconnecting && (writeClosed <==> kernel == accepted)
      ensures old(state) != Connected ==>
                state == old(state) && writeClosed == old(writeClosed) && askedToShutdown == old(askedToShutdown)
      ensures C() == ShutDown(old(C()))
    {
      hide MarksRises;
      BufferIsBacklog();
      if state == Connected {
        state := Disconnecting;
        askedToShutdown := true;
        ShutdownInLoop();
      }
    }

    /** The socket is writable: hand over as much of the backlog as the kernel takes; the write
        that empties it ends a shutdown in progress. */
    method HandleWrite(result: WriteResult)
      requires Valid() && Possible(|output.Contents()|, result)
      modifies this`kernel, this`writing, this`queue, this`backlogs, this`writeClosed, output
      ensures Valid() && output.buffer == old(output.buffer)
      ensures accepted == old(accepted)
      ensures kernel == old(kernel) +
                if old(writing) && result.Wrote? then old(output.Contents())[..result.n] else []
      ensures writeClosed <==> old(writeClosed) || (old(writing) && state == Disconnecting && kernel == accepted)
      ensures queue == old(queue) +
                if hasWriteCompleteCallback && old(writing) && result == Wrote(|old(output.Contents())|)
                then [WriteComplete] else []
      ensures C() == Written(CB(), old(C()), result)
    {
      hide MarksRises, Written, Completes, Backlog;
      QueuedIs(CB(), writing && result == Wrote(|output.Contents()|), 0, 0);
      BufferIsBacklog();
      WrittenIs(CB(), C(), result);
      if writing {
        match result {
          case Wrote(n) =>
            if n > 0 {
              Drain(n);
            }
          case WriteError(_) =>
        }
      }
    }

    /** The kernel took n bytes of the backlog. */
    method Drain(n: nat)
      requires Valid() && writing && 0 < n <= |output.Contents()| && !writeClosed
      modifies this`kernel, this`writing, this`queue, this`backlogs, this`writeClosed, output
      ensures Valid() && output.buffer == old(output.buffer)
      ensures kernel == old(kernel) + old(output.Contents())[..n]
      ensures output.Contents() == old(output.Contents())[n..]
      ensures kernel == accepted <==> n == |old(output.Contents())|
      ensures writeClosed <==> n == |old(output.Contents())| && state == Disconnecting
      ensures queue == old(queue) +
                if hasWriteCompleteCallback && n == |old(output.Contents())| then [WriteComplete] else []
      ensures backlogs == old(backlogs) + [|output.Contents()|]
    {
      hide MarksRises;
      ghost var before := output.Contents();
      Halves(kernel, before, n);
      kernel := kernel + before[..n];
      output.Retrieve(n);
      assert kernel + [] == kernel && queue + [] == queue;
      if output.ReadableBytes() == 0 {
        writing := false;       // disableWriting
        if hasWriteCompleteCallback {
          QueueInLoop(WriteComplete);
          OtherQueued(CB(), old(queue), [WriteComplete], backlogs);
        }
        if state == Disconnecting {
          ShutdownInLoop();
        }
      }
      assert queue + [] == queue;
      Note(queue);
    }

    method HandleClose()
      requires Valid() && state in {Connected, Disconnecting}
      modifies this`state, this`writing, this`channelReading
      ensures Valid() && state == Disconnected && !channelReading
      ensures C() == Closed(old(C()))
    {
      hide MarksRises;
      state := Disconnected;
      writing, channelReading := false, false;     // disableAll
    }

    method ForceClose()
      requires Valid()
      modifies this`state, this`queue
      ensures Valid() && (old(state) in {Connected, Disconnecting} ==> state == Disconnecting)
      ensures old(state) !in {Connected, Disconnecting} ==> state == old(state)
      ensures queue == old(queue) + if old(state) in {Connected, Disconnecting} then [ForceCloseInLoop] else []
      ensures C() == ForceClosed(old(C()))
    {
      hide MarksRises;
      assert queue + [] == queue;
      if state == Connected || state == Disconnecting {
        state := Disconnecting;
        QueueInLoop(ForceCloseInLoop);
        OtherQueued(CB(), old(queue), [ForceCloseInLoop], backlogs);
      }
    }

    method ForceCloseNow()
      requires Valid()
      modifies this`state, this`writing, this`channelReading
      ensures Valid() && state == if old(state) == Connecting then Connecting else Disconnected
      ensures C() == if TcpSpec.Open(old(C())) then Closed(old(C())) else old(C())
    {
      if state == Connected || state == Disconnecting {
        HandleClose();
      }
    }

    method ConnectEstablished()
      requires Valid() && state == Connecting
      modifies this`state, this`channelReading
      ensures Valid() && C() == old(C()).(state := Connected, reading := true)
    {
      hide MarksRises;
      state := Connected;
      channelReading := true;        // enableReading
    }

    /** Only an established connection is closed here.  `ok` is false when the assert of
        Channel::remove fails: when a close is under way, because its channel still reads, or when
        something was queued before the connection was established. */
    method ConnectDestroyed() returns (ok: bool)
      requires Valid()
      modifies this`state, this`writing, this`channelReading
      ensures Valid() && C() == if old(state) == Connected then Closed(old(C())) else old(C())
      ensures ok <==> old(state) != Disconnecting && !(old(state) == Connecting && writing)
    {
      hide MarksRises;
      if state == Connected {
        state := Disconnected;
        writing, channelReading := false, false;      // disableAll
      }
      ok := !writing && !channelReading;              // channel_->remove()
    }

    /** What user code does, from a callback or between events. */
    method Use(calls: seq<UserCall>)
      requires Valid()
      modifies this, output, output.buffer
      ensures Valid() && (output.buffer == old(output.buffer) || fresh(output.buffer))
      ensures C() == CalledAll(CB(), old(C()), calls)
      ensures state == Connecting <==> old(state) == Connecting
      ensures Open(C()) <==> old(Open(C()))
      ensures old(accepted) <= accepted && old(kernel) <= kernel
      ensures old(writeClosed) ==> writeClosed && kernel == old(kernel)
    {
      hide MarksRises, Sent, ShutDown, ForceClosed;
      for i := 0 to |calls|
        invariant Valid() && (output.buffer == old(output.buffer) || fresh(output.buffer))
        invariant C() == CalledAll(CB(), old(C()), calls[..i])
        invariant Open(C()) <==> old(Open(C()))
        invariant state == Connecting <==> old(state) == Connecting
        invariant old(accepted) <= accepted && old(kernel) <= kernel
        invariant old(writeClosed) ==> writeClosed && kernel == old(kernel)
      {
        assert calls[..i + 1][..i] == calls[..i];
        UseOne(calls[i]);
      }
      assert calls[..|calls|] == calls;
    }

    method UseOne(call: UserCall)
      requires Valid()
      modifies this, output, output.buffer
      ensures Valid() && (output.buffer == old(output.buffer) || fresh(output.buffer))
      ensures C() == Called(CB(), old(C()), call)
      ensures state == Connecting <==> old(state) == Connecting
      ensures Open(C()) <==> old(Open(C()))
      ensures old(accepted) <= accepted && old(kernel) <= kernel
      ensures old(writeClosed) ==> writeClosed && kernel == old(kernel)
    {
      hide MarksRises, Sent;
      match call {
        case Send(data, result) =>
          if Possible(|data|, result) { Send(data, result); }
        case Shutdown => Shutdown();
        case ForceClose => ForceClose();
      }
    }

    /** handleRead, given what read(2) found. */
    method HandleRead(read: ReadOutcome) returns (ok: bool)
      requires Valid()
      modifies this, output, output.buffer
      ensures Valid() && (output.buffer == old(output.buffer) || fresh(output.buffer))
      ensures (C(), ok) == Read(CB(), old(C()), read)
      ensures ok <==> !(read.Eof? && !old(Open(C())))
      ensures read.Message? ==> C() == CalledAll(CB(), old(C()), read.calls)
      ensures (read.Eof? && ok) || old(state) == Disconnected ==> state == Disconnected
      ensures state == Connecting <==> old(state) == Connecting
      ensures old(accepted) <= accepted && old(kernel) <= kernel
      ensures old(writeClosed) ==> writeClosed && kernel == old(kernel)
    {
      hide MarksRises, CalledAll;
      ok := true;
      match read {
        case Message(calls) => Use(calls);                 // messageCallback_
        case Eof =>
          if state == Connected || state == Disconnecting {
            HandleClose();
          } else {
            ok := false;                                   // the assert in handleClose
          }
        case ReadError =>                                  // handleError only logs
      }
    }

    /** Channel::handleEventWithGuard on an open connection.  `ok` is false when the assert of
        handleClose fails: exactly when the poller reports a hang-up without POLLIN, together
        with POLLPRI or POLLRDHUP, and the read then finds end of file. */
    method HandleEvent(revents: set<Flag>, read: ReadOutcome, write: WriteResult) returns (ok: bool)
      requires Valid() && Open(C())
      modifies this, output, output.buffer
      ensures Valid() && (output.buffer == old(output.buffer) || fresh(output.buffer))
      ensures (C(), ok) == Handled(CB(), old(C()), revents, read, write)
      ensures ok <==> !(POLLHUP in revents && POLLIN !in revents &&
                        (POLLPRI in revents || POLLRDHUP in revents) && read.Eof?)
      ensures POLLOUT in revents && revents !! {POLLIN, POLLPRI, POLLHUP, POLLRDHUP} &&
              old(writing) && write.Wrote? && write.n <= |old(output.Contents())| ==>
                state == old(state) && kernel == old(kernel) + old(output.Contents())[..write.n]
      ensures revents !! {POLLIN, POLLPRI, POLLOUT, POLLHUP, POLLRDHUP} ==> C() == old(C())
      ensures POLLHUP in revents && POLLIN !in revents ==> state == Disconnected
      ensures POLLIN in revents && read.Eof? ==> state == Disconnected
      ensures POLLIN in revents && POLLOUT !in revents && read.Message? ==> C() == CalledAll(CB(), old(C()), read.calls)
      ensures state != Connecting
      ensures old(accepted) <= accepted && old(kernel) <= kernel
      ensures old(writeClosed) ==> writeClosed && kernel == old(kernel)
    {
      hide MarksRises, Read, Written, Closed, Handled, Backlog, HangsUp, Reads;
      ghost var c1;
      ok, c1 := HangUpAndRead(revents, read);
      HandledIs(CB(), old(C()), c1, C(), ok, revents, read, write);
      BufferIsBacklog();
      if ok && POLLOUT in revents && Possible(output.ReadableBytes(), write) {
        HandleWrite(write);
      }
    }

    /** The part of handleEventWithGuard before the write callback. */
    method HangUpAndRead(revents: set<Flag>, read: ReadOutcome) returns (ok: bool, ghost c1: Conn)
      requires Valid() && Open(C())
      modifies this, output, output.buffer
      ensures Valid() && (output.buffer == old(output.buffer) || fresh(output.buffer))
      ensures c1 == if HangsUp(revents) then Closed(old(C())) else old(C())
      ensures (C(), ok) == if Reads(revents) then Read(CB(), c1, read) else (c1, true)
      ensures revents !! {POLLIN, POLLPRI, POLLHUP, POLLRDHUP} ==>
                C() == old(C()) && output.buffer == old(output.buffer) && output.Contents() == old(output.Contents())
      ensures POLLHUP in revents && POLLIN !in revents ==> state == Disconnected
      ensures POLLIN in revents && read.Eof? ==> state == Disconnected
      ensures POLLIN in revents && read.Message? ==> C() == CalledAll(CB(), old(C()), read.calls)
      ensures ok <==> !(POLLHUP in revents && POLLIN !in revents &&
                        (POLLPRI in revents || POLLRDHUP in revents) && read.Eof?)
      ensures state != Connecting
      ensures old(accepted) <= accepted && old(kernel) <= kernel
      ensures old(writeClosed) ==> writeClosed && kernel == old(kernel)
    {
      hide MarksRises, Read;
      ok := true;
      if POLLHUP in revents && POLLIN !in revents {
        HandleClose();
      }
      c1 := C();
      if POLLIN in revents || POLLPRI in revents || POLLRDHUP in revents {
        ok := HandleRead(read);
      }
    }

    method TakeStep(step: Step) returns (ok: bool)
      requires Valid() && state != Connecting
      modifies this, output, output.buffer
      ensures Valid() && (output.buffer == old(output.buffer) || fresh(output.buffer))
      ensures (C(), ok) == Stepped(CB(), old(C()), step) && state != Connecting
      ensures old(accepted) <= accepted && old(kernel) <= kernel
      ensures old(writeClosed) ==> writeClosed && kernel == old(kernel)
    {
      hide MarksRises, Called, Sent, Handled;
      ok := true;
      match step {
        case Call(call) => UseOne(call);
        case QueuedSend(data, result) =>
          if Possible(|data|, result) { SendInLoop(data, result); }
        case QueuedForceClose => ForceCloseNow();
        case Event(revents, read, write) =>
          // a channel with no event enabled is not polled
          if state == Connected || state == Disconnecting {
            ok := HandleEvent(revents, read, write);
          }
      }
    }

    /** Any life of an established connection: user calls, sends queued by other threads, forced
        closes and socket events in any order, up to a failed assert.  What is accepted is what
        was sent and not refused.  The kernel has always taken a prefix of it and what is missing
        is in the output buffer; after the write side is closed nothing more goes out, and it
        closes only when nothing is missing.  Between any two high-water callbacks the backlog
        was below the mark. */
    method Run(steps: seq<Step>) returns (ok: bool)
      requires Valid() && state != Connecting
      modifies this, output, output.buffer
      ensures Valid() && accepted == kernel + output.Contents()
      ensures (C(), ok) == Lived(CB(), old(C()), steps) && state != Connecting
      ensures accepted == old(accepted) + LifePayload(CB(), old(C()), steps)
      ensures multiset(queue)[WriteComplete] == multiset(old(queue))[WriteComplete] +
                if hasWriteCompleteCallback then LifeTally(CB(), old(C()), steps).emptied else 0
      ensures multiset(queue)[ForceCloseInLoop] ==
                multiset(old(queue))[ForceCloseInLoop] + LifeTally(CB(), old(C()), steps).forced
      ensures old(accepted) <= accepted && old(kernel) <= kernel
      ensures old(writeClosed) ==> writeClosed && kernel == old(kernel)
      ensures forall i, j :: 0 <= i < j < |queue| && queue[i].HighWater? && queue[j].HighWater? ==>
                Separated(backlogs, highWaterMark, queue[i].backlog, queue[j].backlog)
    {
      hide MarksRises, Stepped, Separated;
      ok := true;
      for i := 0 to |steps|
        invariant Valid() && (output.buffer == old(output.buffer) || fresh(output.buffer))
        invariant (C(), ok) == Lived(CB(), old(C()), steps[..i]) && state != Connecting
        invariant old(accepted) <= accepted && old(kernel) <= kernel
        invariant old(writeClosed) ==> writeClosed && kernel == old(kernel)
      {
        assert steps[..i + 1][..i] == steps[..i];
        if ok {
          ok := TakeStep(steps[i]);
        }
      }
      assert steps[..|steps|] == steps;
      LifeAccepts(CB(), old(C()), steps);
      LifeTallied(CB(), old(C()), steps);
      forall i, j | 0 <= i < j < |queue| && queue[i].HighWater? && queue[j].HighWater?
        ensures Separated(backlogs, highWaterMark, queue[i].backlog, queue[j].backlog)
      {
        CallbacksSeparated(CB(), queue, backlogs, i, j);
      }
    }
  }

  const BORN: Conn := Conn(Connected, true, false, false, [], [], [], [0])

  /** From the constructor to connectDestroyed. */
  method Life(cb: Callbacks, steps: seq<Step>) returns (c: TcpConnection, ok: bool)
    ensures c.Valid() && c.CB() == cb && c.accepted == c.kernel + c.output.Contents()
    ensures c.accepted == LifePayload(cb, BORN, steps)
    ensures multiset(c.queue)[WriteComplete] == if cb.writeComplete then LifeTally(cb, BORN, steps).emptied else 0
    ensures multiset(c.queue)[ForceCloseInLoop] == LifeTally(cb, BORN, steps).forced
    ensures var (last, fine) := Lived(cb, BORN, steps);
            && (ok <==> fine && last.state != Disconnecting)
            && (fine ==> c.C() == if last.state == Connected then Closed(last) else last)
  {
    hide Lived, LifePayload, LifeTally, MarksRises, Separated;
    c := new TcpConnection(cb.mark, cb.highWater, cb.writeComplete);
    c.ConnectEstablished();
    assert c.C() == BORN;
    ok := c.Run(steps);
    assert [] + LifePayload(cb, BORN, steps) == LifePayload(cb, BORN, steps);
    if ok {
      ok := c.ConnectDestroyed();
    }
  }
}
