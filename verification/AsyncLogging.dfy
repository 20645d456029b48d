/** AsyncLogging: any number of threads append lines to the current buffer; one writer thread
    takes the full buffers and the current one, writes them to the file and recycles two.  Each
    method below is one critical section or one step of the writer outside the mutex, so a
    schedule of calls is an interleaving of the threads. */
module AsyncLog {
  import opened Bytes

  /** kLargeBuffer */
  const SIZE: nat := 4_000_000

  /** A unique_ptr to a FixedBuffer, with what has been written to the buffer. */
  datatype BufferPtr = Null | Buf(data: seq<byte>)

  function Avail(b: BufferPtr): int
    requires b.Buf?
  {
    SIZE - |b.data|
  }

  /** FixedBuffer::append: all or nothing. */
  function Appended(b: BufferPtr, line: seq<byte>): BufferPtr
    requires b.Buf?
  {
    if Avail(b) > |line| then Buf(b.data + line) else b
  }

  /** Where the writer thread is. */
  datatype Pc =
    | Top                    // at the head of its loop
    | Waiting                // in waitForSeconds, mutex released
    | Writing(next: nat)     // writing buffersToWrite, this many done

  function ContentOf(buffers: seq<BufferPtr>): seq<byte> {
    if buffers == [] then []
    else
      var last := buffers[|buffers| - 1];
      ContentOf(buffers[..|buffers| - 1]) + (if last.Buf? then last.data else [])
  }

  lemma {:induction false} ContentConcat(a: seq<BufferPtr>, b: seq<BufferPtr>)
    ensures ContentOf(a + b) == ContentOf(a) + ContentOf(b)
  {
    if b == [] {
      assert a + b == a;
    } else {
      ContentConcat(a, b[..|b| - 1]);
      assert (a + b)[..|a + b| - 1] == a + b[..|b| - 1];
    }
  }

  lemma ContentPush(a: seq<BufferPtr>, p: BufferPtr)
    requires p.Buf?
    ensures ContentOf(a + [p]) == ContentOf(a) + p.data
  {
    assert (a + [p])[..|a|] == a;
  }

  lemma ContentHead(a: seq<BufferPtr>, i: nat)
    requires i < |a| && a[i].Buf?
    ensures ContentOf(a[i..]) == a[i].data + ContentOf(a[i + 1..])
  {
    assert a[i..] == [a[i]] + a[i + 1..];
    ContentConcat([a[i]], a[i + 1..]);
    assert [a[i]] == [] + [a[i]];
    ContentPush([], a[i]);
  }

  datatype Action = Append(line: seq<byte>) | WriterStep(message: seq<byte>)

  /** The lines of a schedule that are shorter than a buffer, in order. */
  function Lines(schedule: seq<Action>): seq<byte> {
    if schedule == [] then []
    else Lines(schedule[..|schedule| - 1]) + Line(schedule[|schedule| - 1])
  }

  function Line(a: Action): seq<byte> {
    if a.Append? && |a.line| < SIZE then a.line else []
  }

  /** What a schedule can see of the logger between two steps. */
  datatype View = View(pc: Pc, queued: nat, batch: seq<BufferPtr>, file: seq<byte>, memory: seq<byte>)

  /** What one step does to it.  The writer takes everything queued and the current buffer, drops
      all but two of more than 25, writes the batch buffer by buffer, and begins again. */
  ghost predicate Stepped(v: View, a: Action, w: View) {
    match a
    case Append(_) =>
      && w.pc == v.pc && w.batch == v.batch && w.file == v.file && v.queued <= w.queued <= v.queued + 1
      && w.memory == v.memory + Line(a)
    case WriterStep(message) =>
      match v.pc
      case Top =>
        if v.queued == 0 then w == v.(pc := Waiting)
        else w == v.(pc := Writing(0), queued := 0, batch := w.batch) && |w.batch| == v.queued + 1
      case Waiting => w == v.(pc := Writing(0), queued := 0, batch := w.batch) && |w.batch| == v.queued + 1
      case Writing(next) =>
        if next == 0 && |v.batch| > 25 then
          && w == v.(batch := v.batch[..2], file := v.file + message, memory := w.memory)
          && exists rest :: v.memory == ContentOf(v.batch) + rest && w.memory == ContentOf(w.batch) + rest
        else if next < |v.batch| then
          && w == v.(pc := Writing(next + 1), file := w.file, memory := w.memory)
          && v.batch[next].Buf? && w.file == v.file + v.batch[next].data && w.file + w.memory == v.file + v.memory
        else w == v.(pc := Top, batch := [])
  }

  class AsyncLogging {
    // shared, under mutex_
    var currentBuffer: BufferPtr
    var nextBuffer: BufferPtr
    var buffers: seq<BufferPtr>
    // locals of threadFunc
    var pc: Pc
    var newBuffer1: BufferPtr
    var newBuffer2: BufferPtr
    var buffersToWrite: seq<BufferPtr>
    // outside
    var file: seq<byte>
    ghost var logged: seq<byte>       // every line accepted, in order
    ghost var intact: bool            // no batch was larger than 25 buffers so far
    ghost var short: bool             // every line so far was shorter than a buffer

    /** In memory, from oldest to newest. */
    ghost function InMemory(): seq<byte>
      reads this
    {
      InFlight() + ContentOf(buffers) + if currentBuffer.Buf? then currentBuffer.data else []
    }

    ghost function V(): View
      reads this
    {
      View(pc, |buffers|, buffersToWrite, file, InMemory())
    }

    ghost function InFlight(): seq<byte>
      reads this
    {
      if pc.Writing? && pc.next <= |buffersToWrite| then ContentOf(buffersToWrite[pc.next..]) else []
    }

    ghost predicate Valid()
      reads this
    {
      && currentBuffer.Buf? && |currentBuffer.data| < SIZE
      && (forall b :: b in buffers ==> b.Buf?)
      // the recycling argument: the spare can only be missing while something waits to be written
      && (nextBuffer == Null ==> buffers != [])
      && (nextBuffer.Buf? ==> nextBuffer.data == [])
      && match pc {
           case Writing(next) =>
             && newBuffer1 == Null && next <= |buffersToWrite|
             && (forall b :: b in buffersToWrite ==> b.Buf?)
             && |buffersToWrite| >= (if newBuffer2 == Null then 2 else 1)
             && (newBuffer2.Buf? ==> newBuffer2.data == [])
             && (|buffersToWrite| > 25 ==> !intact)
           case _ =>
             newBuffer1 == Buf([]) && newBuffer2 == Buf([]) && buffersToWrite == []
         }
      // with such lines only a buffer that holds something is ever full
      && (short ==> forall b :: b in buffers ==> b.data != [])
      && (short && pc == Writing(0) ==>
            forall i :: 0 <= i < |buffersToWrite| - 1 && |buffersToWrite| > 25 ==> buffersToWrite[i].data != [])
      // conservation
      && (intact ==> file + InMemory() == logged)
    }

    constructor ()
      ensures Valid() && pc == Top && file == [] && logged == [] && intact && short
      ensures currentBuffer == Buf([]) && buffers == []
    {
      currentBuffer, nextBuffer, buffers := Buf([]), Buf([]), [];
      pc, newBuffer1, newBuffer2, buffersToWrite := Top, Buf([]), Buf([]), [];
      file, logged, intact, short := [], [], true, true;
    }

    /** A line is logged exactly when it is shorter than a buffer. */
    method Append(line: seq<byte>)
      requires Valid()
      modifies this`currentBuffer, this`nextBuffer, this`buffers, this`logged, this`short
      ensures Valid() && short == (old(short) && |line| < SIZE)
      ensures if Avail(old(currentBuffer)) > |line|
              then buffers == old(buffers) && currentBuffer == Buf(old(currentBuffer).data + line)
              else buffers == old(buffers) + [old(currentBuffer)] && currentBuffer == Appended(Buf([]), line)
      ensures logged == old(logged) + if |line| < SIZE then line else []
      ensures InMemory() == old(InMemory()) + if |line| < SIZE then line else []
      ensures Stepped(old(V()), Action.Append(line), V())
    {
      hide ContentOf;
      short := short && |line| < SIZE;
      if Avail(currentBuffer) <= |line| {
        Rotate();
      }
      Put(line);
    }

    /** currentBuffer_->append: the line fits, or the buffer is empty. */
    method Put(line: seq<byte>)
      requires Valid() && (Avail(currentBuffer) > |line| || currentBuffer == Buf([]))
      modifies this`currentBuffer, this`logged
      ensures Valid() && currentBuffer == Appended(old(currentBuffer), line)
      ensures logged == old(logged) + if |line| < SIZE then line else []
      ensures InMemory() == old(InMemory()) + if |line| < SIZE then line else []
    {
      hide ContentOf;
      ghost var before, taken := InMemory(), Appended(currentBuffer, line).data[|currentBuffer.data|..];
      Regroup(InFlight() + ContentOf(buffers), currentBuffer.data, taken);
      currentBuffer := Appended(currentBuffer, line);
      assert InMemory() == before + taken;
      Regroup(file, before, taken);
      logged := logged + taken;
    }

    /** The current buffer is full: queue it and take the spare, or allocate. */
    method Rotate()
      requires Valid() && (short ==> currentBuffer.data != [])
      modifies this`currentBuffer, this`nextBuffer, this`buffers
      ensures Valid() && currentBuffer == Buf([]) && buffers == old(buffers) + [old(currentBuffer)]
      ensures InMemory() == old(InMemory())
    {
      hide ContentOf;
      ContentPush(buffers, currentBuffer);
      Regroup(InFlight(), ContentOf(buffers), currentBuffer.data);
      buffers := buffers + [currentBuffer];
      if nextBuffer != Null {
        currentBuffer, nextBuffer := nextBuffer, Null;
      } else {
        currentBuffer := Buf([]);
      }
      assert InMemory() == old(InMemory());
    }

    /** threadFunc from the head of its loop: take the mutex; with nothing full, wait. */
    method LockOrWait()
      requires Valid() && pc == Top
      modifies this`currentBuffer, this`nextBuffer, this`buffers, this`pc, this`newBuffer1,
               this`newBuffer2, this`buffersToWrite, this`intact
      ensures Valid() && InMemory() == old(InMemory())
      ensures pc == if old(buffers) == [] then Waiting else Writing(0)
      ensures intact == (old(intact) && |buffersToWrite| <= 25)
      ensures if old(buffers) == [] then buffersToWrite == [] && buffers == []
              else |buffersToWrite| == |old(buffers)| + 1 && buffers == []
    {
      hide ContentOf;
      assert newBuffer1.Buf? && newBuffer1.data == [];
      assert newBuffer2.Buf? && newBuffer2.data == [];
      assert buffersToWrite == [];
      if buffers == [] {
        pc := Waiting;
      } else {
        TakeBuffers();
      }
    }

    /** The rest of the critical section, also entered when the wait ends, for whatever reason. */
    method TakeBuffers()
      requires Valid() && !pc.Writing?
      modifies this`currentBuffer, this`nextBuffer, this`buffers, this`pc, this`newBuffer1,
               this`newBuffer2, this`buffersToWrite, this`intact
      ensures Valid() && pc == Writing(0) && |buffersToWrite| == |old(buffers)| + 1
      ensures intact == (old(intact) && |buffersToWrite| <= 25)
      ensures ContentOf(buffersToWrite) == ContentOf(old(buffers)) + old(currentBuffer).data
      ensures buffers == [] && currentBuffer == nextBuffer == Buf([]) && InMemory() == old(InMemory())
    {
      hide ContentOf;
      ContentPush(buffers, currentBuffer);
      NoContent();
      buffers := buffers + [currentBuffer];
      currentBuffer, newBuffer1 := newBuffer1, Null;
      buffersToWrite, buffers := buffers, buffersToWrite;
      if nextBuffer == Null {
        nextBuffer, newBuffer2 := newBuffer2, Null;
      }
      assert buffersToWrite != [];
      assert buffersToWrite[0..] == buffersToWrite;
      intact := intact && |buffersToWrite| <= 25;
      pc := Writing(0);
      assert InMemory() == ContentOf(buffersToWrite);
    }

    /** More than 25 buffers: a message goes to the file, and all but two buffers are dropped. */
    method Drop(message: seq<byte>)
      requires Valid() && pc == Writing(0) && |buffersToWrite| > 25 && !intact
      modifies this`file, this`buffersToWrite
      ensures Valid() && buffersToWrite == old(buffersToWrite)[..2] && file == old(file) + message
      ensures ContentOf(old(buffersToWrite)) == ContentOf(buffersToWrite) + ContentOf(old(buffersToWrite)[2..])
      ensures short ==> ContentOf(old(buffersToWrite)[2..]) != []
    {
      hide ContentOf;
      if short { SomethingLost(buffersToWrite); }
      ContentConcat(buffersToWrite[..2], buffersToWrite[2..]);
      assert buffersToWrite == buffersToWrite[..2] + buffersToWrite[2..];
      file := file + message;
      buffersToWrite := buffersToWrite[..2];
    }

    /** output.append of one buffer. */
    method WriteOne()
      requires Valid() && pc.Writing? && pc.next < |buffersToWrite|
      modifies this`file, this`pc
      ensures Valid() && pc == Writing(old(pc.next) + 1)
      ensures file == old(file) + buffersToWrite[old(pc.next)].data
      ensures file + InMemory() == old(file + InMemory())
    {
      hide ContentOf;
      var buffer := buffersToWrite[pc.next];
      assert buffer in buffersToWrite;
      ContentHead(buffersToWrite, pc.next);
      ghost var rest := ContentOf(buffersToWrite[pc.next + 1..]);
      Regroup(buffer.data, rest, ContentOf(buffers));
      Regroup(buffer.data, rest + ContentOf(buffers), currentBuffer.data);
      Regroup(file, buffer.data, rest + ContentOf(buffers) + currentBuffer.data);
      file := file + buffer.data;
      pc := Writing(pc.next + 1);
    }

    /** After the batch: two of its buffers become the spares again. */
    method Recycle()
      requires Valid() && pc.Writing? && pc.next == |buffersToWrite|
      modifies this`pc, this`newBuffer1, this`newBuffer2, this`buffersToWrite
      ensures Valid() && pc == Top && InMemory() == old(InMemory())
    {
      hide ContentOf;
      assert buffersToWrite[pc.next..] == [];
      if |buffersToWrite| > 2 {
        buffersToWrite := buffersToWrite[..2];
      }
      if newBuffer1 == Null {
        assert buffersToWrite != [];
        buffersToWrite := buffersToWrite[..|buffersToWrite| - 1];
        newBuffer1 := Buf([]);         // back(), reset()
      }
      if newBuffer2 == Null {
        assert buffersToWrite != [];
        buffersToWrite := buffersToWrite[..|buffersToWrite| - 1];
        newBuffer2 := Buf([]);
      }
      buffersToWrite := [];
      NoContent();
      pc := Top;
    }

    /** Whatever the writer thread does next.  Nothing is lost or reordered, except when it
        begins to write more than 25 buffers. */
    method WriterStep(message: seq<byte>)
      requires Valid()
      modifies this`currentBuffer, this`nextBuffer, this`buffers, this`pc, this`newBuffer1,
               this`newBuffer2, this`buffersToWrite, this`intact, this`file
      ensures Valid()
      ensures !(old(pc) == Writing(0) && |old(buffersToWrite)| > 25) ==> file + InMemory() == old(file + InMemory())
      ensures intact == (old(intact) && |buffersToWrite| <= 25)
      ensures Stepped(old(V()), Action.WriterStep(message), V())
      ensures Oversized(old(V())) ==>
                && file == old(file) + message
                && |InMemory()| + |ContentOf(old(buffersToWrite)[2..])| == |old(InMemory())|
                && (short ==> ContentOf(old(buffersToWrite)[2..]) != [])
    {
      hide ContentOf;
      match pc {
        case Top => LockOrWait();
        case Waiting => TakeBuffers();
        case Writing(next) =>
          if next == 0 && |buffersToWrite| > 25 {
            ghost var rest := ContentOf(buffers) + currentBuffer.data;
            assert buffersToWrite[0..] == buffersToWrite;
            Regroup(ContentOf(buffersToWrite), ContentOf(buffers), currentBuffer.data);
            Drop(message);
            assert buffersToWrite[0..] == buffersToWrite;
            Regroup(ContentOf(buffersToWrite), ContentOf(buffers), currentBuffer.data);
            assert old(V()).memory == ContentOf(old(buffersToWrite)) + rest;
            assert V().memory == ContentOf(buffersToWrite) + rest;
          } else if next < |buffersToWrite| {
            WriteOne();
          } else {
            Recycle();
          }
      }
    }

    /** Conservation, as Valid has it. */
    lemma NothingLost()
      requires Valid() && intact
      ensures file + InMemory() == logged
    {
    }

    /** Every schedule: the file, then what is being written, queued and current, is everything
        logged, in order, unless some batch exceeded 25 buffers; what is logged are the lines of
        the schedule that are shorter than a buffer; and the writer does its steps.  `views` are
        the states in between. */
    method Run(schedule: seq<Action>) returns (ghost views: seq<View>)
      requires Valid()
      modifies this
      ensures Valid() && (intact ==> file + InMemory() == logged)
      ensures logged == old(logged) + Lines(schedule)
      ensures |views| == |schedule| + 1 && views[0] == old(V()) && views[|schedule|] == V()
      ensures forall i :: 0 <= i < |schedule| ==> Stepped(views[i], schedule[i], views[i + 1])
      ensures intact <==> old(intact) && forall v :: v in views[1..] ==> !Oversized(v)
      ensures short == (old(short) && AllShort(schedule))
      ensures short ==> forall i :: 0 <= i < |schedule| && schedule[i].WriterStep? && Oversized(views[i]) ==>
                Loses(views[i], views[i + 1], schedule[i].message)
    {
      hide Stepped, Oversized, Lines, Line, ContentOf, AsyncLogging.Valid, AsyncLogging.V;
      views := [V()];
      NoLines(logged);
      for i := 0 to |schedule|
        invariant Valid() && logged == old(logged) + Lines(schedule[..i])
        invariant |views| == i + 1 && views[0] == old(V()) && views[i] == V()
        invariant forall k :: 0 <= k < i ==> Stepped(views[k], schedule[k], views[k + 1])
        invariant intact <==> old(intact) && forall v :: v in views[1..] ==> !Oversized(v)
        invariant short == (old(short) && AllShort(schedule[..i]))
        invariant short ==> forall k :: 0 <= k < i && schedule[k].WriterStep? && Oversized(views[k]) ==>
                    Loses(views[k], views[k + 1], schedule[k].message)
      {
        MoreLines(old(logged), schedule, i);
        TakeStep(schedule[i]);
        assert (views + [V()])[1..] == views[1..] + [V()];
        views := views + [V()];
      }
      assert schedule[..|schedule|] == schedule;
      if intact { NothingLost(); }
    }

    method TakeStep(a: Action)
      requires Valid()
      modifies this
      ensures Valid() && logged == old(logged) + Line(a) && Stepped(old(V()), a, V())
      ensures intact <==> old(intact) && !Oversized(V())
      ensures short == (old(short) && IsShort(a))
      ensures short && a.WriterStep? && Oversized(old(V())) ==> Loses(old(V()), V(), a.message)
    {
      hide ContentOf;
      match a {
        case Append(line) => Append(line);
        case WriterStep(message) =>
          WriterStep(message);
          assert logged + [] == logged;
      }
    }
  }

  lemma NoLines(logged: seq<byte>)
    ensures logged + Lines([]) == logged
  {
  }

  lemma MoreLines(logged: seq<byte>, schedule: seq<Action>, i: nat)
    requires i < |schedule|
    ensures logged + Lines(schedule[..i + 1]) == logged + Lines(schedule[..i]) + Line(schedule[i])
  {
    assert schedule[..i + 1][..i] == schedule[..i];
    Regroup(logged, Lines(schedule[..i]), Line(schedule[i]));
  }

  predicate IsShort(a: Action) {
    a.Append? ==> |a.line| < SIZE
  }

  ghost predicate AllShort(schedule: seq<Action>) {
    forall a :: a in schedule ==> IsShort(a)
  }

  /** Less is left than there was: part of it went neither to the file nor stays in memory. */
  predicate Loses(v: View, w: View, message: seq<byte>) {
    w.file == v.file + message && |w.memory| < |v.memory|
  }

  /** It happens: 26 lines that fill a buffer each, before the writer first runs. */
  method Overrun(line: seq<byte>, message: seq<byte>) returns (log: AsyncLogging)
    requires |line| == SIZE - 1
    ensures log.Valid() && !log.intact && |log.logged| == 26 * |line|
    ensures log.file == message && |log.InMemory()| < |log.logged|
  {
    hide ContentOf, Stepped;
    log := new AsyncLogging();
    for i := 0 to 26
      invariant log.Valid() && fresh(log) && log.pc == Top && log.short && log.intact && log.file == []
      invariant if i == 0 then log.currentBuffer == Buf([]) && log.buffers == []
                else log.currentBuffer == Buf(line) && |log.buffers| == i - 1
      invariant |log.logged| == i * |line|
    {
      log.Append(line);
    }
    assert log.file + log.InMemory() == log.InMemory() == log.logged;
    TakenOver(log.V(), message);
    log.WriterStep(message);
    assert Oversized(log.V());
    log.WriterStep(message);
  }

  /** The writer takes everything queued at once. */
  lemma TakenOver(v: View, message: seq<byte>)
    requires v.pc == Top && v.queued >= 25
    ensures forall w :: Stepped(v, WriterStep(message), w) ==> Oversized(w) && w.file == v.file && w.memory == v.memory
  {
  }

  /** A batch of more than 25 buffers, about to be written. */
  predicate Oversized(v: View) {
    v.pc == Writing(0) && |v.batch| > 25
  }

  /** All but the last of a batch hold something: so does what is dropped of it. */
  lemma SomethingLost(batch: seq<BufferPtr>)
    requires |batch| > 25 && forall b :: b in batch ==> b.Buf?
    requires forall i :: 0 <= i < |batch| - 1 ==> batch[i].data != []
    ensures ContentOf(batch[2..]) != []
  {
    hide ContentOf;
    ContentHead(batch, 2);
  }

  lemma NoContent()
    ensures ContentOf([]) == []
  {
  }
}
