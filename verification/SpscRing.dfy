/** BaseSimpleRingBuffer: one thread pushes, one thread pops, and each step of either is a single
    load, slot access or store.  A load of the other thread's index may return any value that
    index had since this thread last looked at it (acquire/release gives no more than that). */
module SpscRing {
  import opened Basics

  /** push: before it; after loading head and finding room; after writing the slot. */
  datatype PushPc<T> = PushIdle | HasRoom(value: T) | SlotWritten(value: T)

  /** pop: before it; after loading tail and finding an item; after reading the slot. */
  datatype PopPc<T> = PopIdle | HasItem | SlotRead(value: T)

  /** `heads` and `tails` count the stores to head_ and tail_; the values stored are these counts
      modulo the size.  `seenTail` and `seenHead` are the latest stores known to each side. */
  datatype State<T> = State(
    ring: seq<T>,
    heads: nat, tails: nat,
    seenTail: nat, seenHead: nat,
    pusher: PushPc<T>, popper: PopPc<T>,
    pushed: seq<T>,          // values of the pushes that have stored head_, in order
    popped: seq<T>)          // values of the pops that have stored tail_, in order

  /** `view` says which store to the other index a load returns. */
  datatype Action<T> =
    | PushCheck(value: T, view: nat) | WriteSlot | StoreHead
    | PopCheck(view: nat) | ReadSlot | StoreTail

  function NextIndex(current: nat, size: nat): nat
    requires size > 0
  {
    (current + 1) % size
  }

  function Index(count: nat, size: nat): (i: nat)
    requires size > 0
    ensures i < size
  {
    count % size
  }

  /** One step; an action that is not possible in a state leaves it alone. */
  function Next<T>(s: State<T>, a: Action<T>): State<T>
    requires |s.ring| > 0
  {
    var size := |s.ring|;
    match a
    case PushCheck(value, view) =>
      if s.pusher != PushIdle || !(s.seenTail <= view <= s.tails) then s
      else if NextIndex(Index(s.heads, size), size) == Index(view, size) then s.(seenTail := view)   // return false
      else s.(seenTail := view, pusher := HasRoom(value))
    case WriteSlot =>
      if s.pusher.HasRoom? then
        s.(ring := s.ring[Index(s.heads, size) := s.pusher.value], pusher := SlotWritten(s.pusher.value))
      else s
    case StoreHead =>
      if s.pusher.SlotWritten? then
        s.(heads := s.heads + 1, pushed := s.pushed + [s.pusher.value], pusher := PushIdle)
      else s
    case PopCheck(view) =>
      if s.popper != PopIdle || !(s.seenHead <= view <= s.heads) then s
      else if Index(s.tails, size) == Index(view, size) then s.(seenHead := view)                    // return false
      else s.(seenHead := view, popper := HasItem)
    case ReadSlot =>
      if s.popper.HasItem? then s.(popper := SlotRead(s.ring[Index(s.tails, size)])) else s
    case StoreTail =>
      if s.popper.SlotRead? then
        s.(tails := s.tails + 1, popped := s.popped + [s.popper.value], popper := PopIdle)
      else s
  }

  function Run<T>(s: State<T>, actions: seq<Action<T>>): (t: State<T>)
    requires |s.ring| > 0
    ensures |t.ring| == |s.ring|
  {
    if actions == [] then s else Next(Run(s, actions[..|actions| - 1]), actions[|actions| - 1])
  }

  function Fresh<T>(ring: seq<T>): State<T> {
    State(ring, 0, 0, 0, 0, PushIdle, PopIdle, [], [])
  }

  // ---- Arithmetic of the indices ----

  lemma Remainder(n: nat, q: int, r: nat, size: nat)
    requires size > 0 && n == size * q + r && r < size
    ensures n % size == r
  {
    assert n == size * (n / size) + n % size;
    assert size * (n / size - q) == r - n % size;
    MulBound(size, n / size - q);
  }

  /** Counts less than a whole turn apart fall on different slots; a whole turn apart, on one. */
  lemma SlotsOf(a: nat, b: nat, size: nat)
    requires size > 0 && a <= b <= a + size
    ensures Index(a, size) == Index(b, size) <==> a == b || b == a + size
  {
    var q, r := a / size, a % size;
    assert a == size * q + r;
    if r + (b - a) < size {
      Remainder(b, q, r + (b - a), size);
    } else if b - a < size {
      assert size * (q + 1) == size * q + size;
      Remainder(b, q + 1, r + (b - a) - size, size);
    } else {
      assert size * (q + 1) == size * q + size;
      Remainder(b, q + 1, r, size);
    }
  }

  lemma NextIsIndex(count: nat, size: nat)
    requires size > 0
    ensures NextIndex(Index(count, size), size) == Index(count + 1, size)
  {
    var q, r := count / size, count % size;
    assert count == size * q + r;
    if r + 1 < size {
      Remainder(count + 1, q, r + 1, size);
      Remainder(r + 1, 0, r + 1, size);
    } else {
      assert size * (q + 1) == size * q + size;
      Remainder(count + 1, q + 1, 0, size);
      Remainder(r + 1, 1, 0, size);
    }
  }

  // ---- The invariant ----

  ghost predicate Counters<T>(s: State<T>) {
    && |s.ring| > 0
    && s.seenTail <= s.tails <= s.seenHead <= s.heads
    && s.heads - s.seenTail <= |s.ring| - 1
    && (s.pusher != PushIdle ==> s.heads - s.seenTail < |s.ring| - 1)
    && (s.popper != PopIdle ==> s.tails < s.seenHead)
    && |s.pushed| == s.heads && |s.popped| == s.tails
  }

  /** Every value pushed and not yet popped is in its slot, and what has been popped or read is
      what was pushed. */
  ghost predicate Contents<T>(s: State<T>)
    requires Counters(s)
  {
    && (forall k :: s.tails <= k < s.heads ==> s.ring[Index(k, |s.ring|)] == s.pushed[k])
    && (s.pusher.SlotWritten? ==> s.ring[Index(s.heads, |s.ring|)] == s.pusher.value)
    && (s.popper.SlotRead? ==> s.popper.value == s.pushed[s.tails])
    && s.popped == s.pushed[..s.tails]
  }

  ghost predicate Inv<T>(s: State<T>) {
    Counters(s) && Contents(s)
  }

  lemma CountersStep<T>(s: State<T>, a: Action<T>)
    requires Counters(s)
    ensures Counters(Next(s, a))
  {
    hide Index, NextIndex;
    match a {
      case PushCheck(_, view) =>
        if s.seenTail <= view <= s.tails {
          NextIsIndex(s.heads, |s.ring|);
          SlotsOf(view, s.heads + 1, |s.ring|);
        }
      case PopCheck(view) =>
        if s.seenHead <= view <= s.heads { SlotsOf(s.tails, view, |s.ring|); }
      case _ =>
    }
  }

  lemma ContentsStep<T>(s: State<T>, a: Action<T>)
    requires Inv(s) && Counters(Next(s, a))
    ensures Contents(Next(s, a))
  {
    hide Index, NextIndex;
    var t := Next(s, a);
    if a.WriteSlot? && s.pusher.HasRoom? {
      forall k | s.tails <= k < s.heads ensures Index(k, |s.ring|) != Index(s.heads, |s.ring|) {
        SlotsOf(k, s.heads, |s.ring|);
      }
    } else if a.StoreTail? && s.popper.SlotRead? {
      assert s.pushed[..s.tails + 1] == s.pushed[..s.tails] + [s.pushed[s.tails]];
    } else if a.StoreHead? && s.pusher.SlotWritten? {
      assert t.pushed[..s.tails] == s.pushed[..s.tails];
    }
  }

  lemma {:induction false} RunInv<T>(ring: seq<T>, actions: seq<Action<T>>)
    requires |ring| > 0
    ensures Inv(Run(Fresh(ring), actions))
  {
    if actions != [] {
      var init := actions[..|actions| - 1];
      RunInv(ring, init);
      CountersStep(Run(Fresh(ring), init), actions[|actions| - 1]);
      ContentsStep(Run(Fresh(ring), init), actions[|actions| - 1]);
    }
  }

  /** Over all interleavings and all stale loads: what has been popped is a prefix of what has
      been pushed, and at most size - 1 values are in the ring, counting one being pushed. */
  lemma PopsArePrefixOfPushes<T>(ring: seq<T>, actions: seq<Action<T>>)
    requires |ring| > 0
    ensures var t := Run(Fresh(ring), actions);
            t.popped <= t.pushed &&
            |t.pushed| - |t.popped| + (if t.pusher == PushIdle then 0 else 1) <= |ring| - 1
  {
    RunInv(ring, actions);
  }

  /** No data race: the slot the pusher is about to write, or has written and not yet published,
      is neither the one the popper is about to read nor any other unread one. */
  lemma UnreadSlotsUntouched<T>(ring: seq<T>, actions: seq<Action<T>>, k: nat)
    requires |ring| > 0
    requires var t := Run(Fresh(ring), actions); t.pusher != PushIdle && |t.popped| <= k < |t.pushed|
    ensures var t := Run(Fresh(ring), actions);
            Index(|t.pushed|, |ring|) != Index(k, |ring|) && t.ring[Index(k, |ring|)] == t.pushed[k]
  {
    RunInv(ring, actions);
    var t := Run(Fresh(ring), actions);
    SlotsOf(k, t.heads, |ring|);
  }

  /** push refuses exactly when, by its view of tail, size - 1 values are in the ring; pop refuses
      exactly when, by its view of head, there is none. */
  lemma RefusalsAreHonest<T>(ring: seq<T>, actions: seq<Action<T>>, value: T, view: nat)
    requires |ring| > 0
    ensures var t := Run(Fresh(ring), actions);
            t.pusher == PushIdle && t.seenTail <= view <= t.tails ==>
              (Next(t, PushCheck(value, view)).pusher == PushIdle <==> |t.pushed| - view == |ring| - 1)
    ensures var t := Run(Fresh(ring), actions);
            t.popper == PopIdle && t.seenHead <= view <= t.heads ==>
              (Next(t, PopCheck(view)).popper == PopIdle <==> view == |t.popped|)
  {
    hide Index, NextIndex;
    RunInv(ring, actions);
    var t := Run(Fresh(ring), actions);
    if t.seenTail <= view <= t.tails {
      NextIsIndex(t.heads, |ring|);
      SlotsOf(view, t.heads + 1, |ring|);
    }
    if t.seenHead <= view <= t.heads { SlotsOf(t.tails, view, |ring|); }
  }

  // ---- The source's two methods ----

  lemma RunLast<T>(s: State<T>, actions: seq<Action<T>>, a: Action<T>)
    requires |s.ring| > 0
    ensures Run(s, []) == s
    ensures Run(s, actions + [a]) == Next(Run(s, actions), a)
  {
    assert (actions + [a])[..|actions|] == actions;
  }

  lemma RunThree<T>(s: State<T>, a: Action<T>, b: Action<T>, c: Action<T>)
    requires |s.ring| > 0
    ensures Run(s, [a]) == Next(s, a)
    ensures Run(s, [a, b, c]) == Next(Next(Next(s, a), b), c)
  {
    hide Next, Run;
    RunLast(s, [], a);
    RunLast(s, [a], b);
    RunLast(s, [a, b], c);
    assert [] + [a] == [a] && [a] + [b] == [a, b] && [a, b] + [c] == [a, b, c];
  }

  class BaseSimpleRingBuffer<T> {
    const ring: array<T>
    var head: nat
    var tail: nat
    ghost var steps: State<T>      // where the step system is

    ghost predicate Valid()
      reads this, ring
    {
      && Inv(steps) && steps.ring == ring[..] && ring.Length > 0
      && head == Index(steps.heads, ring.Length) && tail == Index(steps.tails, ring.Length)
    }

    constructor (size: nat, filler: T)
      requires size > 0
      ensures Valid() && fresh(ring) && steps == Fresh(steps.ring) && |steps.ring| == size
    {
      var slots := new T[size](_ => filler);
      ring, head, tail := slots, 0, 0;
      steps := Fresh(slots[..]);
    }

    /** push, where the load of tail_ returned the value of its store number `view`. */
    method Push(value: T, loadedTail: nat, ghost view: nat) returns (ok: bool)
      requires Valid() && steps.pusher == PushIdle && steps.seenTail <= view <= steps.tails
      requires loadedTail == Index(view, ring.Length)
      modifies this`head, this`steps, ring
      ensures Valid()
      ensures steps == Run(old(steps), if ok then [PushCheck(value, view), WriteSlot, StoreHead]
                                       else [PushCheck(value, view)])
      ensures ok <==> |old(steps).pushed| - view < ring.Length - 1
      ensures steps.pushed == old(steps).pushed + if ok then [value] else []
      ensures steps.popped == old(steps).popped
    {
      hide Index, NextIndex, Inv, Run;
      PushSteps(steps, value, view);
      var nextHead := NextIndex(head, ring.Length);
      if nextHead == loadedTail {
        steps := Run(steps, [PushCheck(value, view)]);
        return false;
      }
      assert head < ring.Length;
      ring[head] := value;
      head := nextHead;
      steps := Run(steps, [PushCheck(value, view), WriteSlot, StoreHead]);
      return true;
    }

    /** pop, where the load of head_ returned the value of its store number `view`. */
    method Pop(value0: T, loadedHead: nat, ghost view: nat) returns (ok: bool, value: T)
      requires Valid() && steps.popper == PopIdle && steps.seenHead <= view <= steps.heads
      requires loadedHead == Index(view, ring.Length)
      modifies this`tail, this`steps
      ensures Valid()
      ensures steps == Run(old(steps), if ok then [PopCheck(view), ReadSlot, StoreTail] else [PopCheck(view)])
      ensures ok <==> |old(steps).popped| < view
      ensures steps.popped == old(steps).popped + if ok then [value] else []
      ensures value == if ok then steps.pushed[|old(steps).popped|] else value0
      ensures steps.pushed == old(steps).pushed
    {
      hide Index, NextIndex, Inv, Run;
      PopSteps(steps, view);
      value := value0;
      if tail == loadedHead {
        steps := Run(steps, [PopCheck(view)]);
        return false, value;
      }
      assert tail < ring.Length;
      value := ring[tail];
      tail := NextIndex(tail, ring.Length);
      steps := Run(steps, [PopCheck(view), ReadSlot, StoreTail]);
      return true, value;
    }
  }

  /** A push that nothing interrupts. */
  lemma PushSteps<T>(s: State<T>, value: T, view: nat)
    requires Inv(s) && s.pusher == PushIdle && s.seenTail <= view <= s.tails
    ensures |s.ring| > 0 && |s.pushed| == s.heads && Index(s.heads, |s.ring|) < |s.ring|
    ensures NextIndex(Index(s.heads, |s.ring|), |s.ring|) == Index(s.heads + 1, |s.ring|)
    ensures var refused := NextIndex(Index(s.heads, |s.ring|), |s.ring|) == Index(view, |s.ring|);
            && (refused <==> s.heads - view == |s.ring| - 1)
            && s.heads - view <= |s.ring| - 1
            && var t := Run(s, if refused then [PushCheck(value, view)]
                               else [PushCheck(value, view), WriteSlot, StoreHead]);
            && Inv(t)
            && t == if refused then s.(seenTail := view)
                    else s.(seenTail := view, heads := s.heads + 1, pushed := s.pushed + [value],
                            ring := s.ring[Index(s.heads, |s.ring|) := value])
  {
    hide Index, NextIndex, Contents;
    NextIsIndex(s.heads, |s.ring|);
    SlotsOf(view, s.heads + 1, |s.ring|);
    RunThree(s, PushCheck(value, view), WriteSlot, StoreHead);
    StepInv(s, PushCheck(value, view));
    var checked := Next(s, PushCheck(value, view));
    StepInv(checked, WriteSlot);
    StepInv(Next(checked, WriteSlot), StoreHead);
  }

  /** A pop that nothing interrupts. */
  lemma PopSteps<T>(s: State<T>, view: nat)
    requires Inv(s) && s.popper == PopIdle && s.seenHead <= view <= s.heads
    ensures |s.ring| > 0 && |s.popped| == s.tails && Index(s.tails, |s.ring|) < |s.ring|
    ensures NextIndex(Index(s.tails, |s.ring|), |s.ring|) == Index(s.tails + 1, |s.ring|)
    ensures var refused := Index(s.tails, |s.ring|) == Index(view, |s.ring|);
            && (refused <==> s.tails == view) && s.tails <= view
            && (!refused ==> s.tails < |s.pushed| && s.ring[Index(s.tails, |s.ring|)] == s.pushed[s.tails])
            && var t := Run(s, if refused then [PopCheck(view)] else [PopCheck(view), ReadSlot, StoreTail]);
            && Inv(t)
            && t == if refused then s.(seenHead := view)
                    else s.(seenHead := view, tails := s.tails + 1,
                            popped := s.popped + [s.ring[Index(s.tails, |s.ring|)]])
  {
    hide Index, NextIndex;
    NextIsIndex(s.tails, |s.ring|);
    SlotsOf(s.tails, view, |s.ring|);
    RunThree(s, PopCheck(view), ReadSlot, StoreTail);
    StepInv(s, PopCheck(view));
    var checked := Next(s, PopCheck(view));
    StepInv(checked, ReadSlot);
    StepInv(Next(checked, ReadSlot), StoreTail);
  }

  lemma StepInv<T>(s: State<T>, a: Action<T>)
    requires Inv(s)
    ensures Inv(Next(s, a))
  {
    CountersStep(s, a);
    ContentsStep(s, a);
  }
}
