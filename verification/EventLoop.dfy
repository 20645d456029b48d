/** The hand-off of functors to an event loop: a queue under a mutex, an eventfd that ends the
    poll, and any number of threads.  One action is one atomic step of one thread. */
module EventLoops {

  type Tid = nat
  type Functor = nat   // stands for a callback

  const EVENTFD_MAX: nat := 0xFFFF_FFFF_FFFF_FFFE

  /** Where a thread other than the loop thread is. */
  datatype Pc =
    | Elsewhere
    | Pushed         // queueInLoop: after push_back, before wakeup
    | QuitSet        // quit: after quit_ = true, before wakeup

  /** Where the loop thread is. */
  datatype LoopPc =
    | Polling                                       // in poll, or on its way into it
    | Handling(wakeActive: bool)                    // running the callbacks of active channels
    | Running(batch: seq<Functor>, next: nat)       // in doPendingFunctors
    | SelfPushed(batch: seq<Functor>, next: nat)    // a functor in queueInLoop, before wakeup
    | Destroying                                    // doPendingFunctors destroys its vector
    | Exited

  datatype State = State(
    pending: seq<Functor>,        // pendingFunctors_
    counter: nat,                 // the eventfd
    loop: LoopPc,
    threads: map<Tid, Pc>,
    calling: bool,                // callingPendingFunctors_
    quit: bool,
    pushed: seq<Functor>,         // every functor ever queued, in queue order
    executed: seq<Functor>)       // every functor started, in order

  datatype Action =
    | Push(t: Tid, f: Functor) | Wakeup(t: Tid)     // queueInLoop on another thread
    | SetQuit(t: Tid) | WakeupQuit(t: Tid)          // quit on another thread
    | PollReturns(wake: bool)                       // does poll report the wakeup channel?
    | ReadEventfd                                   // handleRead
    | HandlerQueues(f: Functor) | HandlerQuits      // a channel callback uses the loop
    | Swap                                          // into doPendingFunctors
    | RunNext                                       // the next functor of the batch starts
    | FunctorPushes(f: Functor) | FunctorWakes      // queueInLoop by a functor
    | FunctorQuits
    | EndBatch                                      // callingPendingFunctors_ = false
    | DestructorQueues(f: Functor)                  // queueInLoop by the destructor of a functor
    | DestructorQuits
    | NextTurn                                      // while (!quit_)

  function PcOf(s: State, t: Tid): Pc {
    if t in s.threads then s.threads[t] else Elsewhere
  }

  /** A write to the eventfd: refused, without blocking, once the counter is full. */
  function Bump(s: State): State {
    if s.counter < EVENTFD_MAX then s.(counter := s.counter + 1) else s
  }

  function Queue(s: State, f: Functor): State {
    s.(pending := s.pending + [f], pushed := s.pushed + [f])
  }

  /** queueInLoop on the loop thread: push, and wake up only while functors are being called. */
  function QueueOnLoopThread(s: State, f: Functor, waking: LoopPc): State {
    if s.calling then Queue(s, f).(loop := waking) else Queue(s, f)
  }

  /** One step; an action that is not possible in a state leaves it alone. */
  function Next(s: State, a: Action): State {
    match a
    case Push(t, f) =>
      if PcOf(s, t) == Elsewhere then Queue(s, f).(threads := s.threads[t := Pushed]) else s
    case Wakeup(t) =>
      if PcOf(s, t) == Pushed then Bump(s).(threads := s.threads[t := Elsewhere]) else s
    case SetQuit(t) =>
      if PcOf(s, t) == Elsewhere then s.(quit := true, threads := s.threads[t := QuitSet]) else s
    case WakeupQuit(t) =>
      if PcOf(s, t) == QuitSet then Bump(s).(threads := s.threads[t := Elsewhere]) else s
    case PollReturns(wake) =>
      if s.loop == Polling && (wake ==> s.counter > 0) then s.(loop := Handling(wake)) else s
    case ReadEventfd =>
      if s.loop == Handling(true) then s.(counter := 0, loop := Handling(false)) else s
    case HandlerQueues(f) =>
      if s.loop.Handling? then QueueOnLoopThread(s, f, s.loop) else s
    case HandlerQuits =>
      if s.loop.Handling? then s.(quit := true) else s
    case Swap =>
      if s.loop == Handling(false) then s.(calling := true, pending := [], loop := Running(s.pending, 0)) else s
    case RunNext =>
      if s.loop.Running? && s.loop.next < |s.loop.batch| then
        s.(executed := s.executed + [s.loop.batch[s.loop.next]], loop := Running(s.loop.batch, s.loop.next + 1))
      else s
    case FunctorPushes(f) =>
      if s.loop.Running? && s.loop.next > 0 then
        QueueOnLoopThread(s, f, SelfPushed(s.loop.batch, s.loop.next))
      else s
    case FunctorWakes =>
      if s.loop.SelfPushed? then Bump(s).(loop := Running(s.loop.batch, s.loop.next)) else s
    case FunctorQuits =>
      if s.loop.Running? && s.loop.next > 0 then s.(quit := true) else s
    case EndBatch =>
      if s.loop.Running? && s.loop.next == |s.loop.batch| then s.(calling := false, loop := Destroying) else s
    case DestructorQueues(f) =>
      if s.loop == Destroying then QueueOnLoopThread(s, f, s.loop) else s
    case DestructorQuits =>
      if s.loop == Destroying then s.(quit := true) else s
    case NextTurn =>
      if s.loop == Destroying then s.(loop := if s.quit then Exited else Polling) else s
  }

  function Run(s: State, actions: seq<Action>): State {
    if actions == [] then s else Next(Run(s, actions[..|actions| - 1]), actions[|actions| - 1])
  }

  /** The state in which loop() first polls; other threads may be inside queueInLoop or quit. */
  predicate Entering(s: State) {
    s.loop == Polling && !s.calling && !s.quit && s.pushed == s.pending && s.executed == []
  }

  // ---- Order ----

  function InFlight(s: State): seq<Functor> {
    if (s.loop.Running? || s.loop.SelfPushed?) && s.loop.next <= |s.loop.batch| then s.loop.batch[s.loop.next..] else []
  }

  ghost predicate InOrder(s: State) {
    && (s.loop.Running? || s.loop.SelfPushed? ==> s.loop.next <= |s.loop.batch|)
    && s.executed + InFlight(s) + s.pending == s.pushed
  }

  lemma QueueKeepsOrder(s: State, f: Functor)
    requires InOrder(s)
    ensures InOrder(Queue(s, f))
    ensures s.loop.Running? ==> InOrder(Queue(s, f).(loop := SelfPushed(s.loop.batch, s.loop.next)))
  {
    var done := s.executed + InFlight(s);
    assert done + (s.pending + [f]) == (done + s.pending) + [f];
  }

  lemma RunNextKeepsOrder(s: State)
    requires InOrder(s)
    ensures InOrder(Next(s, RunNext))
  {
    if s.loop.Running? && s.loop.next < |s.loop.batch| {
      var f, left := s.loop.batch[s.loop.next], s.loop.batch[s.loop.next + 1..];
      assert s.loop.batch[s.loop.next..] == [f] + left;
      assert s.executed + ([f] + left) == (s.executed + [f]) + left;
    }
  }

  lemma SwapKeepsOrder(s: State)
    requires InOrder(s)
    ensures InOrder(Next(s, Swap))
  {
    if s.loop == Handling(false) {
      assert s.pending[0..] == s.pending;
      assert s.executed + [] + s.pending == s.executed + s.pending + [];
    }
  }

  lemma OrderStep(s: State, a: Action)
    requires InOrder(s)
    ensures InOrder(Next(s, a))
  {
    match a {
      case Push(_, f) => QueueKeepsOrder(s, f);
      case HandlerQueues(f) => QueueKeepsOrder(s, f);
      case FunctorPushes(f) => QueueKeepsOrder(s, f);
      case DestructorQueues(f) => QueueKeepsOrder(s, f);
      case RunNext => RunNextKeepsOrder(s);
      case Swap => SwapKeepsOrder(s);
      case _ =>
    }
  }

  /** Functors start at most once and in queue order, whoever queued them: what has started, the
      rest of the batch and the queue are, in this order, everything ever queued. */
  lemma {:induction false} FunctorsInOrder(s: State, actions: seq<Action>)
    requires Entering(s)
    ensures InOrder(Run(s, actions))
    ensures Run(s, actions).executed <= Run(s, actions).pushed
  {
    if actions != [] {
      FunctorsInOrder(s, actions[..|actions| - 1]);
      OrderStep(Run(s, actions[..|actions| - 1]), actions[|actions| - 1]);
    }
  }

  // ---- What the calls come to ----

  /** Where a thread other than the loop thread is, from its own calls: inside queueInLoop from its push to
      its wakeup, inside quit from setting the flag to its wakeup. */
  function Place(pc: Pc, actions: seq<Action>, t: Tid): Pc {
    if actions == [] then pc
    else
      Moved(Place(pc, actions[..|actions| - 1], t), actions[|actions| - 1], t)
  }

  function Moved(pc: Pc, a: Action, t: Tid): Pc {
    match pc
    case Elsewhere => if a.Push? && a.t == t then Pushed else if a == SetQuit(t) then QuitSet else Elsewhere
    case Pushed => if a == Wakeup(t) then Elsewhere else Pushed
    case QuitSet => if a == WakeupQuit(t) then Elsewhere else QuitSet
  }

  lemma {:induction false} PlaceIs(s: State, actions: seq<Action>, t: Tid)
    ensures PcOf(Run(s, actions), t) == Place(PcOf(s, t), actions, t)
  {
    hide Next, PcOf, Moved;
    if actions != [] {
      PlaceIs(s, actions[..|actions| - 1], t);
      MovedBy(Run(s, actions[..|actions| - 1]), actions[|actions| - 1], t);
    }
  }

  lemma MovedBy(s: State, a: Action, t: Tid)
    ensures PcOf(Next(s, a), t) == Moved(PcOf(s, t), a, t)
  {
  }

  /** The last of these calls is made where its thread is: another thread begins a call outside of any,
      the loop thread is in a callback, in a functor or in a destructor. */
  predicate MadeInPlace(s: State, actions: seq<Action>)
    requires actions != []
  {
    var init := actions[..|actions| - 1];
    match actions[|actions| - 1]
    case Push(t, _) => Place(PcOf(s, t), init, t) == Elsewhere
    case SetQuit(t) => Place(PcOf(s, t), init, t) == Elsewhere
    case HandlerQueues(_) => Run(s, init).loop.Handling?
    case HandlerQuits => Run(s, init).loop.Handling?
    case FunctorPushes(_) => Run(s, init).loop.Running? && Run(s, init).loop.next > 0
    case FunctorQuits => Run(s, init).loop.Running? && Run(s, init).loop.next > 0
    case DestructorQueues(_) => Run(s, init).loop == Destroying
    case DestructorQuits => Run(s, init).loop == Destroying
    case _ => false
  }

  predicate IsQueue(a: Action) {
    a.Push? || a.HandlerQueues? || a.FunctorPushes? || a.DestructorQueues?
  }

  predicate IsQuit(a: Action) {
    a.SetQuit? || a == HandlerQuits || a == FunctorQuits || a == DestructorQuits
  }

  /** The functors of the queueInLoop calls of a run, in order, whoever made them. */
  function QueuedBy(s: State, actions: seq<Action>): seq<Functor> {
    if actions == [] then []
    else
      var a := actions[|actions| - 1];
      QueuedBy(s, actions[..|actions| - 1]) + (if IsQueue(a) && MadeInPlace(s, actions) then [a.f] else [])
  }

  /** Somebody called quit(). */
  predicate QuitBy(s: State, actions: seq<Action>) {
    actions != [] &&
    (QuitBy(s, actions[..|actions| - 1]) || (IsQuit(actions[|actions| - 1]) && MadeInPlace(s, actions)))
  }

  /** Every call of queueInLoop queues its functor, and nothing else is queued; what is queued waits
      until doPendingFunctors takes it. */
  lemma {:induction false} QueuedIsQueuedBy(s: State, actions: seq<Action>)
    ensures Run(s, actions).pushed == s.pushed + QueuedBy(s, actions)
    ensures Swap !in actions ==> Run(s, actions).pending == s.pending + QueuedBy(s, actions)
  {
    hide Next, PcOf, Place, MadeInPlace;
    if actions == [] {
      assert s.pushed + [] == s.pushed && s.pending + [] == s.pending;
    } else {
      var init, a := actions[..|actions| - 1], actions[|actions| - 1];
      QueuedIsQueuedBy(s, init);
      OneQueued(s, init, a);
      var more := if IsQueue(a) && MadeInPlace(s, actions) then [a.f] else [];
      assert init + [a] == actions;
      assert s.pushed + (QueuedBy(s, init) + more) == (s.pushed + QueuedBy(s, init)) + more;
      assert s.pending + (QueuedBy(s, init) + more) == (s.pending + QueuedBy(s, init)) + more;
    }
  }

  lemma OneQueued(s: State, init: seq<Action>, a: Action)
    ensures var t, more := Run(s, init), if IsQueue(a) && MadeInPlace(s, init + [a]) then [a.f] else [];
            Next(t, a).pushed == t.pushed + more && (a != Swap ==> Next(t, a).pending == t.pending + more)
  {
    hide Run;
    var t := Run(s, init);
    assert (init + [a])[..|init|] == init;
    if a.Push? { PlaceIs(s, init, a.t); }
    assert t.pushed + [] == t.pushed && t.pending + [] == t.pending;
  }

  /** The loop is told to end exactly when somebody called quit(). */
  lemma {:induction false} QuitIsQuitBy(s: State, actions: seq<Action>)
    ensures Run(s, actions).quit <==> s.quit || QuitBy(s, actions)
  {
    hide Next, PcOf, Place, IsQuit, MadeInPlace;
    if actions != [] {
      var init, a := actions[..|actions| - 1], actions[|actions| - 1];
      QuitIsQuitBy(s, init);
      assert init + [a] == actions;
      OneQuits(s, init, a);
    }
  }

  lemma OneQuits(s: State, init: seq<Action>, a: Action)
    ensures Next(Run(s, init), a).quit <==> Run(s, init).quit || (IsQuit(a) && MadeInPlace(s, init + [a]))
  {
    hide Run;
    assert (init + [a])[..|init|] == init;
    if a.SetQuit? { PlaceIs(s, init, a.t); }
  }

  /** Once loop() has returned nothing is run any more, whoever still queues. */
  lemma {:induction false} ExitedStays(s: State, actions: seq<Action>)
    requires s.loop == Exited
    ensures Run(s, actions).loop == Exited && Run(s, actions).executed == s.executed
  {
    if actions != [] { ExitedStays(s, actions[..|actions| - 1]); }
  }

  // ---- No lost wakeup ----

  ghost predicate SomeoneWakes(s: State) {
    exists t :: t in s.threads && s.threads[t] != Elsewhere
  }

  /** Poll will end: the eventfd is readable, or a thread is about to make it so. */
  ghost predicate WillWake(s: State) {
    s.counter > 0 || SomeoneWakes(s)
  }

  ghost predicate QuitWillWake(s: State) {
    s.counter > 0 || exists t :: t in s.threads && s.threads[t] == QuitSet
  }

  ghost predicate Covered(s: State) {
    && (s.calling <==> s.loop.Running? || s.loop.SelfPushed?)
    && (s.loop.Polling? || s.loop.Running? || (s.loop.Destroying? && !s.quit) ==> s.pending == [] || WillWake(s))
    && (s.loop.Polling? ==> s.quit ==> QuitWillWake(s))
  }

  /** A destructor queues while nothing is going to end the next poll. */
  ghost predicate Unannounced(s: State, a: Action) {
    a.DestructorQueues? && s.loop == Destroying && !s.quit && !WillWake(s)
  }

  /** Every step keeps the wakeup invariant, except such a one, which breaks it. */
  lemma CoveredStep(s: State, a: Action)
    requires Covered(s)
    ensures Covered(Next(s, a)) <==> !Unannounced(s, a)
  {
    var t := Next(s, a);
    if t != s {
      forall u | u in s.threads && s.threads[u] != Elsewhere && t.counter == 0
        ensures u in t.threads && t.threads[u] == s.threads[u]
      {
      }
      match a {
        case Push(u, _) => assert t.threads[u] == Pushed;
        case SetQuit(u) => assert t.threads[u] == QuitSet;
        case _ =>
      }
    }
  }

  ghost predicate AllAnnounced(s: State, actions: seq<Action>) {
    forall i :: 0 <= i < |actions| ==> !Unannounced(Run(s, actions[..i]), actions[i])
  }

  lemma {:induction false} RunCovered(s: State, actions: seq<Action>)
    requires Covered(s) && AllAnnounced(s, actions)
    ensures Covered(Run(s, actions))
  {
    hide Next, Covered, Unannounced;
    if actions != [] {
      var init, last := actions[..|actions| - 1], |actions| - 1;
      forall i | 0 <= i < |init| ensures !Unannounced(Run(s, init[..i]), init[i]) {
        assert init[..i] == actions[..i] && !Unannounced(Run(s, actions[..i]), actions[i]);
      }
      RunCovered(s, init);
      assert !Unannounced(Run(s, actions[..last]), actions[last]);
      CoveredStep(Run(s, init), actions[last]);
    }
  }

  /** Whenever the loop thread polls with a functor waiting, the eventfd is readable or some
      thread is between its push and its wakeup; likewise for a quit from another thread. */
  ghost predicate Announced(s: State) {
    s.loop == Polling ==> (s.pending != [] ==> WillWake(s)) && (s.quit ==> QuitWillWake(s))
  }

  /** No poll is in vain, neither one in progress nor one begun at once. */
  ghost predicate NotInVain(s: State) {
    Announced(s) && Announced(Next(s, NextTurn))
  }

  /** Over all interleavings of any number of threads no wakeup is lost, as long as destructors
      queue only where something is going to end the poll. */
  lemma NoLostWakeup(s: State, actions: seq<Action>)
    requires Entering(s) && (s.pending == [] || WillWake(s)) && AllAnnounced(s, actions)
    ensures Announced(Run(s, actions))
  {
    hide Next, Run;
    RunCovered(s, actions);
  }

  /** The condition on destructors is exact for every run: if one of them queues elsewhere, the
      poll that follows waits in vain, and otherwise none does. */
  lemma NoLostWakeupExactly(s: State, actions: seq<Action>)
    requires Entering(s) && (s.pending == [] || WillWake(s))
    ensures (forall i :: 0 <= i <= |actions| ==> NotInVain(Run(s, actions[..i]))) <==> AllAnnounced(s, actions)
  {
    hide Next, Run, NotInVain, Unannounced;
    if AllAnnounced(s, actions) {
      forall i | 0 <= i <= |actions| ensures NotInVain(Run(s, actions[..i])) {
        AnnouncedSoFar(s, actions, i);
        RunCovered(s, actions[..i]);
        CoveredIsNotInVain(Run(s, actions[..i]));
      }
    } else {
      var i :| 0 <= i < |actions| && Unannounced(Run(s, actions[..i]), actions[i]);
      RunPrefix(s, actions, i);
      UnannouncedIsInVain(Run(s, actions[..i]), actions[i]);
      assert !NotInVain(Run(s, actions[..i + 1]));
    }
  }

  lemma AnnouncedSoFar(s: State, actions: seq<Action>, i: nat)
    requires AllAnnounced(s, actions) && i <= |actions|
    ensures AllAnnounced(s, actions[..i])
  {
    forall j | 0 <= j < i ensures actions[..i][..j] == actions[..j] {
    }
  }

  lemma CoveredIsNotInVain(s: State)
    requires Covered(s)
    ensures NotInVain(s)
  {
  }

  lemma UnannouncedIsInVain(s: State, a: Action)
    requires Unannounced(s, a)
    ensures !NotInVain(Next(s, a))
  {
  }

  /** What one destructor queues is announced exactly when something ends the next poll anyway:
      destructors run after callingPendingFunctors_ is reset. */
  lemma DestructorAnnouncedExactly(s: State, f: Functor)
    requires s.loop == Destroying && !s.calling && !s.quit
    ensures Announced(Run(s, [DestructorQueues(f), NextTurn])) <==> WillWake(s)
  {
    hide Run;
    RunTwo(s, DestructorQueues(f), NextTurn);
    QueuedThenPolling(s, f);
  }

  /** The condition at entry is exact: with functors queued before loop(), nothing in the eventfd
      and no thread about to write to it, already the first poll waits in vain. */
  lemma EntryConditionIsExact(s: State)
    requires Entering(s)
    ensures (forall actions :: AllAnnounced(s, actions) ==> Announced(Run(s, actions)))
       <==> s.pending == [] || WillWake(s)
  {
    if s.pending == [] || WillWake(s) {
      forall actions | AllAnnounced(s, actions) ensures Announced(Run(s, actions)) {
        NoLostWakeup(s, actions);
      }
    } else {
      assert AllAnnounced(s, []) && !Announced(Run(s, []));
    }
  }

  /** On an idle loop, for one, a destructor's functor is not announced. */
  lemma DestructorQueuesUnannounced(s: State, f: Functor)
    requires Entering(s) && s.pending == [] && !WillWake(s)
    ensures var t := Run(s, [PollReturns(false), Swap, EndBatch, DestructorQueues(f), NextTurn]);
            t.loop == Polling && t.pending == [f] && !WillWake(t)
  {
    var all := [PollReturns(false), Swap, EndBatch, DestructorQueues(f), NextTurn];
    hide Next, Run;
    IdleTurn(s);
    assert all[..3] == [PollReturns(false), Swap, EndBatch] && all[..5] == all;
    RunPrefix(s, all, 3);
    RunPrefix(s, all, 4);
    QueuedThenPolling(s.(loop := Destroying), f);
  }

  lemma QueuedThenPolling(s: State, f: Functor)
    requires s.loop == Destroying && !s.calling && !s.quit
    ensures Next(Next(s, DestructorQueues(f)), NextTurn) == Queue(s, f).(loop := Polling)
  {
  }

  lemma IdleTurn(s: State)
    requires s.loop == Polling && !s.calling && s.pending == []
    ensures Run(s, [PollReturns(false), Swap, EndBatch]) == s.(loop := Destroying)
  {
    var turn := [PollReturns(false), Swap, EndBatch];
    RunPrefix(s, turn, 0);
    RunPrefix(s, turn, 1);
    RunPrefix(s, turn, 2);
    assert turn[..3] == turn;
  }

  lemma RunPrefix(s: State, all: seq<Action>, k: nat)
    requires k < |all|
    ensures Run(s, all[..k + 1]) == Next(Run(s, all[..k]), all[k])
  {
    assert all[..k + 1][..k] == all[..k];
  }

  // ---- A woken loop catches up ----

  function Repeat(n: nat): seq<Action> {
    if n == 0 then [] else Repeat(n - 1) + [RunNext]
  }

  lemma {:induction false} RunsTheBatch(s: State, n: nat)
    requires s.loop.Running? && s.loop.next == 0 && n <= |s.loop.batch|
    ensures Run(s, Repeat(n)) == s.(executed := s.executed + s.loop.batch[..n], loop := Running(s.loop.batch, n))
  {
    hide Next, Run, Repeat;
    RepeatNext(n);
    if n == 0 {
      RunNothing(s);
    } else {
      RunsTheBatch(s, n - 1);
      RunLast(s, Repeat(n - 1), RunNext);
      RunsOne(s, n - 1);
    }
  }

  lemma RepeatNext(n: nat)
    ensures Repeat(n) == if n == 0 then [] else Repeat(n - 1) + [RunNext]
  {
  }

  lemma RunNothing(s: State)
    ensures Run(s, []) == s
    ensures s.loop.Running? && s.loop.next == 0 ==>
              s.(executed := s.executed + s.loop.batch[..0], loop := Running(s.loop.batch, 0)) == s
  {
    assert s.executed + [] == s.executed;
  }

  lemma RunLast(s: State, actions: seq<Action>, a: Action)
    ensures Run(s, actions + [a]) == Next(Run(s, actions), a)
  {
    assert (actions + [a])[..|actions|] == actions;
  }

  lemma RunsOne(s: State, k: nat)
    requires s.loop.Running? && s.loop.next == 0 && k < |s.loop.batch|
    ensures Next(s.(executed := s.executed + s.loop.batch[..k], loop := Running(s.loop.batch, k)), RunNext)
         == s.(executed := s.executed + s.loop.batch[..k + 1], loop := Running(s.loop.batch, k + 1))
  {
    assert s.loop.batch[..k + 1] == s.loop.batch[..k] + [s.loop.batch[k]];
    assert (s.executed + s.loop.batch[..k]) + [s.loop.batch[k]] == s.executed + s.loop.batch[..k + 1];
  }

  /** Once the poll has ended, one turn of the loop, undisturbed, runs everything queued. */
  lemma OneTurnRunsEverything(s: State)
    requires s.loop == Polling && s.counter > 0 && !s.calling && InOrder(s)
    ensures Run(Run(s, [PollReturns(true), ReadEventfd, Swap]), Repeat(|s.pending|)).executed == s.pushed
  {
    hide Next, Run, Repeat;
    WokenAndSwapped(s);
    RunsTheBatch(Run(s, [PollReturns(true), ReadEventfd, Swap]), |s.pending|);
    assert s.pending[..|s.pending|] == s.pending;
  }

  lemma WokenAndSwapped(s: State)
    requires s.loop == Polling && s.counter > 0
    ensures Run(s, [PollReturns(true), ReadEventfd, Swap])
         == s.(counter := 0, calling := true, pending := [], loop := Running(s.pending, 0))
  {
    var start := [PollReturns(true), ReadEventfd, Swap];
    RunPrefix(s, start, 0);
    RunPrefix(s, start, 1);
    RunPrefix(s, start, 2);
    assert start[..3] == start;
  }

  // ---- The loop itself ----

  /** What happens while a callback, a functor or a destructor runs on the loop thread: it uses
      the loop, or another thread makes a step. */
  datatype Use = Queues(f: Functor) | Quits | Other(a: Action)

  /** One turn of loop(): steps of other threads while it polls; whether poll reports the wakeup
      channel; what the channel callbacks, each functor and the destructors of the functors do. */
  datatype Turn = Turn(others: seq<Use>, wake: bool, handlers: seq<Use>, functors: seq<seq<Use>>, destructors: seq<Use>)

  predicate IsOther(a: Action) {
    a.Push? || a.Wakeup? || a.SetQuit? || a.WakeupQuit?
  }

  predicate OnlyOthers(script: seq<Use>) {
    forall u :: u in script ==> u.Other?
  }

  lemma {:induction false} RunAppend(s: State, a: seq<Action>, b: seq<Action>)
    ensures Run(s, a + b) == Run(Run(s, a), b)
  {
    hide Next;
    if b == [] {
      assert a + b == a;
    } else {
      RunAppend(s, a, b[..|b| - 1]);
      assert (a + b)[..|a + b| - 1] == a + b[..|b| - 1];
    }
  }

  /** What a callback or another thread leaves alone. */
  ghost predicate Undisturbed(s: State, t: State) {
    && t.loop == s.loop && t.calling == s.calling && t.executed == s.executed
    && s.pending <= t.pending && s.counter <= t.counter
  }

  ghost function QueueActions(s: State, f: Functor): seq<Action> {
    if s.loop.Running? then [FunctorPushes(f), FunctorWakes]
    else if s.loop.Handling? then [HandlerQueues(f)] else [DestructorQueues(f)]
  }

  /** The steps a use of the loop is. */
  ghost function UseActions(s: State, u: Use): seq<Action> {
    match u
    case Queues(f) => QueueActions(s, f)
    case Quits => [if s.loop.Running? then FunctorQuits else if s.loop.Handling? then HandlerQuits else DestructorQuits]
    case Other(a) => if IsOther(a) then [a] else []
  }

  ghost function ScriptActions(s: State, script: seq<Use>): seq<Action> {
    if script == [] then []
    else ScriptActions(s, script[..|script| - 1]) + UseActions(s, script[|script| - 1])
  }

  /** A functor starts, and what happens while it runs. */
  ghost function FunctorScript(s: State, script: seq<Use>): seq<Action> {
    [RunNext] + ScriptActions(s.(loop := Running([], 0)), script)
  }

  /** The steps of the first n functors of a batch, and of what happens during each. */
  ghost function FunctorActions(s: State, scripts: seq<seq<Use>>, n: nat): seq<Action> {
    if n == 0 then []
    else
      FunctorActions(s, scripts, n - 1) +
      FunctorScript(s, if n <= |scripts| then scripts[n - 1] else [])
  }

  /** doPendingFunctors with n functors queued. */
  ghost function BatchActions(s: State, scripts: seq<seq<Use>>, n: nat): seq<Action> {
    [Swap] + FunctorActions(s, scripts, n) + [EndBatch]
  }

  ghost function PollActions(s: State, turn: Turn): seq<Action> {
    var others := ScriptActions(s, turn.others);
    others + [PollReturns(turn.wake && Run(s, others).counter > 0)]
  }

  /** poll and the channel callbacks. */
  ghost function HandlerActions(s: State, turn: Turn): seq<Action> {
    var polled := PollActions(s, turn);
    var read := if Run(s, polled).loop == Handling(true) then [ReadEventfd] else [];
    polled + read + ScriptActions(s.(loop := Handling(false)), turn.handlers)
  }

  ghost function TurnActions(s: State, turn: Turn): seq<Action> {
    var handled := HandlerActions(s, turn);
    handled + BatchActions(s, turn.functors, |Run(s, handled).pending|) +
    ScriptActions(s.(loop := Destroying), turn.destructors) + [NextTurn]
  }

  /** The steps of loop(): turn by turn, until somebody quits. */
  ghost function LoopActions(s: State, turns: seq<Turn>): seq<Action> {
    if turns == [] then []
    else
      var before := LoopActions(s, turns[..|turns| - 1]);
      var t := Run(s, before);
      before + (if t.quit then [] else TurnActions(t, turns[|turns| - 1]))
  }

  lemma {:induction false} SameBatch(s: State, t: State, scripts: seq<seq<Use>>, n: nat)
    ensures FunctorActions(s, scripts, n) == FunctorActions(t, scripts, n)
    ensures BatchActions(s, scripts, n) == BatchActions(t, scripts, n)
  {
    hide ScriptActions;
    if n > 0 {
      SameBatch(s, t, scripts, n - 1);
      SamePlace(s.(loop := Running([], 0)), t.(loop := Running([], 0)), if n <= |scripts| then scripts[n - 1] else []);
    }
  }

  lemma FunctorsNext(s: State, scripts: seq<seq<Use>>, i: nat)
    ensures FunctorActions(s, scripts, 0) == []
    ensures [Swap] + FunctorActions(s, scripts, i + 1) ==
              [Swap] + FunctorActions(s, scripts, i) + FunctorScript(s, if i < |scripts| then scripts[i] else [])
  {
  }

  lemma UseSamePlace(s: State, t: State, u: Use)
    requires s.loop.Running? == t.loop.Running? && s.loop.Handling? == t.loop.Handling?
    ensures UseActions(s, u) == UseActions(t, u)
  {
  }

  /** Only where the loop is decides which steps a script makes. */
  lemma {:induction false} SamePlace(s: State, t: State, script: seq<Use>)
    requires s.loop.Running? == t.loop.Running? && s.loop.Handling? == t.loop.Handling?
    ensures ScriptActions(s, script) == ScriptActions(t, script)
  {
    if script != [] { SamePlace(s, t, script[..|script| - 1]); }
  }

  lemma {:induction false} ScriptsOnlyUse(s: State, script: seq<Use>)
    ensures Swap !in ScriptActions(s, script)
  {
    if script != [] { ScriptsOnlyUse(s, script[..|script| - 1]); }
  }

  /** What anybody queues during the poll and the channel callbacks is in the queue behind what was
      there, when doPendingFunctors takes it. */
  lemma QueuedBeforeSwap(s: State, turn: Turn)
    ensures Run(s, HandlerActions(s, turn)).pending == s.pending + QueuedBy(s, HandlerActions(s, turn))
  {
    hide Run, ScriptActions, QueuedBy;
    ScriptsOnlyUse(s, turn.others);
    ScriptsOnlyUse(s.(loop := Handling(false)), turn.handlers);
    QueuedIsQueuedBy(s, HandlerActions(s, turn));
  }

  lemma QueueSteps(s: State, f: Functor)
    requires s.calling <==> s.loop.Running?
    requires s.loop.Handling? || s.loop.Destroying? || (s.loop.Running? && s.loop.next > 0)
    ensures Run(s, QueueActions(s, f)) == if s.calling then Bump(Queue(s, f)) else Queue(s, f)
  {
    hide Run, Next;
    OneQueues(s, f);
    if s.loop.Running? {
      RunTwo(s, FunctorPushes(f), FunctorWakes);
      OneWakes(Queue(s, f).(loop := SelfPushed(s.loop.batch, s.loop.next)));
      assert Bump(Queue(s, f)).loop == s.loop;
    } else {
      RunOne(s, if s.loop.Handling? then HandlerQueues(f) else DestructorQueues(f));
    }
  }

  lemma OneQueues(s: State, f: Functor)
    requires s.calling <==> s.loop.Running?
    ensures s.loop.Handling? ==> Next(s, HandlerQueues(f)) == Queue(s, f)
    ensures s.loop.Destroying? ==> Next(s, DestructorQueues(f)) == Queue(s, f)
    ensures s.loop.Running? && s.loop.next > 0 ==>
              Next(s, FunctorPushes(f)) == Queue(s, f).(loop := SelfPushed(s.loop.batch, s.loop.next))
  {
  }

  lemma OneWakes(s: State)
    requires s.loop.SelfPushed?
    ensures Next(s, FunctorWakes) == Bump(s).(loop := Running(s.loop.batch, s.loop.next))
  {
  }

  lemma RunOne(s: State, a: Action)
    ensures Run(s, [a]) == Next(s, a)
  {
    assert [a][..0] == [];
  }

  lemma RunTwo(s: State, a: Action, b: Action)
    ensures Run(s, [a, b]) == Next(Next(s, a), b)
  {
    hide Next;
    RunOne(s, a);
    assert [a, b][..1] == [a];
  }

  // ---- What a script asks for ----

  function PlaceIn(pc: Pc, script: seq<Use>, t: Tid): Pc {
    if script == [] then pc
    else
      var before := PlaceIn(pc, script[..|script| - 1], t);
      match script[|script| - 1]
      case Other(a) => Moved(before, a, t)
      case _ => before
  }

  /** The functors a script queues, in order: each of its own, and each that a thread outside of any call
      queues meanwhile. */
  function Asked(s: State, script: seq<Use>): seq<Functor> {
    if script == [] then []
    else
      var init := script[..|script| - 1];
      Asked(s, init) +
      match script[|script| - 1]
      case Queues(f) => [f]
      case Quits => []
      case Other(a) => if a.Push? && PlaceIn(PcOf(s, a.t), init, a.t) == Elsewhere then [a.f] else []
  }

  predicate QuitAsked(s: State, script: seq<Use>) {
    script != [] &&
    var init := script[..|script| - 1];
    QuitAsked(s, init) ||
    match script[|script| - 1]
    case Queues(_) => false
    case Quits => true
    case Other(a) => a.SetQuit? && PlaceIn(PcOf(s, a.t), init, a.t) == Elsewhere
  }

  ghost predicate Reached(s: State, script: seq<Use>, t: State) {
    forall u :: PcOf(t, u) == PlaceIn(PcOf(s, u), script, u)
  }

  /** Between two states exactly what the script asks for has been queued, and the loop told to quit
      exactly when the script does so. */
  ghost predicate Heard(s: State, script: seq<Use>, t: State) {
    && t.pushed == s.pushed + Asked(s, script)
    && (t.quit <==> s.quit || QuitAsked(s, script))
    && Reached(s, script, t)
  }

  lemma {:induction false} PlaceInTwo(pc: Pc, a: seq<Use>, b: seq<Use>, t: Tid)
    ensures PlaceIn(pc, a + b, t) == PlaceIn(PlaceIn(pc, a, t), b, t)
  {
    if b == [] {
      assert a + b == a;
    } else {
      PlaceInTwo(pc, a, b[..|b| - 1], t);
      assert (a + b)[..|a + b| - 1] == a + b[..|b| - 1];
    }
  }

  lemma {:induction false} AskedInTwo(s: State, a: seq<Use>, t: State, b: seq<Use>)
    requires Reached(s, a, t)
    ensures Asked(s, a + b) == Asked(s, a) + Asked(t, b)
    ensures QuitAsked(s, a + b) <==> QuitAsked(s, a) || QuitAsked(t, b)
  {
    hide PlaceIn, PcOf;
    if b == [] {
      assert a + b == a && Asked(s, a) + [] == Asked(s, a);
    } else {
      var init, last := b[..|b| - 1], b[|b| - 1];
      AskedInTwo(s, a, t, init);
      assert (a + b)[..|a + b| - 1] == a + init;
      if last.Other? && last.a.Push? { PlaceInTwo(PcOf(s, last.a.t), a, init, last.a.t); }
      if last.Other? && last.a.SetQuit? { PlaceInTwo(PcOf(s, last.a.t), a, init, last.a.t); }
    }
  }

  lemma HeardInTwo(s: State, a: seq<Use>, t: State, b: seq<Use>, u: State)
    requires Heard(s, a, t) && Heard(t, b, u)
    ensures Heard(s, a + b, u) && Asked(s, a + b) == Asked(s, a) + Asked(t, b)
  {
    hide Asked, QuitAsked, PlaceIn, PcOf;
    AskedInTwo(s, a, t, b);
    assert s.pushed + (Asked(s, a) + Asked(t, b)) == (s.pushed + Asked(s, a)) + Asked(t, b);
    forall v ensures PcOf(u, v) == PlaceIn(PcOf(s, v), a + b, v) {
      PlaceInTwo(PcOf(s, v), a, b, v);
    }
  }

  /** Only where the other threads are decides what a script asks for. */
  lemma {:induction false} SameAsked(s: State, t: State, script: seq<Use>)
    requires s.threads == t.threads
    ensures Asked(s, script) == Asked(t, script) && (QuitAsked(s, script) <==> QuitAsked(t, script))
  {
    if script != [] { SameAsked(s, t, script[..|script| - 1]); }
  }

  lemma SameHeard(s: State, script: seq<Use>, t: State, u: State)
    requires Heard(s, script, t) && u.threads == t.threads && u.pushed == t.pushed && u.quit == t.quit
    ensures Heard(s, script, u)
  {
    hide Asked, QuitAsked, PlaceIn;
  }

  /** What happens while the first n functors of a batch run. */
  function Flat(scripts: seq<seq<Use>>, n: nat): seq<Use> {
    if n == 0 then [] else Flat(scripts, n - 1) + (if n <= |scripts| then scripts[n - 1] else [])
  }

  lemma FlatNext(scripts: seq<seq<Use>>, i: nat)
    ensures Flat(scripts, 0) == []
    ensures Flat(scripts, i + 1) == Flat(scripts, i) + (if i < |scripts| then scripts[i] else [])
  {
  }

  /** What happens in a turn in which n functors run. */
  function TurnScript(turn: Turn, n: nat): seq<Use> {
    turn.others + turn.handlers + Flat(turn.functors, n) + turn.destructors
  }

  lemma NothingHeard(s: State)
    ensures Heard(s, [], s) && Asked(s, []) == []
  {
    assert s.pushed + [] == s.pushed;
  }

  lemma OneHeard(s: State, u: Use, t: State)
    requires t.threads == s.threads && !u.Other?
    requires t.pushed == s.pushed + (if u.Queues? then [u.f] else []) && (t.quit <==> s.quit || u.Quits?)
    ensures Heard(s, [u], t) && Asked(s, [u]) == if u.Queues? then [u.f] else []
  {
    assert [u][..0] == [];
    assert Asked(s, []) == [];
  }

  lemma OtherHeard(s: State, a: Action)
    requires IsOther(a)
    ensures Heard(s, [Other(a)], Next(s, a)) && Next(s, a).pending == s.pending + Asked(s, [Other(a)])
  {
    assert [Other(a)][..0] == [];
    assert Asked(s, []) == [] && s.pushed + [] == s.pushed && s.pending + [] == s.pending;
  }

  lemma NotOtherHeard(s: State, a: Action)
    requires !IsOther(a)
    ensures Heard(s, [Other(a)], s) && Asked(s, [Other(a)]) == []
  {
    assert [Other(a)][..0] == [];
    assert Asked(s, []) == [] && s.pushed + [] == s.pushed;
  }

  class EventLoop {
    var pendingFunctors: seq<Functor>
    var callingPendingFunctors: bool
    var quit: bool
    var wakeupFd: nat               // the counter of the eventfd
    var threads: map<Tid, Pc>       // where the other threads are
    ghost var pc: LoopPc
    ghost var pushed: seq<Functor>
    ghost var executed: seq<Functor>

    ghost function S(): State
      reads this
    {
      State(pendingFunctors, wakeupFd, pc, threads, callingPendingFunctors, quit, pushed, executed)
    }

    /** Where user code can be running on the loop thread, or the loop thread is in poll. */
    ghost predicate Ready()
      reads this
    {
      && (callingPendingFunctors <==> pc.Running?)
      && (pc.Polling? || pc.Handling? || pc.Destroying? || (pc.Running? && 0 < pc.next <= |pc.batch|))
    }

    method WakeUp()
      modifies this`wakeupFd
      ensures wakeupFd == if old(wakeupFd) < EVENTFD_MAX then old(wakeupFd) + 1 else old(wakeupFd)
    {
      if wakeupFd < EVENTFD_MAX {      // a full counter refuses the write
        wakeupFd := wakeupFd + 1;
      }
    }

    /** queueInLoop on the loop thread: what it queues while a batch is running is announced. */
    method QueueInLoop(f: Functor) returns (ghost actions: seq<Action>)
      requires Ready() && !pc.Polling?
      modifies this`pendingFunctors, this`pushed, this`wakeupFd
      ensures S() == Run(old(S()), actions) && Undisturbed(old(S()), S())
      ensures pendingFunctors == old(pendingFunctors) + [f] && pushed == old(pushed) + [f]
      ensures pc.Running? ==> wakeupFd > 0
      ensures actions == QueueActions(old(S()), f)
      ensures forall a :: a in actions ==> a.DestructorQueues? ==> pc.Destroying?
    {
      hide Next, Run;
      actions := QueueActions(S(), f);
      QueueSteps(S(), f);
      pendingFunctors, pushed := pendingFunctors + [f], pushed + [f];
      if callingPendingFunctors {
        WakeUp();
      }
    }

    /** One step of another thread inside queueInLoop or quit. */
    method OtherThread(a: Action)
      requires Ready() && IsOther(a)
      modifies this`pendingFunctors, this`pushed, this`wakeupFd, this`quit, this`threads
      ensures S() == Next(old(S()), a) && Undisturbed(old(S()), S())
      ensures a.Push? && PcOf(old(S()), a.t) == Elsewhere ==>
                pendingFunctors == old(pendingFunctors) + [a.f] && pushed == old(pushed) + [a.f]
      ensures !a.Push? || PcOf(old(S()), a.t) != Elsewhere ==>
                pendingFunctors == old(pendingFunctors) && pushed == old(pushed)
      ensures quit <==> old(quit) || (a.SetQuit? && PcOf(old(S()), a.t) == Elsewhere)
      ensures (a.Wakeup? && PcOf(old(S()), a.t) == Pushed) || (a.WakeupQuit? && PcOf(old(S()), a.t) == QuitSet) ==>
                wakeupFd == if old(wakeupFd) < EVENTFD_MAX then old(wakeupFd) + 1 else old(wakeupFd)
    {
      match a {
        case Push(t, f) =>
          if t !in threads || threads[t] == Elsewhere {
            pendingFunctors, pushed := pendingFunctors + [f], pushed + [f];
            threads := threads[t := Pushed];
          }
        case SetQuit(t) =>
          if t !in threads || threads[t] == Elsewhere {
            quit, threads := true, threads[t := QuitSet];
          }
        case Wakeup(t) =>
          if t in threads && threads[t] == Pushed {
            WakeUp();
            threads := threads[t := Elsewhere];
          }
        case WakeupQuit(t) =>
          if t in threads && threads[t] == QuitSet {
            WakeUp();
            threads := threads[t := Elsewhere];
          }
      }
    }

    /** User code on the loop thread, and what other threads do meanwhile. */
    method Perform(script: seq<Use>) returns (ghost actions: seq<Action>)
      requires Ready() && (pc.Polling? ==> OnlyOthers(script))
      modifies this`pendingFunctors, this`pushed, this`wakeupFd, this`quit, this`threads
      ensures S() == Run(old(S()), actions) && Ready() && Undisturbed(old(S()), S())
      ensures actions == ScriptActions(old(S()), script)
      ensures Heard(old(S()), script, S()) && pendingFunctors == old(pendingFunctors) + Asked(old(S()), script)
      ensures forall a :: a in actions ==> a.DestructorQueues? ==> pc.Destroying? && !OnlyOthers(script)
    {
      hide Next, Run, UseActions, Heard, Asked;
      actions := [];
      RunNothing(S());
      NothingHeard(S());
      assert old(pendingFunctors) + [] == old(pendingFunctors);
      for i := 0 to |script|
        invariant S() == Run(old(S()), actions) && Ready() && Undisturbed(old(S()), S())
        invariant actions == ScriptActions(old(S()), script[..i])
        invariant Heard(old(S()), script[..i], S())
        invariant pendingFunctors == old(pendingFunctors) + Asked(old(S()), script[..i])
        invariant forall a :: a in actions ==> a.DestructorQueues? ==> pc.Destroying? && !OnlyOthers(script)
      {
        ghost var more: seq<Action>;
        ghost var s, waiting := S(), Asked(old(S()), script[..i]);
        UseSamePlace(old(S()), S(), script[i]);
        assert script[..i + 1][..i] == script[..i] && script[..i + 1] == script[..i] + [script[i]];
        more := PerformOne(script[i]);
        RunAppend(old(S()), actions, more);
        HeardInTwo(old(S()), script[..i], s, [script[i]], S());
        assert (old(pendingFunctors) + waiting) + Asked(s, [script[i]]) ==
               old(pendingFunctors) + (waiting + Asked(s, [script[i]]));
        actions := actions + more;
      }
      assert script[..|script|] == script;
    }

    method PerformOne(u: Use) returns (ghost actions: seq<Action>)
      requires Ready() && (pc.Polling? ==> u.Other?)
      modifies this`pendingFunctors, this`pushed, this`wakeupFd, this`quit, this`threads
      ensures S() == Run(old(S()), actions) && Ready() && Undisturbed(old(S()), S())
      ensures actions == UseActions(old(S()), u)
      ensures Heard(old(S()), [u], S()) && pendingFunctors == old(pendingFunctors) + Asked(old(S()), [u])
      ensures forall a :: a in actions ==> a.DestructorQueues? ==> pc.Destroying? && !u.Other?
    {
      hide Heard, Asked;
      actions := [];
      RunNothing(S());
      match u {
        case Queues(f) =>
          actions := QueueInLoop(f);
          OneHeard(old(S()), u, S());
        case Quits =>
          quit := true;
          ghost var a := if pc.Running? then FunctorQuits else if pc.Handling? then HandlerQuits else DestructorQuits;
          actions := [a];
          RunOne(old(S()), a);
          OneHeard(old(S()), u, S());
          assert pendingFunctors + [] == pendingFunctors;
        case Other(a) =>
          if IsOther(a) {
            OtherThread(a);
            actions := [a];
            RunOne(old(S()), a);
            OtherHeard(old(S()), a);
          } else {
            NotOtherHeard(S(), a);
            assert pendingFunctors + [] == pendingFunctors;
          }
      }
    }

    method RunFunctor(f: Functor, script: seq<Use>) returns (ghost actions: seq<Action>)
      requires callingPendingFunctors && pc.Running? && pc.next < |pc.batch| && f == pc.batch[pc.next]
      modifies this
      ensures S() == Run(old(S()), actions) && callingPendingFunctors
      ensures old(pc).Running? && pc == Running(old(pc).batch, old(pc).next + 1)
      ensures executed == old(executed) + [f]
      ensures Heard(old(S()), script, S()) && pendingFunctors == old(pendingFunctors) + Asked(old(S()), script)
      ensures actions == [RunNext] + ScriptActions(old(S()), script)
      ensures forall a :: a in actions ==> !a.DestructorQueues?
    {
      hide Next, Run, ScriptActions, Asked, QuitAsked, PlaceIn;
      RunOne(old(S()), RunNext);
      OneRuns(S());
      executed, pc := executed + [f], Running(pc.batch, pc.next + 1);
      SameAsked(old(S()), S(), script);
      SamePlace(old(S()), S(), script);
      ghost var more;
      more := Perform(script);
      RunAppend(old(S()), [RunNext], more);
      actions := [RunNext] + more;
    }

    /** Runs the functors queued so far, each once and in order; what is queued meanwhile stays
        for the next turn. */
    method DoPendingFunctors(scripts: seq<seq<Use>>) returns (ghost actions: seq<Action>)
      requires pc == Handling(false) && !callingPendingFunctors
      modifies this
      ensures S() == Run(old(S()), actions) && Ready() && pc == Destroying && !callingPendingFunctors
      ensures executed == old(executed) + old(pendingFunctors)
      ensures Heard(old(S()), Flat(scripts, |old(pendingFunctors)|), S())
      ensures pendingFunctors == Asked(old(S()), Flat(scripts, |old(pendingFunctors)|))
      ensures actions == BatchActions(old(S()), scripts, |old(pendingFunctors)|)
      ensures forall a :: a in actions ==> !a.DestructorQueues?
    {
      hide Next, Run, ScriptActions, FunctorActions, Asked, Heard, Flat;
      FunctorsNext(S(), scripts, 0);
      FlatNext(scripts, 0);
      NothingHeard(S());
      callingPendingFunctors := true;
      var functors := pendingFunctors;
      pendingFunctors := [];
      pc := Running(functors, 0);
      actions := [Swap];
      RunOne(old(S()), Swap);
      OneSwaps(old(S()));
      SameHeard(old(S()), [], old(S()), S());
      for i := 0 to |functors|
        invariant S() == Run(old(S()), actions) && callingPendingFunctors && pc == Running(functors, i)
        invariant executed == old(executed) + functors[..i]
        invariant Heard(old(S()), Flat(scripts, i), S()) && pendingFunctors == Asked(old(S()), Flat(scripts, i))
        invariant actions == [Swap] + FunctorActions(old(S()), scripts, i)
        invariant forall a :: a in actions ==> !a.DestructorQueues?
      {
        ghost var more;
        ghost var ran, s := functors[..i], S();
        SamePlace(old(S()).(loop := Running([], 0)), S(), if i < |scripts| then scripts[i] else []);
        more := RunFunctor(functors[i], if i < |scripts| then scripts[i] else []);
        assert functors[..i + 1] == ran + [functors[i]];
        RunAppend(old(S()), actions, more);
        FunctorsNext(old(S()), scripts, i);
        FlatNext(scripts, i);
        HeardInTwo(old(S()), Flat(scripts, i), s, if i < |scripts| then scripts[i] else [], S());
        actions := actions + more;
      }
      assert functors[..|functors|] == functors;
      RunLast(old(S()), actions, EndBatch);
      OneEnds(S());
      SameHeard(old(S()), Flat(scripts, |functors|), S(), S().(calling := false, loop := Destroying));
      callingPendingFunctors, pc, actions := false, Destroying, actions + [EndBatch];
    }

    /** One turn of the while loop. */
    method TakeTurn(turn: Turn) returns (ghost actions: seq<Action>)
      requires pc == Polling && !callingPendingFunctors && OnlyOthers(turn.others)
      modifies this
      ensures S() == Run(old(S()), actions) && !callingPendingFunctors
      ensures pc == if quit then Exited else Polling
      ensures executed == old(executed) + old(pendingFunctors) + Asked(old(S()), turn.others + turn.handlers)
      ensures executed == old(executed) + old(pendingFunctors) + QueuedBy(old(S()), HandlerActions(old(S()), turn))
      ensures Heard(old(S()), TurnScript(turn, |executed| - |old(executed)|), S())
      ensures actions == TurnActions(old(S()), turn)
      ensures OnlyOthers(turn.destructors) ==> forall a :: a in actions ==> !a.DestructorQueues?
    {
      hide Next, Run, HandlerActions, BatchActions, ScriptActions, QueuedBy, Asked, Heard, Flat;
      QueuedBeforeSwap(S(), turn);
      actions := HandleEvents(turn);
      ghost var more;
      ghost var s, n := S(), |pendingFunctors|;
      SameBatch(old(S()), S(), turn.functors, |pendingFunctors|);
      more := DoPendingFunctors(turn.functors);
      HeardInTwo(old(S()), turn.others + turn.handlers, s, Flat(turn.functors, n), S());
      s := S();
      RunAppend(old(S()), actions, more);
      actions := actions + more;
      SamePlace(old(S()).(loop := Destroying), S(), turn.destructors);
      more := Perform(turn.destructors);
      HeardInTwo(old(S()), turn.others + turn.handlers + Flat(turn.functors, n), s, turn.destructors, S());
      SameHeard(old(S()), TurnScript(turn, n), S(), S().(loop := if quit then Exited else Polling));
      RunAppend(old(S()), actions, more);
      actions := actions + more;
      RunLast(old(S()), actions, NextTurn);
      OneTurns(S());
      pc, actions := if quit then Exited else Polling, actions + [NextTurn];
    }

    /** poll, handleRead when the wakeup channel is active, and the channel callbacks. */
    method HandleEvents(turn: Turn) returns (ghost actions: seq<Action>)
      requires pc == Polling && !callingPendingFunctors && OnlyOthers(turn.others)
      modifies this
      ensures S() == Run(old(S()), actions) && Ready() && pc == Handling(false) && !callingPendingFunctors
      ensures actions == HandlerActions(old(S()), turn)
      ensures Heard(old(S()), turn.others + turn.handlers, S())
      ensures pendingFunctors == old(pendingFunctors) + Asked(old(S()), turn.others + turn.handlers)
      ensures executed == old(executed) && old(pendingFunctors) <= pendingFunctors
      ensures forall a :: a in actions ==> !a.DestructorQueues?
    {
      hide Next, Run, PollActions, ScriptActions, Asked, Heard;
      var wake;
      wake, actions := Poll(turn);
      ghost var read: seq<Action> := [];
      if wake {
        RunLast(old(S()), actions, ReadEventfd);
        OneReads(S());
        SameHeard(old(S()), turn.others, S(), S().(counter := 0, loop := Handling(false)));
        wakeupFd, pc := 0, Handling(false);            // handleRead
        read := [ReadEventfd];
      }
      assert actions + [] == actions;
      actions := actions + read;
      ghost var more;
      ghost var s, first := S(), Asked(old(S()), turn.others);
      SamePlace(old(S()).(loop := Handling(false)), S(), turn.handlers);
      more := Perform(turn.handlers);
      HeardInTwo(old(S()), turn.others, s, turn.handlers, S());
      assert (old(pendingFunctors) + first) + Asked(s, turn.handlers) ==
             old(pendingFunctors) + (first + Asked(s, turn.handlers));
      RunAppend(old(S()), actions, more);
      actions := actions + more;
    }

    /** poller_->poll: other threads go on; the wakeup channel is reported only when readable. */
    method Poll(turn: Turn) returns (wake: bool, ghost actions: seq<Action>)
      requires pc == Polling && !callingPendingFunctors && OnlyOthers(turn.others)
      modifies this
      ensures S() == Run(old(S()), actions) && Ready() && pc == Handling(wake) && !callingPendingFunctors
      ensures wake ==> wakeupFd > 0
      ensures actions == PollActions(old(S()), turn)
      ensures Heard(old(S()), turn.others, S())
      ensures pendingFunctors == old(pendingFunctors) + Asked(old(S()), turn.others)
      ensures executed == old(executed) && old(pendingFunctors) <= pendingFunctors
      ensures forall a :: a in actions ==> !a.DestructorQueues?
    {
      hide Next, Run, Asked, Heard;
      actions := Perform(turn.others);
      wake := turn.wake && wakeupFd > 0;
      RunLast(old(S()), actions, PollReturns(wake));
      OnePolls(S(), wake);
      SameHeard(old(S()), turn.others, S(), S().(loop := Handling(wake)));
      pc, actions := Handling(wake), actions + [PollReturns(wake)];
    }

    /** loop(), for as many turns as are given or until somebody quits.  It is a run of the step
        system, so functors run in queue order; a functor queued in one turn has run by the end
        of the next; and if what was queued before loop() has been announced, and destructors
        queue only where something ends the next poll anyway, no wakeup is lost. */
    method Loop(turns: seq<Turn>) returns (ghost actions: seq<Action>)
      requires Entering(S()) && forall turn :: turn in turns ==> OnlyOthers(turn.others)
      modifies this
      ensures S() == Run(old(S()), actions) && actions == LoopActions(old(S()), turns)
      ensures executed <= pushed && pushed == old(pushed) + QueuedBy(old(S()), LoopActions(old(S()), turns))
      ensures quit <==> QuitBy(old(S()), LoopActions(old(S()), turns))
      ensures pc == if quit then Exited else Polling
      ensures pushed == executed + pendingFunctors
      ensures AllAnnounced(old(S()), LoopActions(old(S()), turns)) && (old(pendingFunctors) == [] || WillWake(old(S())))
              ==> Announced(S())
      ensures (forall turn :: turn in turns ==> OnlyOthers(turn.destructors)) ==>
                AllAnnounced(old(S()), LoopActions(old(S()), turns))
      ensures turns != [] ==> old(pendingFunctors) <= executed
    {
      hide Next, Run, Entering, InOrder, WillWake, Announced, TurnActions, HandlerActions, QueuedBy, QuitBy, Heard,
           Asked;
      EnteringIs(S());
      actions := [];
      RunNothing(S());
      var i := 0;
      while i < |turns| && !quit
        invariant i <= |turns| && S() == Run(old(S()), actions) && !callingPendingFunctors
        invariant pc == if quit then Exited else Polling
        invariant actions == LoopActions(old(S()), turns[..i])
        invariant (forall turn :: turn in turns ==> OnlyOthers(turn.destructors)) ==>
                    forall a :: a in actions ==> !a.DestructorQueues?
        invariant if i == 0 then S() == old(S()) else old(pendingFunctors) <= executed
      {
        assert turns[i] in turns && turns[..i + 1][..i] == turns[..i];
        ghost var more;
        more := TakeTurn(turns[i]);
        RunAppend(old(S()), actions, more);
        actions := actions + more;
        i := i + 1;
      }
      assert turns[..|turns|] == turns;
      NoMoreTurns(old(S()), turns, i);
      FunctorsInOrder(old(S()), actions);
      RestIsPending(S());
      QueuedIsQueuedBy(old(S()), actions);
      QuitIsQuitBy(old(S()), actions);
      if AllAnnounced(old(S()), actions) && (old(pendingFunctors) == [] || WillWake(old(S()))) {
        NoLostWakeup(old(S()), actions);
      }
    }
  }

  /** After a quit the remaining turns make no step. */
  lemma {:induction false} NoMoreTurns(s: State, turns: seq<Turn>, i: nat)
    requires i <= |turns|
    requires i == |turns| || Run(s, LoopActions(s, turns[..i])).quit
    ensures LoopActions(s, turns) == LoopActions(s, turns[..i])
  {
    hide TurnActions, Run;
    if i < |turns| {
      var init := turns[..|turns| - 1];
      assert init[..i] == turns[..i];
      NoMoreTurns(s, init, i);
      assert LoopActions(s, init) + [] == LoopActions(s, init);
    } else {
      assert turns[..i] == turns;
    }
  }

  lemma RestIsPending(s: State)
    requires InOrder(s) && (s.loop == Polling || s.loop == Exited)
    ensures s.pushed == s.executed + s.pending
  {
    assert s.executed + [] == s.executed;
  }

  lemma EnteringIs(s: State)
    requires Entering(s)
    ensures s.loop == Polling && !s.calling && !s.quit && s.executed == []
  {
  }

  lemma OneSwaps(s: State)
    requires s.loop == Handling(false)
    ensures Next(s, Swap) == s.(calling := true, pending := [], loop := Running(s.pending, 0))
  {
  }

  lemma OneRuns(s: State)
    requires s.loop.Running? && s.loop.next < |s.loop.batch|
    ensures Next(s, RunNext) == s.(executed := s.executed + [s.loop.batch[s.loop.next]],
                                   loop := Running(s.loop.batch, s.loop.next + 1))
  {
  }

  lemma OneEnds(s: State)
    requires s.loop.Running? && s.loop.next == |s.loop.batch|
    ensures Next(s, EndBatch) == s.(calling := false, loop := Destroying)
  {
  }

  lemma OnePolls(s: State, wake: bool)
    requires s.loop == Polling && (wake ==> s.counter > 0)
    ensures Next(s, PollReturns(wake)) == s.(loop := Handling(wake))
  {
  }

  lemma OneReads(s: State)
    requires s.loop == Handling(true)
    ensures Next(s, ReadEventfd) == s.(counter := 0, loop := Handling(false))
  {
  }

  lemma OneTurns(s: State)
    requires s.loop == Destroying
    ensures Next(s, NextTurn) == s.(loop := if s.quit then Exited else Polling)
  {
  }
}
