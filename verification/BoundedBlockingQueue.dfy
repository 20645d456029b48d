/** BoundedBlockingQueue: put and take around one mutex and two condition variables, with any
    number of threads.  One action is one critical section, from acquiring the mutex to waiting
    or returning; between a wakeup and re-acquiring the mutex any other thread may go first
    (barging), and a wait may end for no reason (spurious wakeup). */
module BlockingQueues {

  type Tid = nat

  /** A thread is in at most one of the six sets; in none while it is not inside a call. */
  datatype State<T> = State(
    capacity: nat,
    queue: seq<T>,
    takersWaiting: set<Tid>,        // blocked in notEmpty_.wait()
    takersSignalled: set<Tid>,      // chosen by notify(), not yet running
    takersSpurious: set<Tid>,       // woken for no reason, not yet running
    puttersWaiting: set<Tid>,       // blocked in notFull_.wait()
    puttersSignalled: set<Tid>,
    puttersSpurious: set<Tid>,
    offer: map<Tid, T>,             // what each thread inside put wants to put
    put: seq<T>,                    // every item put, in order
    taken: seq<T>)                  // every item returned by take, in order

  /** `who` is the waiter that notify() picks, if there is any. */
  datatype Action<T> =
    | Put(t: Tid, x: T, who: Tid)
    | PutAgain(t: Tid, who: Tid)
    | Take(t: Tid, who: Tid)
    | TakeAgain(t: Tid, who: Tid)
    | Spurious(t: Tid)

  predicate Outside<T>(s: State<T>, t: Tid) {
    && t !in s.takersWaiting && t !in s.takersSignalled && t !in s.takersSpurious
    && t !in s.puttersWaiting && t !in s.puttersSignalled && t !in s.puttersSpurious
  }

  function NotifyNotEmpty<T>(s: State<T>, who: Tid): State<T> {
    if who in s.takersWaiting then
      s.(takersWaiting := s.takersWaiting - {who}, takersSignalled := s.takersSignalled + {who})
    else s
  }

  function NotifyNotFull<T>(s: State<T>, who: Tid): State<T> {
    if who in s.puttersWaiting then
      s.(puttersWaiting := s.puttersWaiting - {who}, puttersSignalled := s.puttersSignalled + {who})
    else s
  }

  /** From the test of the while loop in put to the end of the critical section. */
  function PutFrom<T>(s: State<T>, t: Tid, x: T, who: Tid): State<T> {
    if |s.queue| >= s.capacity then s.(puttersWaiting := s.puttersWaiting + {t}, offer := s.offer[t := x])
    else NotifyNotEmpty(s.(queue := s.queue + [x], put := s.put + [x]), who)
  }

  /** The same for take. */
  function TakeFrom<T>(s: State<T>, t: Tid, who: Tid): State<T> {
    if s.queue == [] then s.(takersWaiting := s.takersWaiting + {t})
    else NotifyNotFull(s.(queue := s.queue[1..], taken := s.taken + [s.queue[0]]), who)
  }

  /** notify() wakes a waiter whenever there is one. */
  predicate Picks<T>(s: State<T>, a: Action<T>) {
    match a
    case Put(_, _, who) => s.takersWaiting == {} || who in s.takersWaiting
    case PutAgain(_, who) => s.takersWaiting == {} || who in s.takersWaiting
    case Take(_, who) => s.puttersWaiting == {} || who in s.puttersWaiting
    case TakeAgain(_, who) => s.puttersWaiting == {} || who in s.puttersWaiting
    case Spurious(_) => true
  }

  /** One step; an action that is not possible in a state leaves it alone. */
  function Next<T>(s: State<T>, a: Action<T>): State<T> {
    if !Picks(s, a) then s else
    match a
    case Put(t, x, who) =>
      if Outside(s, t) then PutFrom(s, t, x, who) else s
    case PutAgain(t, who) =>
      if t !in s.offer then s
      else if t in s.puttersSignalled then
        PutFrom(s.(puttersSignalled := s.puttersSignalled - {t}), t, s.offer[t], who)
      else if t in s.puttersSpurious then
        PutFrom(s.(puttersSpurious := s.puttersSpurious - {t}), t, s.offer[t], who)
      else s
    case Take(t, who) =>
      if Outside(s, t) then TakeFrom(s, t, who) else s
    case TakeAgain(t, who) =>
      if t in s.takersSignalled then TakeFrom(s.(takersSignalled := s.takersSignalled - {t}), t, who)
      else if t in s.takersSpurious then TakeFrom(s.(takersSpurious := s.takersSpurious - {t}), t, who)
      else s
    case Spurious(t) =>
      if t in s.takersWaiting then
        s.(takersWaiting := s.takersWaiting - {t}, takersSpurious := s.takersSpurious + {t})
      else if t in s.puttersWaiting then
        s.(puttersWaiting := s.puttersWaiting - {t}, puttersSpurious := s.puttersSpurious + {t})
      else s
  }

  function Run<T>(s: State<T>, actions: seq<Action<T>>): State<T> {
    if actions == [] then s else Next(Run(s, actions[..|actions| - 1]), actions[|actions| - 1])
  }

  function Fresh<T>(capacity: nat): State<T> {
    State(capacity, [], {}, {}, {}, {}, {}, {}, map[], [], [])
  }

  // ---- Contents ----

  ghost predicate Fifo<T>(s: State<T>) {
    s.put == s.taken + s.queue && |s.queue| <= s.capacity
  }

  lemma FifoStep<T>(s: State<T>, a: Action<T>)
    requires Fifo(s)
    ensures Fifo(Next(s, a)) && Next(s, a).capacity == s.capacity
  {
    if s.queue != [] {
      assert s.taken + s.queue == (s.taken + [s.queue[0]]) + s.queue[1..];
    }
    forall x ensures s.taken + (s.queue + [x]) == (s.taken + s.queue) + [x] {
    }
  }

  /** In any run items are taken in the order they were put, none lost, none twice, and the
      queue never holds more than its capacity. */
  lemma {:induction false} TakesInPutOrder<T>(capacity: nat, actions: seq<Action<T>>)
    ensures var t := Run(Fresh(capacity), actions);
            t.put == t.taken + t.queue && |t.queue| <= capacity && t.capacity == capacity
  {
    if actions != [] {
      var init := actions[..|actions| - 1];
      TakesInPutOrder(capacity, init);
      FifoStep(Run(Fresh(capacity), init), actions[|actions| - 1]);
    }
  }

  // ---- Nobody sleeps for ever ----

  ghost predicate Separate<T>(s: State<T>) {
    && s.takersWaiting !! s.takersSignalled !! s.takersSpurious
    && s.puttersWaiting !! s.puttersSignalled !! s.puttersSpurious
    && s.puttersWaiting + s.puttersSignalled + s.puttersSpurious <= s.offer.Keys
    && (forall t :: t in s.takersWaiting + s.takersSignalled + s.takersSpurious ==>
          t !in s.puttersWaiting + s.puttersSignalled + s.puttersSpurious)
  }

  /** While a taker waits unsignalled, every item in the queue has a taker on its way to it;
      while a putter waits unsignalled, every free slot has a putter on its way to it. */
  ghost predicate Matched<T>(s: State<T>) {
    && (s.takersWaiting != {} ==> |s.queue| <= |s.takersSignalled|)
    && (s.puttersWaiting != {} ==> s.capacity - |s.queue| <= |s.puttersSignalled|)
  }

  lemma SeparateStep<T>(s: State<T>, a: Action<T>)
    requires Separate(s)
    ensures Separate(Next(s, a))
  {
  }

  lemma PutMatched<T>(s: State<T>, t: Tid, x: T, who: Tid)
    requires s.takersWaiting !! s.takersSignalled
    requires s.takersWaiting == {} || who in s.takersWaiting
    requires s.takersWaiting != {} ==> |s.queue| <= |s.takersSignalled|
    requires s.puttersWaiting != {} ==> s.capacity - |s.queue| <= |s.puttersSignalled| + 1
    ensures Matched(PutFrom(s, t, x, who))
  {
    assert who in s.takersWaiting ==> |s.takersSignalled + {who}| == |s.takersSignalled| + 1;
  }

  lemma TakeMatched<T>(s: State<T>, t: Tid, who: Tid)
    requires s.puttersWaiting !! s.puttersSignalled
    requires s.puttersWaiting == {} || who in s.puttersWaiting
    requires s.takersWaiting != {} ==> |s.queue| <= |s.takersSignalled| + 1
    requires s.puttersWaiting != {} ==> s.capacity - |s.queue| <= |s.puttersSignalled|
    ensures Matched(TakeFrom(s, t, who))
  {
    assert who in s.puttersWaiting ==> |s.puttersSignalled + {who}| == |s.puttersSignalled| + 1;
  }

  lemma PutAgainMatched<T>(s: State<T>, t: Tid, who: Tid)
    requires Separate(s) && Matched(s) && Picks(s, PutAgain(t, who))
    ensures Matched(Next(s, PutAgain(t, who)))
  {
    hide PutFrom, Separate;
    assert s.takersWaiting !! s.takersSignalled by { Apart(s); }
    if t in s.offer && t in s.puttersSignalled {
      PutMatched(s.(puttersSignalled := s.puttersSignalled - {t}), t, s.offer[t], who);
    } else if t in s.offer && t in s.puttersSpurious {
      PutMatched(s.(puttersSpurious := s.puttersSpurious - {t}), t, s.offer[t], who);
    }
  }

  lemma TakeAgainMatched<T>(s: State<T>, t: Tid, who: Tid)
    requires Separate(s) && Matched(s) && Picks(s, TakeAgain(t, who))
    ensures Matched(Next(s, TakeAgain(t, who)))
  {
    hide TakeFrom, Separate;
    assert s.puttersWaiting !! s.puttersSignalled by { Apart(s); }
    if t in s.takersSignalled {
      TakeMatched(s.(takersSignalled := s.takersSignalled - {t}), t, who);
    } else if t in s.takersSpurious {
      TakeMatched(s.(takersSpurious := s.takersSpurious - {t}), t, who);
    }
  }

  lemma Apart<T>(s: State<T>)
    requires Separate(s)
    ensures s.takersWaiting !! s.takersSignalled && s.puttersWaiting !! s.puttersSignalled
  {
  }

  lemma MatchedStep<T>(s: State<T>, a: Action<T>)
    requires Separate(s) && Matched(s)
    ensures Matched(Next(s, a))
  {
    hide PutFrom, TakeFrom, Separate;
    Apart(s);
    match a {
      case Put(t, x, who) => if Picks(s, a) { PutMatched(s, t, x, who); }
      case Take(t, who) => if Picks(s, a) { TakeMatched(s, t, who); }
      case PutAgain(t, who) => if Picks(s, a) { PutAgainMatched(s, t, who); }
      case TakeAgain(t, who) => if Picks(s, a) { TakeAgainMatched(s, t, who); }
      case Spurious(_) =>
    }
  }

  lemma {:induction false} RunMatched<T>(capacity: nat, actions: seq<Action<T>>)
    ensures Separate(Run(Fresh(capacity), actions)) && Matched(Run(Fresh(capacity), actions))
  {
    if actions != [] {
      var init := actions[..|actions| - 1];
      RunMatched(capacity, init);
      SeparateStep(Run(Fresh(capacity), init), actions[|actions| - 1]);
      MatchedStep(Run(Fresh(capacity), init), actions[|actions| - 1]);
    }
  }

  /** With notify_one only, barging and spurious wakeups: an item never lies in the queue while
      every taker inside take sleeps unsignalled, nor a slot free while every putter does. */
  lemma NobodyForgotten<T>(capacity: nat, actions: seq<Action<T>>)
    ensures var t := Run(Fresh(capacity), actions);
            && (t.queue != [] && t.takersWaiting != {} ==> t.takersSignalled != {})
            && (|t.queue| < capacity && t.puttersWaiting != {} ==> t.puttersSignalled != {})
  {
    RunMatched(capacity, actions);
    TakesInPutOrder(capacity, actions);
  }

  /** Putters and takers never all wait unsignalled together, unless the capacity is zero. */
  lemma NoDeadlock<T>(capacity: nat, actions: seq<Action<T>>)
    ensures var t := Run(Fresh(capacity), actions);
            (t.takersWaiting != {} && t.takersSignalled == {} && t.puttersWaiting != {} && t.puttersSignalled == {})
            ==> capacity == 0
  {
    NobodyForgotten(capacity, actions);
    TakesInPutOrder(capacity, actions);
  }

  /** Putters and takers all sleep, and nobody is on the way. */
  ghost predicate AllAsleep<T>(s: State<T>) {
    && s.takersWaiting != {} && s.takersSignalled == {} && s.takersSpurious == {}
    && s.puttersWaiting != {} && s.puttersSignalled == {} && s.puttersSpurious == {}
  }

  ghost predicate Deadlocks<T>(capacity: nat, actions: seq<Action<T>>) {
    AllAsleep(Run(Fresh(capacity), actions))
  }

  /** They can all end up asleep exactly when the capacity is zero. */
  lemma DeadlockExactly<T>(capacity: nat, x: T)
    ensures (exists actions: seq<Action<T>> :: Deadlocks(capacity, actions)) <==> capacity == 0
  {
    forall actions: seq<Action<T>> | Deadlocks(capacity, actions) ensures capacity == 0 {
      NoDeadlock(capacity, actions);
    }
    if capacity == 0 {
      var sleep := FirstTwoSleep(x);
    }
  }

  /** The shortest deadlock: one taker, one putter, no room. */
  lemma FirstTwoSleep<T>(x: T) returns (actions: seq<Action<T>>)
    ensures actions == [Take(0, 0), Put(1, x, 0)] && Deadlocks(0, actions)
  {
    actions := [Take(0, 0)];
    RunLast(Fresh<T>(0), [], Take(0, 0));
    assert [] + actions == actions;
    RunLast(Fresh<T>(0), actions, Put(1, x, 0));
    actions := actions + [Put(1, x, 0)];
  }

  /** Nothing shorter leaves everybody asleep: a single call leaves one side outside. */
  lemma OneIsNotEnough<T>(capacity: nat, actions: seq<Action<T>>)
    requires |actions| <= 1
    ensures !Deadlocks(capacity, actions)
  {
    hide Run;
    RunLast(Fresh<T>(capacity), [], if actions == [] then Spurious(0) else actions[0]);
    assert actions == [] || actions == [] + [actions[0]];
  }

  /** With capacity zero every putter and every taker waits for ever: in no run is anything put
      or taken, and who is inside stays inside. */
  lemma {:induction false} NothingMoves<T>(actions: seq<Action<T>>)
    ensures Run(Fresh(0), actions).put == [] && Run(Fresh(0), actions).taken == []
  {
    if actions != [] {
      var init := actions[..|actions| - 1];
      NothingMoves(init);
      TakesInPutOrder(0, init);
    }
  }

  lemma NobodyLeaves<T>(actions: seq<Action<T>>, a: Action<T>, t: Tid)
    ensures PutterInside(Run(Fresh(0), actions), t) ==> PutterInside(Run(Fresh(0), actions + [a]), t)
    ensures TakerInside(Run(Fresh(0), actions), t) ==> TakerInside(Run(Fresh(0), actions + [a]), t)
  {
    NothingMoves(actions);
    TakesInPutOrder(0, actions);
    RunLast(Fresh(0), actions, a);
  }

  // ---- The source's two methods ----

  lemma {:induction false} RunAppend<T>(s: State<T>, a: seq<Action<T>>, b: seq<Action<T>>)
    ensures Run(s, a + b) == Run(Run(s, a), b)
  {
    hide Next;
    if b == [] {
      assert a + b == a;
    } else {
      RunAppend(s, a, b[..|b| - 1]);
      assert (a + b)[..|a + b| - 1] == a + b[..|b| - 1];
    }
  }

  lemma RunLast<T>(s: State<T>, actions: seq<Action<T>>, a: Action<T>)
    ensures Run(s, []) == s
    ensures Run(s, actions + [a]) == Next(Run(s, actions), a)
  {
    assert (actions + [a])[..|actions|] == actions;
  }

  /** A step that thread `t` does not make itself; its wait may still end. */
  predicate NotBy<T>(a: Action<T>, t: Tid) {
    match a
    case Put(u, _, _) => u != t
    case PutAgain(u, _) => u != t
    case Take(u, _) => u != t
    case TakeAgain(u, _) => u != t
    case Spurious(_) => true
  }

  predicate PutterInside<T>(s: State<T>, t: Tid) {
    t in s.puttersWaiting || t in s.puttersSignalled || t in s.puttersSpurious
  }

  predicate TakerInside<T>(s: State<T>, t: Tid) {
    t in s.takersWaiting || t in s.takersSignalled || t in s.takersSpurious
  }

  lemma OthersStep<T>(s: State<T>, a: Action<T>, t: Tid)
    requires NotBy(a, t)
    ensures PutterInside(s, t) ==> PutterInside(Next(s, a), t)
    ensures TakerInside(s, t) ==> TakerInside(Next(s, a), t)
    ensures PutterInside(s, t) && t in s.offer ==> t in Next(s, a).offer && Next(s, a).offer[t] == s.offer[t]
  {
  }

  lemma {:induction false} OthersKeep<T>(s: State<T>, others: seq<Action<T>>, t: Tid)
    requires forall a :: a in others ==> NotBy(a, t)
    ensures PutterInside(s, t) ==> PutterInside(Run(s, others), t)
    ensures TakerInside(s, t) ==> TakerInside(Run(s, others), t)
    ensures PutterInside(s, t) && t in s.offer ==> t in Run(s, others).offer && Run(s, others).offer[t] == s.offer[t]
  {
    hide Next, PutterInside, TakerInside;
    if others != [] {
      OthersKeep(s, others[..|others| - 1], t);
      OthersStep(Run(s, others[..|others| - 1]), others[|others| - 1], t);
    }
  }

  class BoundedBlockingQueue<T> {
    var m: State<T>        // everything the mutex protects, and who waits

    constructor (maxSize: nat)
      ensures m == Fresh(maxSize)
    {
      m := Fresh(maxSize);
    }

    /** notify(): any one of the waiters, if there is one. */
    method AnyOf(waiting: set<Tid>) returns (who: Tid)
      ensures waiting == {} || who in waiting
    {
      who := 0;
      if waiting != {} {
        who :| who in waiting;
      }
    }

    /** put by thread `t`.  `waits[k]` is what the other threads do during its k-th wait; `done` is
        false when nobody has woken it by then.  It returns only with the item appended. */
    method Put(t: Tid, x: T, waits: seq<seq<Action<T>>>) returns (done: bool, ghost actions: seq<Action<T>>)
      requires Outside(m, t) && forall others, a :: others in waits && a in others ==> NotBy(a, t)
      modifies this
      ensures m == Run(old(m), actions)
      ensures if done then m.put != [] && m.put[|m.put| - 1] == x else PutterInside(m, t)
      ensures waits == [] ==> (done <==> |old(m).queue| < old(m).capacity)
    {
      hide Next, Run, PutFrom, TakeFrom;
      var who := AnyOf(m.takersWaiting);
      actions := [Action.Put(t, x, who)];
      FirstPut(m, t, x, who);
      var k := 0;
      while |m.queue| >= m.capacity
        invariant k <= |waits| && (k == 0 ==> m == old(m))
        invariant m.takersWaiting == {} || who in m.takersWaiting
        invariant Run(old(m), actions) == PutFrom(m, t, x, who)
        decreases |waits| - k
      {
        Blocked(m, t, x, who);
        m := m.(puttersWaiting := m.puttersWaiting + {t}, offer := m.offer[t := x]);      // notFull_.wait()
        if k == |waits| {
          return false, actions;
        }
        assert waits[k] in waits;
        OthersKeep(m, waits[k], t);
        RunAppend(old(m), actions, waits[k]);
        m := Run(m, waits[k]);
        actions := actions + waits[k];
        if t !in m.puttersSignalled && t !in m.puttersSpurious {
          return false, actions;
        }
        who := AnyOf(m.takersWaiting);
        RunLast(old(m), actions, PutAgain(t, who));
        Woken(m, t, who);
        if t in m.puttersSignalled {
          m := m.(puttersSignalled := m.puttersSignalled - {t});
        } else {
          m := m.(puttersSpurious := m.puttersSpurious - {t});
        }
        actions := actions + [PutAgain(t, who)];
        k := k + 1;
      }
      Appended(m, t, x, who);
      m := m.(queue := m.queue + [x], put := m.put + [x]);
      m := NotifyNotEmpty(m, who);
      done := true;
    }

    /** take by thread `t`; `front` has the item when `done`.  It returns only with the item that
        was at the front. */
    method Take(t: Tid, waits: seq<seq<Action<T>>>) returns (done: bool, front: seq<T>, ghost actions: seq<Action<T>>)
      requires Outside(m, t) && forall others, a :: others in waits && a in others ==> NotBy(a, t)
      modifies this
      ensures m == Run(old(m), actions)
      ensures if done then |front| == 1 && m.taken != [] && m.taken[|m.taken| - 1] == front[0] else TakerInside(m, t)
      ensures waits == [] ==> (done <==> old(m).queue != [])
      ensures done && waits == [] ==> front[0] == old(m).queue[0]
    {
      hide Next, Run, PutFrom, TakeFrom;
      var who := AnyOf(m.puttersWaiting);
      actions := [Action.Take(t, who)];
      FirstTake(m, t, who);
      var k := 0;
      while m.queue == []
        invariant k <= |waits| && (k == 0 ==> m == old(m))
        invariant m.puttersWaiting == {} || who in m.puttersWaiting
        invariant Run(old(m), actions) == TakeFrom(m, t, who)
        decreases |waits| - k
      {
        Starved(m, t, who);
        m := m.(takersWaiting := m.takersWaiting + {t});                                  // notEmpty_.wait()
        if k == |waits| {
          return false, [], actions;
        }
        assert waits[k] in waits;
        OthersKeep(m, waits[k], t);
        RunAppend(old(m), actions, waits[k]);
        m := Run(m, waits[k]);
        actions := actions + waits[k];
        if t !in m.takersSignalled && t !in m.takersSpurious {
          return false, [], actions;
        }
        who := AnyOf(m.puttersWaiting);
        RunLast(old(m), actions, TakeAgain(t, who));
        WokenTaker(m, t, who);
        if t in m.takersSignalled {
          m := m.(takersSignalled := m.takersSignalled - {t});
        } else {
          m := m.(takersSpurious := m.takersSpurious - {t});
        }
        actions := actions + [TakeAgain(t, who)];
        k := k + 1;
      }
      Removed(m, t, who);
      front := [m.queue[0]];
      m := m.(queue := m.queue[1..], taken := m.taken + front);
      m := NotifyNotFull(m, who);
      done := true;
    }
  }

  lemma FirstTake<T>(s: State<T>, t: Tid, who: Tid)
    requires Outside(s, t) && (s.puttersWaiting == {} || who in s.puttersWaiting)
    ensures Run(s, [Take(t, who)]) == TakeFrom(s, t, who)
  {
    hide TakeFrom;
    var first: seq<Action<T>> := [Take(t, who)];
    RunLast(s, [], Take(t, who));
    assert [] + first == first;
  }

  lemma Starved<T>(s: State<T>, t: Tid, who: Tid)
    requires s.queue == []
    ensures TakeFrom(s, t, who) == s.(takersWaiting := s.takersWaiting + {t})
  {
  }

  lemma Removed<T>(s: State<T>, t: Tid, who: Tid)
    requires s.queue != []
    ensures TakeFrom(s, t, who) == NotifyNotFull(s.(queue := s.queue[1..], taken := s.taken + [s.queue[0]]), who)
  {
  }

  lemma WokenTaker<T>(s: State<T>, t: Tid, who: Tid)
    requires t in s.takersSignalled || t in s.takersSpurious
    requires s.puttersWaiting == {} || who in s.puttersWaiting
    ensures Next(s, TakeAgain(t, who)) ==
            TakeFrom(if t in s.takersSignalled then s.(takersSignalled := s.takersSignalled - {t})
                     else s.(takersSpurious := s.takersSpurious - {t}), t, who)
  {
    hide TakeFrom;
  }

  lemma FirstPut<T>(s: State<T>, t: Tid, x: T, who: Tid)
    requires Outside(s, t) && (s.takersWaiting == {} || who in s.takersWaiting)
    ensures Run(s, [Put(t, x, who)]) == PutFrom(s, t, x, who)
  {
    hide PutFrom;
    var first := [Put(t, x, who)];
    RunLast(s, [], Put(t, x, who));
    assert [] + first == first;
  }

  lemma Blocked<T>(s: State<T>, t: Tid, x: T, who: Tid)
    requires |s.queue| >= s.capacity
    ensures PutFrom(s, t, x, who) == s.(puttersWaiting := s.puttersWaiting + {t}, offer := s.offer[t := x])
  {
  }

  lemma Appended<T>(s: State<T>, t: Tid, x: T, who: Tid)
    requires |s.queue| < s.capacity
    ensures PutFrom(s, t, x, who) == NotifyNotEmpty(s.(queue := s.queue + [x], put := s.put + [x]), who)
  {
  }

  lemma Woken<T>(s: State<T>, t: Tid, who: Tid)
    requires t in s.offer && (t in s.puttersSignalled || t in s.puttersSpurious)
    requires s.takersWaiting == {} || who in s.takersWaiting
    ensures Next(s, PutAgain(t, who)) ==
            PutFrom(if t in s.puttersSignalled then s.(puttersSignalled := s.puttersSignalled - {t})
                    else s.(puttersSpurious := s.puttersSpurious - {t}), t, s.offer[t], who)
  {
    hide PutFrom;
  }
}
