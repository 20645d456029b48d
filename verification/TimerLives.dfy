/** What requests to the timer queue come to, on values: the actions they are, the states they lead to, and
    what a user who makes a timer can rely on over the whole life of the queue. */
module TimerLives {
  import opened TimerSpec
  import opened TimerStore

  /** What a callback, or another thread while a callback runs, may do to the queue.
      `clock` is what Timestamp::now() returns when the timerfd has to be set. */
  datatype Request =
    | NewTimer(timer: Addr, alarm: Alarm)
    | AddTimerInLoop(id: TimerId, clock: int)
    | CancelInLoop(id: TimerId)

  /** One step of the event loop that concerns the queue. */
  datatype Step =
    | Use(request: Request)
    | Wake(now: int, consumed: bool, scripts: seq<seq<Request>>, clock: int)

  ghost predicate Distinct<T>(s: seq<T>) {
    forall i, j :: 0 <= i < j < |s| ==> s[i] != s[j]
  }

  /** The callbacks of a batch: each due alarm exactly once, earliest expiration first. */
  ghost predicate IsBatchOrder(fired: seq<nat>, s: Schedule, now: int) {
    && Distinct(fired)
    && (forall n :: n in fired <==> n in Due(s, now))
    && (forall i, j :: 0 <= i < j < |fired| && fired[i] in s.alarms && fired[j] in s.alarms ==>
         s.alarms[fired[i]].when <= s.alarms[fired[j]].when)
  }

  // ---- What requests come to ----

  /** The action a request is; one that nobody can make is the cancel of the default handle. */
  function ActionOf(s: Store, request: Request): Action {
    match request
    case NewTimer(timer, alarm) => if timer !in s.heap then Create(alarm) else Cancel(0)
    case AddTimerInLoop(id, _) => if id in s.unlinked then Insert(id.sequence) else Cancel(0)
    case CancelInLoop(id) => if s.Issued(id) then Cancel(id.sequence) else Cancel(0)
  }

  function Performed(s: Store, request: Request): Store {
    match request
    case NewTimer(timer, alarm) => if timer !in s.heap then AfterNew(s, timer, alarm) else s
    case AddTimerInLoop(id, _) => if id in s.unlinked && id.timer in s.heap then AfterInsert(s, id.timer) else s
    case CancelInLoop(id) =>
      if !s.Issued(id) then s
      else if id in s.active && id.timer in s.heap then AfterErase(s, id.timer)
      else AfterMiss(s, id)
  }

  function PerformedAll(s: Store, script: seq<Request>): Store {
    if script == [] then s else Performed(PerformedAll(s, script[..|script| - 1]), script[|script| - 1])
  }

  function ActionsOf(s: Store, script: seq<Request>): seq<Action> {
    if script == [] then []
    else
      var init := script[..|script| - 1];
      ActionsOf(s, init) + [ActionOf(PerformedAll(s, init), script[|script| - 1])]
  }

  lemma {:induction false} PerformInTwo(s: Store, a: seq<Request>, b: seq<Request>)
    ensures PerformedAll(s, a + b) == PerformedAll(PerformedAll(s, a), b)
    ensures ActionsOf(s, a + b) == ActionsOf(s, a) + ActionsOf(PerformedAll(s, a), b)
  {
    hide Performed, ActionOf;
    if b == [] {
      assert a + b == a && ActionsOf(s, a) + [] == ActionsOf(s, a);
    } else {
      PerformInTwo(s, a, b[..|b| - 1]);
      assert (a + b)[..|a + b| - 1] == a + b[..|b| - 1];
    }
  }

  /** What happens during the first n callbacks of a batch. */
  function Flat(scripts: seq<seq<Request>>, n: nat): seq<Request> {
    if n == 0 then [] else Flat(scripts, n - 1) + (if n <= |scripts| then scripts[n - 1] else [])
  }

  lemma FlatNext(scripts: seq<seq<Request>>, i: nat)
    ensures Flat(scripts, i + 1) == Flat(scripts, i) + (if i < |scripts| then scripts[i] else [])
  {
  }

  lemma RunNothing(s: Store, a: Schedule, scripts: seq<seq<Request>>)
    ensures Flat(scripts, 0) == [] && PerformedAll(s, []) == s && ActionsOf(s, []) == [] && ActAll(a, []) == a
  {
  }

  /** handleRead, when the first callback is about to run. */
  function Begun(s: Store, now: int): Store {
    AfterTake(s, now).(calling := true, canceling := {})
  }

  ghost predicate Stands(s: Store, a: Schedule) {
    s.Valid() && s.Abs() == a
  }

  predicate Repeats(s: Schedule, n: nat) {
    n in s.alarms && s.alarms[n].repeat
  }

  /** A step makes this event, and runs these callbacks. */
  ghost predicate Happens(s: Store, step: Step, ev: Event, fired: seq<nat>) {
    match step
    case Use(request) => ev == Call(ActionOf(s, request)) && fired == []
    case Wake(now, _, scripts, _) =>
      && ev == Batch(now, ActionsOf(Begun(s, now), Flat(scripts, |fired|)))
      && s.OwnersOk() && IsBatchOrder(fired, s.Abs(), now)
  }

  /** The addresses handed out, as the step leaves them. */
  function MadeBy(s: Store, step: Step, fired: seq<nat>): map<nat, Addr> {
    match step
    case Use(request) => Performed(s, request).made
    case Wake(now, _, scripts, _) => PerformedAll(Begun(s, now), Flat(scripts, |fired|)).made
  }

  /** Step i makes event i, runs these callbacks, and leaves the queue in the next state. */
  ghost predicate StepLived(steps: seq<Step>, evs: seq<Event>, fired: seq<seq<nat>>, stores: seq<Store>, i: nat)
    requires i < |evs| == |fired| <= |steps| && |stores| == |evs| + 1
  {
    Happens(stores[i], steps[i], evs[i], fired[i]) && stores[i + 1].made == MadeBy(stores[i], steps[i], fired[i])
  }

  /** Before event i the queue is where the schedule is. */
  ghost predicate StoreLived(a: Schedule, evs: seq<Event>, stores: seq<Store>, i: nat)
    requires i <= |evs| && |stores| == |evs| + 1
  {
    Stands(stores[i], TimerSpec.Run(a, evs[..i]))
  }

  /** The first steps of a life that began in state `s`, standing for schedule `a`. */
  ghost predicate Lives(s: Store, a: Schedule, steps: seq<Step>, evs: seq<Event>, fired: seq<seq<nat>>,
                        stores: seq<Store>)
  {
    && |evs| == |fired| <= |steps| && |stores| == |evs| + 1 && stores[0] == s
    && (forall i :: 0 <= i < |evs| ==> StepLived(steps, evs, fired, stores, i))
    && (forall i :: 0 <= i <= |evs| ==> StoreLived(a, evs, stores, i))
  }

  lemma LivesOn(s: Store, a: Schedule, steps: seq<Step>, evs: seq<Event>, fired: seq<seq<nat>>, stores: seq<Store>,
                ev: Event, ran: seq<nat>, next: Store)
    requires Lives(s, a, steps, evs, fired, stores) && |evs| < |steps|
    ensures Happens(stores[|evs|], steps[|evs|], ev, ran) && next.made == MadeBy(stores[|evs|], steps[|evs|], ran) &&
            Stands(next, Do(TimerSpec.Run(a, evs), ev)) ==>
              Lives(s, a, steps, evs + [ev], fired + [ran], stores + [next])
  {
    hide Happens, MadeBy, Stands, TimerSpec.Run;
    var longer := evs + [ev];
    if Happens(stores[|evs|], steps[|evs|], ev, ran) && next.made == MadeBy(stores[|evs|], steps[|evs|], ran) &&
       Stands(next, Do(TimerSpec.Run(a, evs), ev)) {
      forall i | 0 <= i < |evs| + 1 ensures StepLived(steps, longer, fired + [ran], stores + [next], i) {
        assert i < |evs| ==> StepLived(steps, evs, fired, stores, i);
      }
      forall i | 0 <= i <= |evs| + 1 ensures StoreLived(a, longer, stores + [next], i) {
        if i <= |evs| {
          assert StoreLived(a, evs, stores, i) && longer[..i] == evs[..i];
        } else {
          RunLonger(a, evs, ev);
          assert longer[..i] == longer;
        }
      }
    }
  }

  lemma RunLonger(a: Schedule, evs: seq<Event>, ev: Event)
    ensures TimerSpec.Run(a, evs + [ev]) == Do(TimerSpec.Run(a, evs), ev)
  {
    assert (evs + [ev])[..|evs|] == evs;
  }

  lemma NothingLived(s: Store, steps: seq<Step>)
    requires s.Valid()
    ensures Lives(s, s.Abs(), steps, [], [], [s])
  {
    hide Store.MadeOk, Store.OwnersOk, Store.IndexesOk, Store.Abs;
  }

  lemma IdleIsQuiet(s: Store)
    requires s.Valid() && !s.calling && s.inFlight == {}
    ensures Quiet(s.Abs())
  {
    forall n | n in s.Abs().created ensures n !in s.Abs().alarms {
      assert s.Has(s.unlinked, n);
    }
  }

  /** A step runs exactly the callbacks of the schedule's event, so what is true of every run of
      the schedule is true of what the queue runs. */
  lemma FiredIsScheduled(s: Store, steps: seq<Step>, evs: seq<Event>, fired: seq<seq<nat>>, stores: seq<Store>)
    requires s.Valid() && !s.calling && s.inFlight == {}
    requires |evs| == |fired| == |steps| && Lives(s, s.Abs(), steps, evs, fired, stores)
    ensures forall i, n :: 0 <= i < |steps| ==> (n in fired[i] <==> FiresAt(s.Abs(), evs, i, n))
    ensures forall i, j, n :: 0 <= i < j < |steps| && n in fired[i] && n in fired[j] ==>
              Repeats(TimerSpec.Run(s.Abs(), evs[..i]), n)
  {
    hide Store.MadeOk, Store.OwnersOk, Store.IndexesOk, Store.Abs, TimerSpec.Run, Quiet, ActionOf, ActionsOf;
    IdleIsQuiet(s);
    forall i, n | 0 <= i < |steps| ensures n in fired[i] <==> FiresAt(s.Abs(), evs, i, n) {
      assert StepLived(steps, evs, fired, stores, i) && StoreLived(s.Abs(), evs, stores, i);
    }
    forall i, j, n | 0 <= i < j < |steps| && n in fired[i] && n in fired[j]
      ensures Repeats(TimerSpec.Run(s.Abs(), evs[..i]), n)
    {
      assert FiresAt(s.Abs(), evs, i, n) && FiresAt(s.Abs(), evs, j, n);
      if !Repeats(TimerSpec.Run(s.Abs(), evs[..i]), n) { OneShotFiresOnce(s.Abs(), evs, i, j, n); }
    }
  }

  // ---- What a user of the queue can rely on ----

  /** The requests of a step, in order. */
  function Requests(step: Step, fired: seq<nat>): seq<Request> {
    match step
    case Use(request) => [request]
    case Wake(_, _, scripts, _) => Flat(scripts, |fired|)
  }

  function StartStore(s: Store, step: Step): Store {
    match step
    case Use(_) => s
    case Wake(now, _, _, _) => Begun(s, now)
  }

  /** The queue when the k-th request of the step is about to be performed. */
  function StoreAt(s: Store, step: Step, fired: seq<nat>, k: nat): Store
    requires k <= |Requests(step, fired)|
  {
    PerformedAll(StartStore(s, step), Requests(step, fired)[..k])
  }

  /** Request k of step i is this one. */
  predicate AsksAt(steps: seq<Step>, fired: seq<seq<nat>>, i: nat, k: nat, request: Request) {
    i < |steps| && i < |fired| && k < |Requests(steps[i], fired[i])| && Requests(steps[i], fired[i])[k] == request
  }

  predicate AddsAt(steps: seq<Step>, fired: seq<seq<nat>>, i: nat, k: nat, n: nat) {
    && i < |steps| && i < |fired| && k < |Requests(steps[i], fired[i])|
    && var r := Requests(steps[i], fired[i])[k]; r.AddTimerInLoop? && r.id.sequence == n
  }

  predicate CancelsAt(steps: seq<Step>, fired: seq<seq<nat>>, i: nat, k: nat, n: nat) {
    && i < |steps| && i < |fired| && k < |Requests(steps[i], fired[i])|
    && var r := Requests(steps[i], fired[i])[k]; r.CancelInLoop? && r.id.sequence == n
  }

  /** addTimer: request cp of step p allocates the timer, at an address that is free, and request cq of
      step q is its addTimerInLoop. */
  ghost predicate Adds(steps: seq<Step>, fired: seq<seq<nat>>, stores: seq<Store>, p: nat, cp: nat, q: nat, cq: nat,
                       id: TimerId, a: Alarm, clock: int)
  {
    && AsksAt(steps, fired, p, cp, NewTimer(id.timer, a)) && p < |stores|
    && id.timer !in StoreAt(stores[p], steps[p], fired[p], cp).heap
    && id.sequence == StoreAt(stores[p], steps[p], fired[p], cp).issued + 1
    && Before(p, cp, q, cq) && AsksAt(steps, fired, q, cq, AddTimerInLoop(id, clock))
    && (forall i, k | Before(i, k, q, cq) :: !AddsAt(steps, fired, i, k, id.sequence))
  }

  /** After its addTimerInLoop the timer is not cancelled before step j. */
  ghost predicate LeftAlone(steps: seq<Step>, fired: seq<seq<nat>>, q: nat, cq: nat, j: nat, n: nat) {
    forall i: nat, k: nat | Before(q, cq, i, k) && i < j :: !CancelsAt(steps, fired, i, k, n)
  }

  /** Step j is the first timerfd event after step q at or past this time. */
  predicate FirstWake(steps: seq<Step>, q: nat, j: nat, when: int) {
    && q < j < |steps| && steps[j].Wake? && when <= steps[j].now
    && forall i :: q < i < j && steps[i].Wake? ==> steps[i].now < when
  }

  ghost predicate Grown(made: map<nat, Addr>, more: map<nat, Addr>) {
    forall n :: n in made ==> n in more && more[n] == made[n]
  }

  lemma PerformedStands(s: Store, request: Request)
    requires s.Valid()
    ensures Stands(Performed(s, request), Act(s.Abs(), ActionOf(s, request)))
    ensures Grown(s.made, Performed(s, request).made)
  {
    hide Store.Abs, Store.OwnersOk, Store.IndexesOk, Act;
    CancelNothing(s);
    AllOwned(s);
    match request {
      case NewTimer(timer, alarm) =>
        if timer !in s.heap { NewOk(s, timer, alarm); }
      case AddTimerInLoop(id, _) =>
        if id in s.unlinked {
          Owned(s, id);
          NotBoth(s, id);
          InsertOk(s, id.timer);
        }
      case CancelInLoop(id) =>
        if s.Issued(id) {
          if id in s.active { EraseOk(s, id); } else { MissOk(s, id); }
        }
    }
  }

  lemma NotBoth(s: Store, id: TimerId)
    requires s.Valid() && id in s.unlinked
    ensures id !in s.active
  {
  }

  /** A script of requests leads where its actions lead. */
  lemma {:induction false} ScriptStands(s: Store, script: seq<Request>)
    requires s.Valid()
    ensures Stands(PerformedAll(s, script), ActAll(s.Abs(), ActionsOf(s, script)))
    ensures |ActionsOf(s, script)| == |script| && Grown(s.made, PerformedAll(s, script).made)
  {
    hide Store.Valid, Store.Abs, Store.OwnersOk, Performed, ActionOf, Act;
    ValidOwned(s);
    if script != [] {
      var init, last := script[..|script| - 1], script[|script| - 1];
      ScriptStands(s, init);
      PerformedStands(PerformedAll(s, init), last);
      var actions, action := ActionsOf(s, init), ActionOf(PerformedAll(s, init), last);
      assert (actions + [action])[..|actions|] == actions;
    }
  }

  lemma ValidOwned(s: Store)
    requires s.Valid()
    ensures s.OwnersOk()
  {
  }

  lemma ActionsOfPrefix(s: Store, script: seq<Request>, k: nat)
    requires s.Valid() && k <= |script|
    ensures |ActionsOf(s, script)| == |script| && ActionsOf(s, script[..k]) == ActionsOf(s, script)[..k]
  {
    hide Store.Valid, Store.Abs, Performed, ActionOf, ActionsOf, PerformedAll, ActAll;
    ScriptStands(s, script);
    ScriptStands(s, script[..k]);
    PerformInTwo(s, script[..k], script[k..]);
    assert script[..k] + script[k..] == script;
  }

  lemma ActionsOfAt(s: Store, script: seq<Request>, k: nat)
    requires s.Valid() && k < |script|
    ensures |ActionsOf(s, script)| == |script|
    ensures ActionsOf(s, script)[k] == ActionOf(PerformedAll(s, script[..k]), script[k])
  {
    hide Store.Valid, Store.Abs, Performed, ActionOf, ActAll, PerformedAll;
    ActionsOfPrefix(s, script, k + 1);
    ActionsOfPrefix(s, script[..k + 1], k);
    assert script[..k + 1][..k] == script[..k];
  }

  lemma QuietIsIdle(s: Store)
    requires s.Valid() && Quiet(s.Abs())
    ensures !s.calling && s.inFlight == {}
  {
    if id :| id in s.inFlight { InFlightFires(s, id); }
  }

  lemma InFlightFires(s: Store, id: TimerId)
    requires s.Valid() && id in s.inFlight
    ensures id.sequence in s.Abs().firing
  {
    assert s.Live(id) && s.Has(s.inFlight, id.sequence);
  }

  lemma StartStands(s: Store, step: Step, ev: Event, fired: seq<nat>)
    requires s.Valid() && Quiet(s.Abs()) && Happens(s, step, ev, fired)
    ensures Stands(StartStore(s, step), Start(s.Abs(), ev))
    ensures Calls(ev) == ActionsOf(StartStore(s, step), Requests(step, fired))
    ensures Grown(s.made, StartStore(s, step).made)
  {
    hide Store.Valid, Store.Abs, ActionOf, IsBatchOrder, Quiet, Begin;
    QuietIsIdle(s);
    match step {
      case Use(request) =>
        assert [request][..0] == [] && PerformedAll(s, []) == s && ActionsOf(s, []) == [];
      case Wake(now, _, _, _) =>
        TakeOk(s, now);
    }
  }

  /** Inside a step, too, the queue is where the schedule is. */
  lemma StoreStands(s: Store, a: Schedule, steps: seq<Step>, evs: seq<Event>, fired: seq<seq<nat>>, stores: seq<Store>,
                    i: nat, k: nat)
    requires Lives(s, a, steps, evs, fired, stores) && Quiet(a) && i < |evs| && k <= |Requests(steps[i], fired[i])|
    ensures |Calls(evs[i])| == |Requests(steps[i], fired[i])|
    ensures Stands(StoreAt(stores[i], steps[i], fired[i], k), At(a, evs, i, k))
    ensures Grown(stores[i].made, StoreAt(stores[i], steps[i], fired[i], k).made)
    ensures k < |Calls(evs[i])| ==>
              Calls(evs[i])[k] == ActionOf(StoreAt(stores[i], steps[i], fired[i], k), Requests(steps[i], fired[i])[k])
  {
    hide Store.Valid, Store.Abs, Happens, MadeBy, TimerSpec.Run, Start, Calls, ActionOf, StartStore, PerformedAll,
         ActionsOf, Requests, Quiet, ActAll;
    assert StoreLived(a, evs, stores, i) && StepLived(steps, evs, fired, stores, i);
    RunQuiet(a, evs[..i]);
    StartStands(stores[i], steps[i], evs[i], fired[i]);
    var begun, script := StartStore(stores[i], steps[i]), Requests(steps[i], fired[i]);
    ActionsOfPrefix(begun, script, k);
    if k < |script| { ActionsOfAt(begun, script, k); }
    ScriptStands(begun, script[..k]);
  }

  /** From one request to a later one the addresses handed out stay known. */
  lemma {:induction false} MadeStays(s: Store, a: Schedule, steps: seq<Step>, evs: seq<Event>, fired: seq<seq<nat>>,
                                     stores: seq<Store>, p: nat, cp: nat, i: nat, k: nat)
    requires Lives(s, a, steps, evs, fired, stores) && Quiet(a)
    requires p <= i < |evs| && cp <= |Requests(steps[p], fired[p])| && k <= |Requests(steps[i], fired[i])|
    requires p < i || cp <= k
    ensures Grown(StoreAt(stores[p], steps[p], fired[p], cp).made, StoreAt(stores[i], steps[i], fired[i], k).made)
    decreases i
  {
    hide Store.Valid, Store.Abs, Happens, Stands, TimerSpec.Run, Quiet, PerformedAll;
    if i == p {
      StoreStands(s, a, steps, evs, fired, stores, p, cp);
      AtLater(stores[p], steps[p], fired[p], cp, k);
      StandsValid(StoreAt(stores[p], steps[p], fired[p], cp), At(a, evs, p, cp));
      ScriptStands(StoreAt(stores[p], steps[p], fired[p], cp), Requests(steps[p], fired[p])[cp..k]);
    } else {
      var last := |Requests(steps[i - 1], fired[i - 1])|;
      MadeStays(s, a, steps, evs, fired, stores, p, cp, i - 1, last);
      assert StepLived(steps, evs, fired, stores, i - 1);
      MadeAtEnd(stores[i - 1], steps[i - 1], fired[i - 1]);
      StoreStands(s, a, steps, evs, fired, stores, i, k);
    }
  }

  lemma StandsValid(s: Store, a: Schedule)
    requires Stands(s, a)
    ensures s.Valid() && s.Abs() == a
  {
  }

  lemma AtLater(s: Store, step: Step, fired: seq<nat>, k: nat, m: nat)
    requires k <= m <= |Requests(step, fired)|
    ensures StoreAt(s, step, fired, m) == PerformedAll(StoreAt(s, step, fired, k), Requests(step, fired)[k..m])
  {
    hide PerformedAll, ActionsOf, Requests, StartStore;
    PerformInTwo(StartStore(s, step), Requests(step, fired)[..k], Requests(step, fired)[k..m]);
    assert Requests(step, fired)[..k] + Requests(step, fired)[k..m] == Requests(step, fired)[..m];
  }

  lemma MadeAtEnd(s: Store, step: Step, fired: seq<nat>)
    ensures StoreAt(s, step, fired, |Requests(step, fired)|).made == MadeBy(s, step, fired)
  {
    hide Performed, Flat;
    var script := Requests(step, fired);
    assert script[..|script|] == script;
    if step.Use? {
      assert [step.request][..0] == [] && PerformedAll(s, []) == s;
    }
  }

  /** In the events of the steps: the timer is made as asked for, and linked when it is added. */
  lemma AddsSets(s: Store, a: Schedule, steps: seq<Step>, evs: seq<Event>, fired: seq<seq<nat>>, stores: seq<Store>,
                 p: nat, cp: nat, q: nat, cq: nat, id: TimerId, alarm: Alarm, clock: int)
    requires Lives(s, a, steps, evs, fired, stores) && Quiet(a)
    requires Adds(steps, fired, stores, p, cp, q, cq, id, alarm, clock)
    ensures Sets(a, evs, p, cp, q, cq, id.sequence, alarm)
  {
    hide Lives, Store.Valid, Store.Abs, TimerSpec.Run, At, StoreAt, Requests, Calls, Quiet;
    var n := id.sequence;
    SameSize(s, a, steps, evs, fired, stores);
    StoreStands(s, a, steps, evs, fired, stores, p, cp);
    StoreStands(s, a, steps, evs, fired, stores, q, cq);
    IssuedIs(StoreAt(stores[p], steps[p], fired[p], cp), At(a, evs, p, cp));
    forall i: nat, k: nat | Before(i, k, q, cq) ensures !CalledAt(evs, i, k, Insert(n)) {
      if i < |evs| && k < |Calls(evs[i])| {
        StoreStands(s, a, steps, evs, fired, stores, i, 0);
        StoreStands(s, a, steps, evs, fired, stores, i, k);
        assert !AddsAt(steps, fired, i, k, n);
      }
    }
    MadeWaits(a, evs, p, cp, q, cq, n, alarm);
    MadeStays(s, a, steps, evs, fired, stores, p, cp + 1, q, cq);
    MadeAt(stores[p], steps[p], fired[p], cp, id, alarm);
    WaitsUnlinked(StoreAt(stores[q], steps[q], fired[q], cq), At(a, evs, q, cq), id);
  }

  lemma SameSize(s: Store, a: Schedule, steps: seq<Step>, evs: seq<Event>, fired: seq<seq<nat>>, stores: seq<Store>)
    requires Lives(s, a, steps, evs, fired, stores)
    ensures |evs| == |fired| <= |steps| && |stores| == |evs| + 1
  {
    hide Happens, Stands, MadeBy;
  }

  lemma IssuedIs(s: Store, a: Schedule)
    requires Stands(s, a)
    ensures a.issued == s.issued
  {
  }

  lemma MadeAt(s: Store, step: Step, fired: seq<nat>, k: nat, id: TimerId, alarm: Alarm)
    requires k < |Requests(step, fired)| && Requests(step, fired)[k] == NewTimer(id.timer, alarm)
    requires id.timer !in StoreAt(s, step, fired, k).heap && id.sequence == StoreAt(s, step, fired, k).issued + 1
    ensures StoreAt(s, step, fired, k + 1).Known(id)
  {
    hide StartStore, Requests;
    assert Requests(step, fired)[..k + 1][..k] == Requests(step, fired)[..k];
  }

  lemma WaitsUnlinked(s: Store, a: Schedule, id: TimerId)
    requires Stands(s, a) && s.Known(id) && id.sequence in a.created
    ensures id in s.unlinked
  {
  }

  lemma NotCancelled(s: Store, a: Schedule, steps: seq<Step>, evs: seq<Event>, fired: seq<seq<nat>>, stores: seq<Store>,
                     i: nat, k: nat, n: nat)
    requires Lives(s, a, steps, evs, fired, stores) && Quiet(a) && n > 0
    requires !CancelsAt(steps, fired, i, k, n)
    ensures !CalledAt(evs, i, k, Cancel(n))
  {
    hide Lives, Store.Valid, Store.Abs, TimerSpec.Run, At, StoreAt, Requests, Calls, Quiet;
    SameSize(s, a, steps, evs, fired, stores);
    if i < |evs| && k < |Calls(evs[i])| {
      StoreStands(s, a, steps, evs, fired, stores, i, 0);
      StoreStands(s, a, steps, evs, fired, stores, i, k);
    }
  }

  /** What a user of addTimer gets: a timer made for a time, added and not cancelled after that runs in
      the first timerfd event at or past this time, and in none before. */
  lemma TimerRuns(s: Store, steps: seq<Step>, evs: seq<Event>, fired: seq<seq<nat>>, stores: seq<Store>,
                  p: nat, cp: nat, q: nat, cq: nat, j: nat, id: TimerId, alarm: Alarm, clock: int)
    requires s.Valid() && !s.calling && s.inFlight == {}
    requires |evs| == |fired| == |steps| && Lives(s, s.Abs(), steps, evs, fired, stores)
    requires Adds(steps, fired, stores, p, cp, q, cq, id, alarm, clock)
    requires LeftAlone(steps, fired, q, cq, j, id.sequence) && FirstWake(steps, q, j, alarm.when)
    ensures id.sequence in fired[j]
    ensures forall i :: 0 <= i < j ==> id.sequence !in fired[i]
  {
    hide Lives, Store.MadeOk, Store.OwnersOk, Store.IndexesOk, Store.Abs, TimerSpec.Run, At, StoreAt, Requests, Calls,
         Quiet, FiresAt, Sets;
    IdleIsQuiet(s);
    FiredIsScheduled(s, steps, evs, fired, stores);
    AddsSets(s, s.Abs(), steps, evs, fired, stores, p, cp, q, cq, id, alarm, clock);
    NothingCancelled(s, s.Abs(), steps, evs, fired, stores, q, cq, j, id.sequence);
    WakesAre(s, s.Abs(), steps, evs, fired, stores);
    RunsWhenAsked(s.Abs(), evs, p, cp, q, cq, j, id.sequence, alarm);
    forall i | 0 <= i < j ensures id.sequence !in fired[i] {
      assert !FiresAt(s.Abs(), evs, i, id.sequence);
    }
  }

  /** And a repeating one runs again, every time, in the first timerfd event at or past one interval from
      the event that ran it, and in none between. */
  lemma TimerRunsAgain(s: Store, steps: seq<Step>, evs: seq<Event>, fired: seq<seq<nat>>, stores: seq<Store>,
                       p: nat, cp: nat, q: nat, cq: nat, j: nat, k: nat, id: TimerId, alarm: Alarm, clock: int)
    requires s.Valid() && !s.calling && s.inFlight == {}
    requires |evs| == |fired| == |steps| && Lives(s, s.Abs(), steps, evs, fired, stores)
    requires Adds(steps, fired, stores, p, cp, q, cq, id, alarm, clock) && alarm.repeat
    requires LeftAlone(steps, fired, q, cq, k, id.sequence) && j < |steps| && id.sequence in fired[j]
    requires steps[j].Wake? && FirstWake(steps, j, k, steps[j].now + alarm.delta)
    ensures id.sequence in fired[k]
    ensures forall i :: j < i < k ==> id.sequence !in fired[i]
  {
    hide Lives, Store.MadeOk, Store.OwnersOk, Store.IndexesOk, Store.Abs, TimerSpec.Run, At, StoreAt, Requests, Calls,
         Quiet, FiresAt, Sets;
    var n := id.sequence;
    IdleIsQuiet(s);
    FiredIsScheduled(s, steps, evs, fired, stores);
    AddsSets(s, s.Abs(), steps, evs, fired, stores, p, cp, q, cq, id, alarm, clock);
    WakesAre(s, s.Abs(), steps, evs, fired, stores);
    assert FiresAt(s.Abs(), evs, j, n);
    KeepsKind(s.Abs(), evs, p, cp, q, cq, j, n, alarm);
    NothingCancelled(s, s.Abs(), steps, evs, fired, stores, q, cq, k, n);
    RunsAgain(s.Abs(), evs, j, k, n);
    forall i | j < i < k ensures n !in fired[i] {
      assert !FiresAt(s.Abs(), evs, i, n);
    }
  }

  /** One that does not repeat runs once. */
  lemma TimerRunsOnce(s: Store, steps: seq<Step>, evs: seq<Event>, fired: seq<seq<nat>>, stores: seq<Store>,
                      p: nat, cp: nat, q: nat, cq: nat, j: nat, k: nat, id: TimerId, alarm: Alarm, clock: int)
    requires s.Valid() && !s.calling && s.inFlight == {}
    requires |evs| == |fired| == |steps| && Lives(s, s.Abs(), steps, evs, fired, stores)
    requires Adds(steps, fired, stores, p, cp, q, cq, id, alarm, clock) && !alarm.repeat
    requires j < k < |steps| && id.sequence in fired[j]
    ensures id.sequence !in fired[k]
  {
    hide Lives, Store.MadeOk, Store.OwnersOk, Store.IndexesOk, Store.Abs, TimerSpec.Run, At, StoreAt, Requests, Calls,
         Quiet, FiresAt, Sets;
    IdleIsQuiet(s);
    FiredIsScheduled(s, steps, evs, fired, stores);
    AddsSets(s, s.Abs(), steps, evs, fired, stores, p, cp, q, cq, id, alarm, clock);
    assert FiresAt(s.Abs(), evs, j, id.sequence);
    KeepsKind(s.Abs(), evs, p, cp, q, cq, j, id.sequence, alarm);
  }

  /** And one that is cancelled, by any handle addTimer returned, after its addTimerInLoop or a batch that
      deleted it, runs in no later step. */
  lemma TimerStops(s: Store, steps: seq<Step>, evs: seq<Event>, fired: seq<seq<nat>>, stores: seq<Store>,
                   q: nat, cq: nat, j: nat, id: TimerId)
    requires s.Valid() && !s.calling && s.inFlight == {}
    requires |evs| == |fired| == |steps| && Lives(s, s.Abs(), steps, evs, fired, stores)
    requires Stops(steps, fired, stores, q, cq, id) && q < j < |steps|
    ensures id.sequence !in fired[j]
  {
    hide Lives, Store.MadeOk, Store.OwnersOk, Store.IndexesOk, Store.Abs, TimerSpec.Run, At, StoreAt, Requests, Calls,
         Quiet, FiresAt;
    IdleIsQuiet(s);
    FiredIsScheduled(s, steps, evs, fired, stores);
    SameSize(s, s.Abs(), steps, evs, fired, stores);
    StoreStands(s, s.Abs(), steps, evs, fired, stores, q, cq);
    LinkedIsNotCreated(StoreAt(stores[q], steps[q], fired[q], cq), At(s.Abs(), evs, q, cq), id);
    CancelStops(s.Abs(), evs, q, cq, j, id.sequence);
    assert !FiresAt(s.Abs(), evs, j, id.sequence);
  }

  /** Request cq of step q cancels a timer that is not on its way to addTimerInLoop. */
  ghost predicate Stops(steps: seq<Step>, fired: seq<seq<nat>>, stores: seq<Store>, q: nat, cq: nat, id: TimerId) {
    && AsksAt(steps, fired, q, cq, CancelInLoop(id)) && q < |stores|
    && StoreAt(stores[q], steps[q], fired[q], cq).Known(id)
    && id !in StoreAt(stores[q], steps[q], fired[q], cq).unlinked
  }

  lemma LinkedIsNotCreated(s: Store, a: Schedule, id: TimerId)
    requires Stands(s, a) && s.Known(id) && id !in s.unlinked
    ensures 1 <= id.sequence <= a.issued && id.sequence !in a.created
  {
  }

  /** Every timer runs when its user was told it would: the four lemmas above, for every timer of a life. */
  ghost predicate KeepsTime(steps: seq<Step>, fired: seq<seq<nat>>, stores: seq<Store>)
    requires |fired| == |steps|
  {
    && (forall p: nat, cp: nat, q: nat, cq: nat, j: nat, id, alarm, clock ::
         Adds(steps, fired, stores, p, cp, q, cq, id, alarm, clock) &&
         LeftAlone(steps, fired, q, cq, j, id.sequence) && FirstWake(steps, q, j, alarm.when) ==>
           id.sequence in fired[j] && forall i :: 0 <= i < j ==> id.sequence !in fired[i])
    && (forall p: nat, cp: nat, q: nat, cq: nat, j: nat, k: nat, id, alarm, clock ::
         Adds(steps, fired, stores, p, cp, q, cq, id, alarm, clock) && alarm.repeat &&
         LeftAlone(steps, fired, q, cq, k, id.sequence) && j < |steps| && id.sequence in fired[j] &&
         steps[j].Wake? && FirstWake(steps, j, k, steps[j].now + alarm.delta) ==>
           id.sequence in fired[k] && forall i :: j < i < k ==> id.sequence !in fired[i])
    && (forall p: nat, cp: nat, q: nat, cq: nat, j: nat, k: nat, id, alarm, clock ::
         Adds(steps, fired, stores, p, cp, q, cq, id, alarm, clock) && !alarm.repeat &&
         j < k < |steps| && id.sequence in fired[j] ==>
           id.sequence !in fired[k])
    && (forall q: nat, cq: nat, j: nat, id ::
         Stops(steps, fired, stores, q, cq, id) && q < j < |steps| ==> id.sequence !in fired[j])
  }

  lemma TimeIsKept(s: Store, steps: seq<Step>, evs: seq<Event>, fired: seq<seq<nat>>, stores: seq<Store>)
    requires s.Valid() && !s.calling && s.inFlight == {}
    requires |evs| == |fired| == |steps| && Lives(s, s.Abs(), steps, evs, fired, stores)
    ensures KeepsTime(steps, fired, stores)
  {
    hide Lives, Store.MadeOk, Store.OwnersOk, Store.IndexesOk, Store.Abs, Adds, LeftAlone, FirstWake, Stops;
    forall p: nat, cp: nat, q: nat, cq: nat, j: nat, id, alarm, clock
      | Adds(steps, fired, stores, p, cp, q, cq, id, alarm, clock) &&
        LeftAlone(steps, fired, q, cq, j, id.sequence) && FirstWake(steps, q, j, alarm.when)
      ensures j < |steps| && id.sequence in fired[j] && forall i :: 0 <= i < j ==> id.sequence !in fired[i]
    {
      TimerRuns(s, steps, evs, fired, stores, p, cp, q, cq, j, id, alarm, clock);
      FirstWakeIs(steps, q, j, alarm.when);
    }
    forall p: nat, cp: nat, q: nat, cq: nat, j: nat, k: nat, id, alarm, clock
      | Adds(steps, fired, stores, p, cp, q, cq, id, alarm, clock) && alarm.repeat &&
        LeftAlone(steps, fired, q, cq, k, id.sequence) && j < |steps| && id.sequence in fired[j] &&
        steps[j].Wake? && FirstWake(steps, j, k, steps[j].now + alarm.delta)
      ensures k < |steps| && id.sequence in fired[k] && forall i :: j < i < k ==> id.sequence !in fired[i]
    {
      TimerRunsAgain(s, steps, evs, fired, stores, p, cp, q, cq, j, k, id, alarm, clock);
      FirstWakeIs(steps, j, k, steps[j].now + alarm.delta);
    }
    forall p: nat, cp: nat, q: nat, cq: nat, j: nat, k: nat, id, alarm, clock
      | Adds(steps, fired, stores, p, cp, q, cq, id, alarm, clock) && !alarm.repeat &&
        j < k < |steps| && id.sequence in fired[j]
      ensures id.sequence !in fired[k]
    {
      TimerRunsOnce(s, steps, evs, fired, stores, p, cp, q, cq, j, k, id, alarm, clock);
    }
    forall q: nat, cq: nat, j: nat, id | Stops(steps, fired, stores, q, cq, id) && q < j < |steps|
      ensures id.sequence !in fired[j]
    {
      TimerStops(s, steps, evs, fired, stores, q, cq, j, id);
    }
  }

  lemma FirstWakeIs(steps: seq<Step>, q: nat, j: nat, when: int)
    requires FirstWake(steps, q, j, when)
    ensures q < j < |steps|
  {
  }

  /** No call of the schedule cancels what no request cancels. */
  lemma NothingCancelled(s: Store, a: Schedule, steps: seq<Step>, evs: seq<Event>, fired: seq<seq<nat>>,
                         stores: seq<Store>, q: nat, cq: nat, j: nat, n: nat)
    requires Lives(s, a, steps, evs, fired, stores) && Quiet(a) && n > 0
    requires LeftAlone(steps, fired, q, cq, j, n) && q < j <= |evs|
    ensures forall k | cq < k :: !CalledAt(evs, q, k, Cancel(n))
    ensures forall i :: q < i < j ==> !Cancels(evs[i], n)
  {
    hide Lives, TimerSpec.Run, Quiet;
    forall k: nat | cq < k ensures !CalledAt(evs, q, k, Cancel(n)) {
      NotCancelled(s, a, steps, evs, fired, stores, q, k, n);
    }
    forall i | q < i < j ensures !Cancels(evs[i], n) {
      forall k: nat ensures !CalledAt(evs, i, k, Cancel(n)) {
        NotCancelled(s, a, steps, evs, fired, stores, i, k, n);
      }
      NotAmong(evs, i, 0, |Calls(evs[i])|, Cancel(n));
      assert Calls(evs[i])[0..|Calls(evs[i])|] == Calls(evs[i]);
    }
  }

  lemma WakesAre(s: Store, a: Schedule, steps: seq<Step>, evs: seq<Event>, fired: seq<seq<nat>>, stores: seq<Store>)
    requires Lives(s, a, steps, evs, fired, stores)
    ensures |evs| <= |steps|
    ensures forall i :: 0 <= i < |evs| ==>
              (evs[i].Batch? <==> steps[i].Wake?) && (evs[i].Batch? ==> evs[i].now == steps[i].now)
  {
    hide Stands, MadeBy, ActionOf, ActionsOf, IsBatchOrder;
    forall i | 0 <= i < |evs|
      ensures (evs[i].Batch? <==> steps[i].Wake?) && (evs[i].Batch? ==> evs[i].now == steps[i].now)
    {
      assert StepLived(steps, evs, fired, stores, i);
    }
  }

  lemma {:induction false} NothingFlat(n: nat)
    ensures Flat([], n) == []
  {
    if n > 0 { NothingFlat(n - 1); }
  }

  /** The first timer of a queue, added at once: the laws above apply to it. */
  lemma FirstAdded(steps: seq<Step>, fired: seq<seq<nat>>, stores: seq<Store>, timer: Addr, alarm: Alarm, clock: int)
    requires 2 <= |steps| == |fired| && stores != [] && stores[0].heap == map[] && stores[0].issued == 0
    requires steps[0] == Use(NewTimer(timer, alarm)) && steps[1] == Use(AddTimerInLoop(TimerId(timer, 1), clock))
    requires forall i :: 2 <= i < |steps| ==> steps[i].Wake? && steps[i].scripts == []
    ensures Adds(steps, fired, stores, 0, 0, 1, 0, TimerId(timer, 1), alarm, clock)
    ensures forall j: nat :: LeftAlone(steps, fired, 1, 0, j, 1)
  {
    assert Requests(steps[0], fired[0])[..0] == [];
    assert StoreAt(stores[0], steps[0], fired[0], 0) == stores[0];
    forall i: nat, k: nat ensures !CancelsAt(steps, fired, i, k, 1) {
      if 2 <= i < |steps| { NothingFlat(|fired[i]|); }
    }
  }

  lemma FirstRuns(s: Store, steps: seq<Step>, evs: seq<Event>, fired: seq<seq<nat>>, stores: seq<Store>, timer: Addr,
                  alarm: Alarm, clock: int)
    requires s.Valid() && !s.calling && s.inFlight == {} && s.heap == map[] && s.issued == 0
    requires 3 <= |evs| == |fired| == |steps| && Lives(s, s.Abs(), steps, evs, fired, stores)
    requires steps[0] == Use(NewTimer(timer, alarm)) && steps[1] == Use(AddTimerInLoop(TimerId(timer, 1), clock))
    requires forall i :: 2 <= i < |steps| ==> steps[i].Wake? && steps[i].scripts == []
    requires alarm.when <= steps[2].now
    requires forall i :: 2 < i < |steps| ==> steps[i - 1].now + alarm.delta <= steps[i].now
    ensures 1 in fired[2] && forall i :: 2 < i < |steps| ==> (1 in fired[i] <==> alarm.repeat)
  {
    hide Adds, LeftAlone, Lives, FirstWake, Store.MadeOk, Store.OwnersOk, Store.IndexesOk, Store.Abs;
    LivesFrom(s, s.Abs(), steps, evs, fired, stores);
    FirstAdded(steps, fired, stores, timer, alarm, clock);
    TimeOf(s, steps, evs, fired, stores, TimerId(timer, 1), alarm, clock, 1, 2);
    FirstWakeHere(steps, 1, alarm.when);
    var i := 2;
    while i + 1 < |steps|
      invariant 2 <= i < |steps| && 1 in fired[2]
      invariant forall k :: 2 < k <= i ==> (1 in fired[k] <==> alarm.repeat)
    {
      if alarm.repeat {
        TimeOf(s, steps, evs, fired, stores, TimerId(timer, 1), alarm, clock, i, i + 1);
        FirstWakeHere(steps, i, steps[i].now + alarm.delta);
      } else {
        TimeOf(s, steps, evs, fired, stores, TimerId(timer, 1), alarm, clock, 2, i + 1);
      }
      i := i + 1;
    }
  }

  lemma FirstWakeHere(steps: seq<Step>, i: nat, when: int)
    requires i + 1 < |steps| && steps[i + 1].Wake? && when <= steps[i + 1].now
    ensures FirstWake(steps, i, i + 1, when)
  {
  }

  /** What the laws say of steps j and k of this timer. */
  lemma TimeOf(s: Store, steps: seq<Step>, evs: seq<Event>, fired: seq<seq<nat>>, stores: seq<Store>, id: TimerId,
               alarm: Alarm, clock: int, j: nat, k: nat)
    requires s.Valid() && !s.calling && s.inFlight == {}
    requires |evs| == |fired| == |steps| && Lives(s, s.Abs(), steps, evs, fired, stores) && j < k < |steps|
    requires Adds(steps, fired, stores, 0, 0, 1, 0, id, alarm, clock) && LeftAlone(steps, fired, 1, 0, k, id.sequence)
    ensures j == 1 && FirstWake(steps, 1, k, alarm.when) ==> id.sequence in fired[k]
    ensures alarm.repeat && id.sequence in fired[j] && steps[j].Wake? &&
            FirstWake(steps, j, k, steps[j].now + alarm.delta) ==>
              id.sequence in fired[k]
    ensures !alarm.repeat && id.sequence in fired[j] ==> id.sequence !in fired[k]
  {
    hide Adds, LeftAlone, FirstWake, Lives, Store.MadeOk, Store.OwnersOk, Store.IndexesOk, Store.Abs;
    if j == 1 && FirstWake(steps, 1, k, alarm.when) {
      TimerRuns(s, steps, evs, fired, stores, 0, 0, 1, 0, k, id, alarm, clock);
    }
    if id.sequence in fired[j] && alarm.repeat && steps[j].Wake? && FirstWake(steps, j, k, steps[j].now + alarm.delta) {
      TimerRunsAgain(s, steps, evs, fired, stores, 0, 0, 1, 0, j, k, id, alarm, clock);
    }
    if id.sequence in fired[j] && !alarm.repeat {
      TimerRunsOnce(s, steps, evs, fired, stores, 0, 0, 1, 0, j, k, id, alarm, clock);
    }
  }

  lemma LivesFrom(s: Store, a: Schedule, steps: seq<Step>, evs: seq<Event>, fired: seq<seq<nat>>, stores: seq<Store>)
    requires Lives(s, a, steps, evs, fired, stores)
    ensures stores != [] && stores[0] == s
  {
  }
}
