/** What a timer queue is supposed to do, with no pointers in it: a map from the sequence
    number of a timer to the alarm it stands for.  `TimerQueue` in TimerQueue.dfy, which
    keeps two ordered sets of pointers and a timerfd, is proved to behave like this. */
module TimerSpec {

  /** `delta` is the interval in whole microseconds.  A positive interval below one
      microsecond repeats with `delta == 0`, so the flag is separate. */
  datatype Alarm = Alarm(when: int, repeat: bool, delta: nat)

  datatype Schedule = Schedule(
    created: map<nat, Alarm>,  // constructed, but addTimerInLoop has not run yet
    alarms: map<nat, Alarm>,   // waiting for their time
    firing: map<nat, Alarm>,   // taken out by the batch in progress
    stopping: set<nat>,        // cancelled while a batch is in progress
    inBatch: bool,
    issued: nat)               // the last sequence number handed out

  datatype Action = Create(alarm: Alarm) | Insert(n: nat) | Cancel(n: nat)

  /** A step of the loop: one call from outside a batch, or one whole timerfd event, with
      every call its callbacks (and other threads meanwhile) make, in order. */
  datatype Event = Call(action: Action) | Batch(now: int, actions: seq<Action>)

  function Act(s: Schedule, a: Action): Schedule {
    match a
    case Create(alarm) => s.(created := s.created[s.issued + 1 := alarm], issued := s.issued + 1)
    case Insert(n) =>
      if n in s.created then s.(created := s.created - {n}, alarms := s.alarms[n := s.created[n]]) else s
    case Cancel(n) =>
      if n in s.alarms then s.(alarms := s.alarms - {n})
      else if s.inBatch && 1 <= n <= s.issued then s.(stopping := s.stopping + {n})
      else s
  }

  function ActAll(s: Schedule, actions: seq<Action>): Schedule {
    if actions == [] then s else Act(ActAll(s, actions[..|actions| - 1]), actions[|actions| - 1])
  }

  function Due(s: Schedule, now: int): map<nat, Alarm> {
    map n | n in s.alarms && s.alarms[n].when <= now :: s.alarms[n]
  }

  function Begin(s: Schedule, now: int): Schedule {
    s.(firing := Due(s, now), alarms := s.alarms - Due(s, now).Keys, stopping := {}, inBatch := true)
  }

  predicate Renewable(s: Schedule, n: nat) {
    n in s.firing && s.firing[n].repeat && n !in s.stopping
  }

  function Renewed(a: Alarm, now: int): Alarm {
    a.(when := now + a.delta)
  }

  function Renewals(s: Schedule, now: int): map<nat, Alarm> {
    map n | n in s.firing && Renewable(s, n) :: Renewed(s.firing[n], now)
  }

  /** The end of a batch: repeating alarms that nobody cancelled go back, the rest are gone. */
  function Finish(s: Schedule, now: int): Schedule {
    s.(alarms := s.alarms + Renewals(s, now), firing := map[], inBatch := false)
  }

  function Do(s: Schedule, ev: Event): Schedule {
    match ev
    case Call(a) => Act(s, a)
    case Batch(now, actions) => Finish(ActAll(Begin(s, now), actions), now)
  }

  function Run(s: Schedule, evs: seq<Event>): Schedule {
    if evs == [] then s else Do(Run(s, evs[..|evs| - 1]), evs[|evs| - 1])
  }

  /** Timer `n` runs its callback in event `i` of the run. */
  predicate FiresAt(s: Schedule, evs: seq<Event>, i: nat, n: nat)
    requires i < |evs|
  {
    evs[i].Batch? && n in Due(Run(s, evs[..i]), evs[i].now)
  }

  ghost predicate WellFormed(s: Schedule) {
    && s.created.Keys !! s.alarms.Keys !! s.firing.Keys
    && (forall n :: n in s.created || n in s.alarms || n in s.firing ==> 1 <= n <= s.issued)
  }

  ghost predicate Quiet(s: Schedule) {
    WellFormed(s) && s.firing == map[] && !s.inBatch
  }

  lemma {:induction false} ActAllWellFormed(s: Schedule, actions: seq<Action>)
    requires WellFormed(s)
    ensures var t := ActAll(s, actions);
            WellFormed(t) && t.firing == s.firing && t.inBatch == s.inBatch && s.issued <= t.issued
  {
    if actions != [] { ActAllWellFormed(s, actions[..|actions| - 1]); }
  }

  lemma {:induction false} RunQuiet(s: Schedule, evs: seq<Event>)
    requires Quiet(s)
    ensures Quiet(Run(s, evs))
    ensures s.issued <= Run(s, evs).issued
  {
    if evs != [] {
      var before, ev := Run(s, evs[..|evs| - 1]), evs[|evs| - 1];
      RunQuiet(s, evs[..|evs| - 1]);
      if ev.Batch? { ActAllWellFormed(Begin(before, ev.now), ev.actions); }
    }
  }

  lemma {:induction false} RunSplit(s: Schedule, evs: seq<Event>, k: nat)
    requires k <= |evs|
    ensures Run(s, evs) == Run(Run(s, evs[..k]), evs[k..])
  {
    if k < |evs| {
      var init := evs[..|evs| - 1];
      RunSplit(s, init, k);
      assert init[..k] == evs[..k] && init[k..] == evs[k..][..|evs| - k - 1];
    } else {
      assert evs[..k] == evs && evs[k..] == [];
    }
  }

  lemma {:induction false} ActAllSplit(s: Schedule, actions: seq<Action>, k: nat)
    requires k <= |actions|
    ensures ActAll(s, actions) == ActAll(ActAll(s, actions[..k]), actions[k..])
  {
    if k < |actions| {
      var init := actions[..|actions| - 1];
      ActAllSplit(s, init, k);
      assert init[..k] == actions[..k] && init[k..] == actions[k..][..|actions| - k - 1];
    } else {
      assert actions[..k] == actions && actions[k..] == [];
    }
  }

  // ---- Once gone, gone for good ----

  /** `n` was handed out and will never run again, except that it may be in the batch in
      progress, in which case that batch will not put it back. */
  predicate Doomed(s: Schedule, n: nat) {
    && 1 <= n <= s.issued && n !in s.created && n !in s.alarms
    && (n in s.firing ==> s.inBatch && (!s.firing[n].repeat || n in s.stopping))
  }

  lemma {:induction false} DoomedStays(s: Schedule, actions: seq<Action>, n: nat)
    requires Doomed(s, n)
    ensures Doomed(ActAll(s, actions), n)
  {
    if actions != [] { DoomedStays(s, actions[..|actions| - 1], n); }
  }

  lemma {:induction false} DoomedNeverFires(s: Schedule, evs: seq<Event>, n: nat)
    requires Quiet(s) && Doomed(s, n)
    ensures Doomed(Run(s, evs), n)
    ensures forall i :: 0 <= i < |evs| ==> !FiresAt(s, evs, i, n)
  {
    if evs != [] {
      var init, ev := evs[..|evs| - 1], evs[|evs| - 1];
      DoomedNeverFires(s, init, n);
      RunQuiet(s, init);
      if ev.Batch? {
        var begun := Begin(Run(s, init), ev.now);
        DoomedStays(begun, ev.actions, n);
        ActAllWellFormed(begun, ev.actions);
      }
      forall i | 0 <= i < |evs| ensures !FiresAt(s, evs, i, n) {
        assert evs[..i] == init[..i];
        if i < |init| { assert !FiresAt(s, init, i, n); } else { assert init[..i] == init; }
      }
    }
  }

  /** Lifts "gone after event i" to "never fires in a later event". */
  lemma {:induction false} GoneAfterEvent(s: Schedule, evs: seq<Event>, i: nat, j: nat, n: nat)
    requires Quiet(s) && i < j < |evs|
    requires Doomed(Run(s, evs[..i + 1]), n)
    ensures !FiresAt(s, evs, j, n)
  {
    var mid := Run(s, evs[..i + 1]);
    RunQuiet(s, evs[..i + 1]);
    var rest := evs[i + 1..];
    DoomedNeverFires(mid, rest, n);
    RunSplit(s, evs[..j], i + 1);
    assert evs[..j][..i + 1] == evs[..i + 1] && evs[..j][i + 1..] == rest[..j - i - 1];
    assert !FiresAt(mid, rest, j - i - 1, n);
  }

  /** A one-shot timer runs at most once in any run, whatever callbacks do. */
  lemma OneShotFiresOnce(s: Schedule, evs: seq<Event>, i: nat, j: nat, n: nat)
    requires Quiet(s) && i < j < |evs|
    requires FiresAt(s, evs, i, n) && !Run(s, evs[..i]).alarms[n].repeat
    ensures !FiresAt(s, evs, j, n)
  {
    var before, ev := Run(s, evs[..i]), evs[i];
    RunQuiet(s, evs[..i]);
    var begun := Begin(before, ev.now);
    DoomedStays(begun, ev.actions, n);
    ActAllWellFormed(begun, ev.actions);
    assert evs[..i + 1][..i] == evs[..i];
    GoneAfterEvent(s, evs, i, j, n);
  }

  /** A cancel issued from outside a batch is final, provided the timer has been inserted. */
  lemma CancelIsFinal(s: Schedule, evs: seq<Event>, i: nat, j: nat, n: nat)
    requires Quiet(s) && i < j < |evs| && evs[i] == Call(Cancel(n))
    requires 1 <= n <= Run(s, evs[..i]).issued && n !in Run(s, evs[..i]).created
    ensures !FiresAt(s, evs, j, n)
  {
    RunQuiet(s, evs[..i]);
    assert evs[..i + 1][..i] == evs[..i];
    GoneAfterEvent(s, evs, i, j, n);
  }

  /** A cancel issued by the k-th call of a batch is final for every later batch, even when
      the timer is one of those the batch itself is running (self-cancel included). */
  lemma CancelInBatchIsFinal(s: Schedule, evs: seq<Event>, i: nat, k: nat, j: nat, n: nat)
    requires Quiet(s) && i < j < |evs| && evs[i].Batch?
    requires k < |evs[i].actions| && evs[i].actions[k] == Cancel(n)
    requires var at := ActAll(Begin(Run(s, evs[..i]), evs[i].now), evs[i].actions[..k]);
             1 <= n <= at.issued && n !in at.created
    ensures !FiresAt(s, evs, j, n)
  {
    RunQuiet(s, evs[..i]);
    CancelInBatchDooms(Run(s, evs[..i]), evs[i].now, evs[i].actions, k, n);
    assert evs[..i + 1][..i] == evs[..i];
    GoneAfterEvent(s, evs, i, j, n);
  }

  lemma CancelInBatchDooms(s: Schedule, now: int, actions: seq<Action>, k: nat, n: nat)
    requires Quiet(s) && k < |actions| && actions[k] == Cancel(n)
    requires var at := ActAll(Begin(s, now), actions[..k]); 1 <= n <= at.issued && n !in at.created
    ensures Doomed(Do(s, Batch(now, actions)), n)
  {
    hide ActAll, Act, Doomed;
    var begun := Begin(s, now);
    var at := ActAll(begun, actions[..k]);
    ActAllWellFormed(begun, actions[..k]);
    ActAllWellFormed(begun, actions);
    CancelDooms(at, n);
    ActAllNext(begun, actions, k);
    ActAllSplit(begun, actions, k + 1);
    DoomedStays(Act(at, Cancel(n)), actions[k + 1..], n);
    DoomedFinishes(ActAll(begun, actions), now, n);
  }

  lemma ActAllNext(s: Schedule, actions: seq<Action>, k: nat)
    requires k < |actions|
    ensures ActAll(s, actions[..k + 1]) == Act(ActAll(s, actions[..k]), actions[k])
  {
    assert actions[..k + 1][..k] == actions[..k];
  }

  lemma CancelDooms(s: Schedule, n: nat)
    requires WellFormed(s) && s.inBatch && 1 <= n <= s.issued && n !in s.created
    ensures Doomed(Act(s, Cancel(n)), n)
  {
  }

  lemma DoomedFinishes(s: Schedule, now: int, n: nat)
    requires Doomed(s, n)
    ensures Doomed(Finish(s, now), n)
  {
  }

  /** The condition `n !in created` of both is exact, as shown below: a cancel that overtakes the timer's own
      addTimerInLoop is forgotten, and the timer then runs when it is due. */
  lemma EarlyCancelIsForgotten(s: Schedule, n: nat, now: int)
    requires Quiet(s) && n in s.created && s.created[n].when <= now
    ensures FiresAt(s, [Call(Cancel(n)), Call(Insert(n)), Batch(now, [])], 2, n)
  {
    var evs := [Call(Cancel(n)), Call(Insert(n)), Batch(now, [])];
    assert evs[..2] == [Call(Cancel(n)), Call(Insert(n))];
    assert evs[..2][..1] == [Call(Cancel(n))];
    assert evs[..1][..0] == [];
    assert Run(s, evs[..2][..1]) == s;
  }

  ghost predicate NeverFires(s: Schedule, evs: seq<Event>, n: nat) {
    forall j :: 0 <= j < |evs| ==> !FiresAt(s, evs, j, n)
  }

  /** A cancel stops a timer that was ever created in every continuation exactly when the timer
      is not still on its way to addTimerInLoop. */
  lemma CancelIsFinalExactly(s: Schedule, n: nat)
    requires Quiet(s) && 1 <= n <= s.issued
    ensures (forall rest :: NeverFires(s, [Call(Cancel(n))] + rest, n)) <==> n !in s.created
  {
    if n in s.created {
      var rest := [Call(Insert(n)), Batch(s.created[n].when, [])];
      EarlyCancelIsForgotten(s, n, s.created[n].when);
      assert [Call(Cancel(n))] + rest == [Call(Cancel(n)), Call(Insert(n)), Batch(s.created[n].when, [])];
      assert !NeverFires(s, [Call(Cancel(n))] + rest, n);
    } else {
      forall rest ensures NeverFires(s, [Call(Cancel(n))] + rest, n) {
        var evs := [Call(Cancel(n))] + rest;
        assert evs[..0] == [];
        forall j | 0 <= j < |evs| ensures !FiresAt(s, evs, j, n) {
          if j > 0 { CancelIsFinal(s, evs, 0, j, n); }
        }
      }
    }
  }

  ghost predicate NeverFiresLater(s: Schedule, evs: seq<Event>, n: nat) {
    forall j :: 1 <= j < |evs| ==> !FiresAt(s, evs, j, n)
  }

  /** The same for a cancel made during a batch, behind any calls of that batch: whatever the
      rest of the batch and the events after it are. */
  lemma CancelInBatchIsFinalExactly(s: Schedule, now: int, before: seq<Action>, n: nat)
    requires Quiet(s) && 1 <= n <= ActAll(Begin(s, now), before).issued
    ensures (forall after, rest ::
               NeverFiresLater(s, [Batch(now, before + [Cancel(n)] + after)] + rest, n))
       <==> n !in ActAll(Begin(s, now), before).created
  {
    hide ActAll, Act, Finish, FiresAt;
    if n in ActAll(Begin(s, now), before).created {
      var when := ActAll(Begin(s, now), before).created[n].when;
      var after, rest := [Insert(n)], [Batch(when, [])];
      OvertakenInBatch(s, now, before, n);
      assert !NeverFiresLater(s, [Batch(now, before + [Cancel(n)] + after)] + rest, n);
    } else {
      forall after, rest ensures NeverFiresLater(s, [Batch(now, before + [Cancel(n)] + after)] + rest, n) {
        var calls := before + [Cancel(n)] + after;
        var evs := [Batch(now, calls)] + rest;
        assert evs[..0] == [] && calls[|before|] == Cancel(n) && calls[..|before|] == before;
        RunNone(s);
        forall j | 1 <= j < |evs| ensures !FiresAt(s, evs, j, n) {
          CancelInBatchIsFinal(s, evs, 0, |before|, j, n);
        }
      }
    }
  }

  lemma RunNone(s: Schedule)
    ensures Run(s, []) == s
  {
  }

  /** A cancel in a batch that overtakes the timer's addTimerInLoop, in the same batch, is
      forgotten. */
  lemma OvertakenInBatch(s: Schedule, now: int, before: seq<Action>, n: nat)
    requires Quiet(s) && n in ActAll(Begin(s, now), before).created
    ensures var when := ActAll(Begin(s, now), before).created[n].when;
            FiresAt(s, [Batch(now, before + [Cancel(n)] + [Insert(n)])] + [Batch(when, [])], 1, n)
  {
    hide ActAll, Act, Finish;
    var begun := Begin(s, now);
    var at, calls := ActAll(begun, before), before + [Cancel(n)] + [Insert(n)];
    var evs := [Batch(now, calls)] + [Batch(at.created[n].when, [])];
    ActAllWellFormed(begun, before);
    assert calls[..|before|] == before && calls[..|before| + 1] == before + [Cancel(n)];
    assert (before + [Cancel(n)])[..|before|] == before;
    ActAllNext(begun, calls, |before|);
    ActAllNext(begun, calls, |before| + 1);
    assert calls[..|before| + 2] == calls;
    InsertedInBatch(at, now, n);
    RunNone(s);
    assert evs[..1] == [Batch(now, calls)] && evs[..1][..0] == [];
  }

  lemma InsertedInBatch(at: Schedule, now: int, n: nat)
    requires WellFormed(at) && at.inBatch && n in at.created
    ensures var t := Finish(Act(Act(at, Cancel(n)), Insert(n)), now);
            n in t.alarms && t.alarms[n] == at.created[n]
  {
  }

  // ---- Nothing is lost and nothing is early ----

  predicate Cancels(ev: Event, n: nat) {
    match ev
    case Call(a) => a == Cancel(n)
    case Batch(_, actions) => Cancel(n) in actions
  }

  lemma {:induction false} ActAllKeeps(s: Schedule, actions: seq<Action>, n: nat)
    requires WellFormed(s) && n in s.alarms && Cancel(n) !in actions
    ensures n in ActAll(s, actions).alarms && ActAll(s, actions).alarms[n] == s.alarms[n]
  {
    if actions != [] {
      ActAllKeeps(s, actions[..|actions| - 1], n);
      ActAllWellFormed(s, actions[..|actions| - 1]);
    }
  }

  /** Until it is cancelled or due, an alarm stays exactly as it was set. */
  lemma {:induction false} KeptUntilDue(s: Schedule, evs: seq<Event>, n: nat)
    requires Quiet(s) && n in s.alarms
    requires forall ev :: ev in evs ==> !Cancels(ev, n) && (ev.Batch? ==> ev.now < s.alarms[n].when)
    ensures n in Run(s, evs).alarms && Run(s, evs).alarms[n] == s.alarms[n]
  {
    if evs != [] {
      var init, ev := evs[..|evs| - 1], evs[|evs| - 1];
      KeptUntilDue(s, init, n);
      RunQuiet(s, init);
      assert ev in evs;
      if ev.Batch? {
        var begun := Begin(Run(s, init), ev.now);
        ActAllKeeps(begun, ev.actions, n);
        ActAllWellFormed(begun, ev.actions);
      }
    }
  }

  /** An alarm that nobody cancels runs in the first batch at or after its time and in no
      batch before: never early, never lost. */
  lemma FiresInFirstDueBatch(s: Schedule, evs: seq<Event>, j: nat, n: nat)
    requires Quiet(s) && n in s.alarms && j < |evs|
    requires forall i :: 0 <= i < j ==> !Cancels(evs[i], n) && (evs[i].Batch? ==> evs[i].now < s.alarms[n].when)
    requires evs[j].Batch? && s.alarms[n].when <= evs[j].now
    ensures FiresAt(s, evs, j, n)
    ensures forall i :: 0 <= i < j ==> !FiresAt(s, evs, i, n)
  {
    KeptUntilDue(s, evs[..j], n);
    forall i | 0 <= i < j ensures !FiresAt(s, evs, i, n) {
      KeptUntilDue(s, evs[..i], n);
    }
  }

  /** A repeating timer that fired at `now` and was not cancelled is next due at `now + delta`,
      measured from the batch, not from the time it was due. */
  lemma RepeatsFromBatchTime(s: Schedule, now: int, actions: seq<Action>, n: nat)
    requires Quiet(s) && n in Due(s, now) && s.alarms[n].repeat && Cancel(n) !in actions
    ensures var t := Do(s, Batch(now, actions));
            n in t.alarms && t.alarms[n] == Alarm(now + s.alarms[n].delta, true, s.alarms[n].delta)
  {
    var begun := Begin(s, now);
    ActAllWellFormed(begun, actions);
    NotStopped(begun, actions, n);
  }

  lemma {:induction false} NotStopped(s: Schedule, actions: seq<Action>, n: nat)
    requires n !in s.stopping && Cancel(n) !in actions
    ensures n !in ActAll(s, actions).stopping
  {
    if actions != [] { NotStopped(s, actions[..|actions| - 1], n); }
  }

  // ---- From the call that makes a timer to the calls of its callback ----

  /** The calls made in an event, in order. */
  function Calls(ev: Event): seq<Action> {
    match ev
    case Call(a) => [a]
    case Batch(_, actions) => actions
  }

  function Start(s: Schedule, ev: Event): Schedule {
    match ev
    case Call(_) => s
    case Batch(now, _) => Begin(s, now)
  }

  /** When the k-th call of event i is about to be made. */
  function At(s: Schedule, evs: seq<Event>, i: nat, k: nat): Schedule
    requires i < |evs| && k <= |Calls(evs[i])|
  {
    ActAll(Start(Run(s, evs[..i]), evs[i]), Calls(evs[i])[..k])
  }

  predicate Before(i: nat, k: nat, q: nat, cq: nat) {
    i < q || (i == q && k < cq)
  }

  /** Call k of event i is this one. */
  predicate CalledAt(evs: seq<Event>, i: nat, k: nat, a: Action) {
    i < |evs| && k < |Calls(evs[i])| && Calls(evs[i])[k] == a
  }

  /** Call cp of event p makes timer n, and call cq of event q is the first to link it. */
  ghost predicate Sets(s: Schedule, evs: seq<Event>, p: nat, cp: nat, q: nat, cq: nat, n: nat, a: Alarm) {
    && CalledAt(evs, p, cp, Create(a)) && n == At(s, evs, p, cp).issued + 1
    && Before(p, cp, q, cq) && CalledAt(evs, q, cq, Insert(n))
    && (forall i, k | Before(i, k, q, cq) :: !CalledAt(evs, i, k, Insert(n)))
  }

  lemma EndOfEvent(s: Schedule, ev: Event)
    ensures var t := ActAll(Start(s, ev), Calls(ev)); Do(s, ev) == if ev.Batch? then Finish(t, ev.now) else t
  {
    if ev.Call? {
      assert [ev.action][..0] == [];
      assert ActAll(s, []) == s;
    }
  }

  lemma AtSplit(s: Schedule, evs: seq<Event>, i: nat, k: nat, m: nat)
    requires i < |evs| && k <= m <= |Calls(evs[i])|
    ensures At(s, evs, i, m) == ActAll(At(s, evs, i, k), Calls(evs[i])[k..m])
  {
    var calls := Calls(evs[i])[..m];
    ActAllSplit(Start(Run(s, evs[..i]), evs[i]), calls, k);
    assert calls[..k] == Calls(evs[i])[..k] && calls[k..] == Calls(evs[i])[k..m];
  }

  lemma AtNext(s: Schedule, evs: seq<Event>, i: nat, k: nat)
    requires i < |evs| && k < |Calls(evs[i])|
    ensures At(s, evs, i, k + 1) == Act(At(s, evs, i, k), Calls(evs[i])[k])
  {
    ActAllNext(Start(Run(s, evs[..i]), evs[i]), Calls(evs[i]), k);
  }

  /** All the calls of an event made: what is left is the end of the batch. */
  lemma AtEnd(s: Schedule, evs: seq<Event>, i: nat)
    requires i < |evs|
    ensures var t := At(s, evs, i, |Calls(evs[i])|);
            Run(s, evs[..i + 1]) == if evs[i].Batch? then Finish(t, evs[i].now) else t
  {
    assert evs[..i + 1][..i] == evs[..i];
    assert Calls(evs[i])[..|Calls(evs[i])|] == Calls(evs[i]);
    EndOfEvent(Run(s, evs[..i]), evs[i]);
  }

  lemma AtWellFormed(s: Schedule, evs: seq<Event>, i: nat, k: nat)
    requires Quiet(s) && i < |evs| && k <= |Calls(evs[i])|
    ensures WellFormed(At(s, evs, i, k)) && s.issued <= Run(s, evs[..i]).issued <= At(s, evs, i, k).issued
    ensures At(s, evs, i, k).firing == Start(Run(s, evs[..i]), evs[i]).firing
  {
    hide ActAll, Run;
    RunQuiet(s, evs[..i]);
    ActAllWellFormed(Start(Run(s, evs[..i]), evs[i]), Calls(evs[i])[..k]);
  }

  predicate Waits(created: map<nat, Alarm>, n: nat, a: Alarm) {
    n in created && created[n] == a
  }

  lemma {:induction false} ActAllWaits(s: Schedule, actions: seq<Action>, n: nat, a: Alarm)
    requires WellFormed(s) && Waits(s.created, n, a) && Insert(n) !in actions
    ensures Waits(ActAll(s, actions).created, n, a)
  {
    if actions != [] {
      ActAllWaits(s, actions[..|actions| - 1], n, a);
      ActAllWellFormed(s, actions[..|actions| - 1]);
    }
  }

  /** A timer made stays as it was asked for until it is linked, cancelled or not. */
  lemma {:induction false} MadeWaits(s: Schedule, evs: seq<Event>, p: nat, cp: nat, i: nat, k: nat, n: nat, a: Alarm)
    requires Quiet(s) && CalledAt(evs, p, cp, Create(a)) && n == At(s, evs, p, cp).issued + 1
    requires Before(p, cp, i, k) && i < |evs| && k <= |Calls(evs[i])|
    requires forall j, l | Before(j, l, i, k) :: !CalledAt(evs, j, l, Insert(n))
    ensures Waits(At(s, evs, i, k).created, n, a)
    decreases i
  {
    hide At, Run, ActAll, Start, WellFormed, Quiet;
    if i == p {
      AtNext(s, evs, p, cp);
      CreateMakes(At(s, evs, p, cp), a);
      AtWellFormed(s, evs, p, cp + 1);
      AtSplit(s, evs, p, cp + 1, k);
      NotAmong(evs, i, cp + 1, k, Insert(n));
      ActAllWaits(At(s, evs, p, cp + 1), Calls(evs[p])[cp + 1..k], n, a);
    } else {
      var last := |Calls(evs[i - 1])|;
      MadeWaits(s, evs, p, cp, i - 1, last, n, a);
      AtEnd(s, evs, i - 1);
      StartWaits(At(s, evs, i - 1, last), evs[i - 1], evs[i], n, a);
      AtWellFormed(s, evs, i, 0);
      AtZero(s, evs, i);
      AtSplit(s, evs, i, 0, k);
      NotAmong(evs, i, 0, k, Insert(n));
      ActAllWaits(At(s, evs, i, 0), Calls(evs[i])[0..k], n, a);
    }
  }

  lemma AtZero(s: Schedule, evs: seq<Event>, i: nat)
    requires i < |evs|
    ensures At(s, evs, i, 0) == Start(Run(s, evs[..i]), evs[i])
  {
    assert Calls(evs[i])[..0] == [];
  }

  lemma CreateMakes(s: Schedule, a: Alarm)
    ensures Waits(Act(s, Create(a)).created, s.issued + 1, a)
  {
  }

  lemma NotAmong(evs: seq<Event>, i: nat, k: nat, m: nat, a: Action)
    requires i < |evs| && k <= m <= |Calls(evs[i])|
    requires forall l | k <= l < m :: !CalledAt(evs, i, l, a)
    ensures a !in Calls(evs[i])[k..m]
  {
    var calls := Calls(evs[i])[k..m];
    forall l | 0 <= l < |calls| ensures calls[l] != a {
      assert !CalledAt(evs, i, k + l, a);
    }
  }

  lemma StartWaits(t: Schedule, before: Event, ev: Event, n: nat, a: Alarm)
    requires Waits(t.created, n, a)
    ensures Waits(Start(if before.Batch? then Finish(t, before.now) else t, ev).created, n, a)
  {
  }

  /** Linked, the timer has the alarm it was made with when the event is over. */
  lemma LinkedAfter(s: Schedule, evs: seq<Event>, p: nat, cp: nat, q: nat, cq: nat, n: nat, a: Alarm)
    requires Quiet(s) && Sets(s, evs, p, cp, q, cq, n, a)
    requires forall k | cq < k :: !CalledAt(evs, q, k, Cancel(n))
    ensures Waits(Run(s, evs[..q + 1]).alarms, n, a)
  {
    hide At, Run, ActAll, Start, Quiet;
    var last := |Calls(evs[q])|;
    MadeWaits(s, evs, p, cp, q, cq, n, a);
    AtNext(s, evs, q, cq);
    AtWellFormed(s, evs, q, cq);
    AtWellFormed(s, evs, q, cq + 1);
    AtSplit(s, evs, q, cq + 1, last);
    NotAmong(evs, q, cq + 1, last, Cancel(n));
    ActAllKeeps(At(s, evs, q, cq + 1), Calls(evs[q])[cq + 1..last], n);
    AtEnd(s, evs, q);
    AtWellFormed(s, evs, q, last);
    EndKeeps(At(s, evs, q, last), evs[q], n);
  }

  lemma EndKeeps(t: Schedule, ev: Event, n: nat)
    requires WellFormed(t) && n in t.alarms
    ensures ev.Batch? ==> Waits(Finish(t, ev.now).alarms, n, t.alarms[n])
  {
  }

  /** Before it is linked it does not run. */
  lemma NotYet(s: Schedule, evs: seq<Event>, p: nat, cp: nat, q: nat, cq: nat, n: nat, a: Alarm, i: nat)
    requires Quiet(s) && Sets(s, evs, p, cp, q, cq, n, a) && i <= q
    ensures !FiresAt(s, evs, i, n)
  {
    hide At, Run, ActAll, Quiet, Start;
    AtWellFormed(s, evs, p, cp);
    NotCreatedYet(s, evs, p, i);
    RunQuiet(s, evs[..i]);
    QuietIsWellFormed(Run(s, evs[..i]));
    if p < i {
      MadeWaits(s, evs, p, cp, i - 1, |Calls(evs[i - 1])|, n, a);
      AtEnd(s, evs, i - 1);
    }
  }

  lemma QuietIsWellFormed(s: Schedule)
    requires Quiet(s)
    ensures WellFormed(s)
  {
  }

  lemma NotCreatedYet(s: Schedule, evs: seq<Event>, p: nat, i: nat)
    requires Quiet(s) && p < |evs|
    ensures i <= p ==> Run(s, evs[..i]).issued <= Run(s, evs[..p]).issued
  {
    if i <= p {
      RunSplit(s, evs[..p], i);
      assert evs[..p][..i] == evs[..i];
      RunQuiet(s, evs[..i]);
      RunQuiet(Run(s, evs[..i]), evs[..p][i..]);
    }
  }

  /** A timer that is made, linked and not cancelled after that runs in the first batch at or after the
      time asked for, and in none before. */
  lemma RunsWhenAsked(s: Schedule, evs: seq<Event>, p: nat, cp: nat, q: nat, cq: nat, j: nat, n: nat, a: Alarm)
    requires Quiet(s) && Sets(s, evs, p, cp, q, cq, n, a)
    requires forall k | cq < k :: !CalledAt(evs, q, k, Cancel(n))
    requires q < j < |evs| && evs[j].Batch? && a.when <= evs[j].now
    requires forall i :: q < i < j ==> !Cancels(evs[i], n) && (evs[i].Batch? ==> evs[i].now < a.when)
    ensures FiresAt(s, evs, j, n) && Run(s, evs[..j]).alarms[n] == a
    ensures forall i :: 0 <= i < j ==> !FiresAt(s, evs, i, n)
  {
    hide At, ActAll, Sets;
    LinkedAfter(s, evs, p, cp, q, cq, n, a);
    RunQuiet(s, evs[..q + 1]);
    FiresFirst(s, evs, q + 1, j, n);
    forall i | 0 <= i < j ensures !FiresAt(s, evs, i, n) {
      if i <= q { NotYet(s, evs, p, cp, q, cq, n, a, i); }
    }
  }

  /** FiresInFirstDueBatch, seen from the beginning of the run. */
  lemma FiresFirst(s: Schedule, evs: seq<Event>, q: nat, j: nat, n: nat)
    requires q <= j < |evs| && Quiet(Run(s, evs[..q])) && n in Run(s, evs[..q]).alarms
    requires evs[j].Batch? && Run(s, evs[..q]).alarms[n].when <= evs[j].now
    requires forall i :: q <= i < j ==>
               !Cancels(evs[i], n) && (evs[i].Batch? ==> evs[i].now < Run(s, evs[..q]).alarms[n].when)
    ensures FiresAt(s, evs, j, n) && Run(s, evs[..j]).alarms[n] == Run(s, evs[..q]).alarms[n]
    ensures forall i :: q <= i < j ==> !FiresAt(s, evs, i, n)
  {
    hide Run, Quiet, WellFormed;
    var mid := Run(s, evs[..q]);
    forall i | q <= i <= j ensures n in Run(s, evs[..i]).alarms && Run(s, evs[..i]).alarms[n] == mid.alarms[n] {
      RunSplit(s, evs[..i], q);
      assert evs[..i][..q] == evs[..q];
      forall ev | ev in evs[..i][q..] ensures !Cancels(ev, n) && (ev.Batch? ==> ev.now < mid.alarms[n].when) {
        var k :| 0 <= k < |evs[..i][q..]| && evs[..i][q..][k] == ev;
        assert evs[q + k] == ev;
      }
      KeptUntilDue(mid, evs[..i][q..], n);
    }
  }

  /** A repeating timer that nobody cancels runs again in the first batch at or after one interval from
      the batch that ran it, and in none between. */
  lemma RunsAgain(s: Schedule, evs: seq<Event>, j: nat, k: nat, n: nat)
    requires Quiet(s) && j < k < |evs| && FiresAt(s, evs, j, n) && Run(s, evs[..j]).alarms[n].repeat
    requires evs[k].Batch? && evs[j].now + Run(s, evs[..j]).alarms[n].delta <= evs[k].now
    requires forall i :: j <= i < k ==> !Cancels(evs[i], n)
    requires forall i :: j < i < k ==>
               evs[i].Batch? ==> evs[i].now < evs[j].now + Run(s, evs[..j]).alarms[n].delta
    ensures FiresAt(s, evs, k, n)
    ensures var a := Run(s, evs[..j]).alarms[n];
            Run(s, evs[..k]).alarms[n] == Alarm(evs[j].now + a.delta, true, a.delta)
    ensures forall i :: j < i < k ==> !FiresAt(s, evs, i, n)
  {
    RunQuiet(s, evs[..j]);
    RunQuiet(s, evs[..j + 1]);
    assert evs[..j + 1][..j] == evs[..j];
    assert !Cancels(evs[j], n);
    RepeatsFromBatchTime(Run(s, evs[..j]), evs[j].now, evs[j].actions, n);
    FiresFirst(s, evs, j + 1, k, n);
  }

  /** Whether a timer repeats, and how often, never changes. */
  ghost predicate OfKind(s: Schedule, n: nat, a: Alarm) {
    && n <= s.issued
    && (n in s.created ==> s.created[n].repeat == a.repeat && s.created[n].delta == a.delta)
    && (n in s.alarms ==> s.alarms[n].repeat == a.repeat && s.alarms[n].delta == a.delta)
    && (n in s.firing ==> s.firing[n].repeat == a.repeat && s.firing[n].delta == a.delta)
  }

  lemma {:induction false} CallsKeepKind(s: Schedule, actions: seq<Action>, n: nat, a: Alarm)
    requires OfKind(s, n, a)
    ensures OfKind(ActAll(s, actions), n, a)
  {
    if actions != [] { CallsKeepKind(s, actions[..|actions| - 1], n, a); }
  }

  lemma EventKeepsKind(s: Schedule, ev: Event, n: nat, a: Alarm)
    requires OfKind(s, n, a)
    ensures OfKind(Do(s, ev), n, a)
  {
    hide ActAll;
    EndOfEvent(s, ev);
    CallsKeepKind(Start(s, ev), Calls(ev), n, a);
    FinishKeepsKind(ActAll(Start(s, ev), Calls(ev)), n, a);
  }

  lemma FinishKeepsKind(s: Schedule, n: nat, a: Alarm)
    requires OfKind(s, n, a)
    ensures forall now :: OfKind(Finish(s, now), n, a)
  {
  }

  lemma {:induction false} RunKeepsKind(s: Schedule, evs: seq<Event>, n: nat, a: Alarm)
    requires OfKind(s, n, a)
    ensures OfKind(Run(s, evs), n, a)
  {
    hide Do, OfKind;
    if evs != [] {
      RunKeepsKind(s, evs[..|evs| - 1], n, a);
      EventKeepsKind(Run(s, evs[..|evs| - 1]), evs[|evs| - 1], n, a);
    }
  }

  /** Whenever a timer runs, it is of the kind it was made. */
  lemma KeepsKind(s: Schedule, evs: seq<Event>, p: nat, cp: nat, q: nat, cq: nat, j: nat, n: nat, a: Alarm)
    requires Quiet(s) && Sets(s, evs, p, cp, q, cq, n, a) && j < |evs| && FiresAt(s, evs, j, n)
    ensures q < j && Run(s, evs[..j]).alarms[n].repeat == a.repeat && Run(s, evs[..j]).alarms[n].delta == a.delta
  {
    hide Run, At, Quiet, Calls, OfKind, Finish, ActAll, Start;
    if j <= q { NotYet(s, evs, p, cp, q, cq, n, a, j); }
    var last := |Calls(evs[p])|;
    AtWellFormed(s, evs, p, cp);
    AtNext(s, evs, p, cp);
    CreateIsOfKind(At(s, evs, p, cp), a);
    AtSplit(s, evs, p, cp + 1, last);
    CallsKeepKind(At(s, evs, p, cp + 1), Calls(evs[p])[cp + 1..last], n, a);
    AtEnd(s, evs, p);
    FinishKeepsKind(At(s, evs, p, last), n, a);
    RunSplit(s, evs[..j], p + 1);
    assert evs[..j][..p + 1] == evs[..p + 1];
    RunKeepsKind(Run(s, evs[..p + 1]), evs[..j][p + 1..], n, a);
    KindIs(Run(s, evs[..j]), n, a);
  }

  lemma CreateIsOfKind(s: Schedule, a: Alarm)
    requires WellFormed(s)
    ensures OfKind(Act(s, Create(a)), s.issued + 1, a)
  {
  }

  lemma KindIs(s: Schedule, n: nat, a: Alarm)
    requires OfKind(s, n, a)
    ensures n in s.alarms ==> s.alarms[n].repeat == a.repeat && s.alarms[n].delta == a.delta
  {
  }

  /** A cancel, wherever it is made, of a timer that is not on its way to addTimerInLoop is final. */
  lemma CancelStops(s: Schedule, evs: seq<Event>, q: nat, cq: nat, j: nat, n: nat)
    requires Quiet(s) && CalledAt(evs, q, cq, Cancel(n)) && q < j < |evs|
    requires 1 <= n <= At(s, evs, q, cq).issued && n !in At(s, evs, q, cq).created
    ensures !FiresAt(s, evs, j, n)
  {
    hide Run, ActAll, Quiet;
    match evs[q] {
      case Call(_) =>
        AtZero(s, evs, q);
        CancelIsFinal(s, evs, q, j, n);
      case Batch(_, _) =>
        CancelInBatchIsFinal(s, evs, q, cq, j, n);
    }
  }
}
