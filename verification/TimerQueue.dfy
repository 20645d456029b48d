/** The timer queue itself: an ordered set of (expiration, timer) and a set of (timer, sequence)
    kept in step, a set of timers cancelled during a batch, and one armed timerfd. */
module TimerQueues {
  import opened TimerSpec
  import opened TimerStore
  import opened TimerLives

  /** The local vector `expired`: strictly increasing, so without repetition. */
  ghost predicate Ascending(s: seq<Entry>) {
    forall i, j :: 0 <= i < j < |s| ==> Less(s[i], s[j])
  }

  /** The entries still to be dealt with are exactly those of the timers in flight. */
  ghost predicate Pending(expired: seq<Entry>, heap: map<Addr, Timer>, inFlight: set<TimerId>) {
    && (forall i, j :: 0 <= i < j < |expired| ==> expired[i].timer != expired[j].timer)
    && (forall e :: e in expired ==> e.timer in heap && TimerId(e.timer, heap[e.timer].sequence) in inFlight)
    && (forall id :: id in inFlight ==> exists e :: e in expired && e.timer == id.timer)
  }

  class TimerQueue {
    var timers: set<Entry>            // std::set<Entry>
    var activeTimers: set<TimerId>
    var callingExpiredTimers: bool
    var cancelingTimers: set<TimerId>
    // what lies outside the class
    var heap: map<Addr, Timer>
    var numCreated: nat
    var timerfd: Armed
    var made: map<nat, Addr>
    var unlinked: set<TimerId>
    ghost var inFlight: set<TimerId>

    ghost function S(): Store
      reads this
    {
      Store(timers, activeTimers, callingExpiredTimers, cancelingTimers, heap, numCreated, made, unlinked, inFlight)
    }

    ghost predicate Valid()
      reads this
    {
      S().Valid()
    }

    /** Not inside handleRead. */
    ghost predicate Idle()
      reads this
    {
      Valid() && !callingExpiredTimers && inFlight == {}
    }

    ghost function Abs(): Schedule
      reads this
      requires Valid()
    {
      S().Abs()
    }

    /** The timerfd becomes readable no later than `e` is due, or than the 100 microsecond floor
        counted from when it was set. */
    ghost predicate InTime(e: Entry)
      reads this
    {
      timerfd.Armed? && (timerfd.at <= e.when || timerfd.at <= timerfd.setAt + 100)
    }

    /** Every timer due up to `limit` is covered by the armed timerfd. */
    ghost predicate CoveredUpTo(limit: int)
      reads this
    {
      forall e :: e in timers && e.when <= limit ==> InTime(e)
    }

    /** No timer is lost: whatever is in the queue, the loop will be woken for it in time. */
    ghost predicate NothingLost()
      reads this
    {
      forall e :: e in timers ==> InTime(e)
    }

    constructor ()
      ensures Idle() && NothingLost()
      ensures Abs() == Schedule(map[], map[], map[], {}, false, 0) && heap == map[] && numCreated == 0
    {
      timers, activeTimers, callingExpiredTimers, cancelingTimers := {}, {}, false, {};
      heap, numCreated, timerfd, made, unlinked, inFlight := map[], 0, Disarmed, map[], {}, {};
    }

    /** addTimer's `new Timer`, on whatever thread; the allocator may return any address that is
        not in use. */
    method New(timer: Addr, alarm: Alarm) returns (id: TimerId)
      requires Valid() && timer !in heap
      modifies this`heap, this`numCreated, this`made, this`unlinked
      ensures Valid() && S() == AfterNew(old(S()), timer, alarm)
      ensures id == TimerId(timer, old(numCreated) + 1) && heap == old(heap)[timer := heap[timer]]
      ensures heap[timer].expiration == alarm.when && heap[timer].repeat == alarm.repeat
      ensures heap[timer].delta == alarm.delta && heap[timer].sequence == id.sequence
      ensures unlinked == old(unlinked) + {id} && Abs().created == old(Abs()).created[id.sequence := alarm]
      ensures Abs() == Act(old(Abs()), Create(alarm))
    {
      hide Store.Valid, Store.Abs;
      NewOk(S(), timer, alarm);
      numCreated := numCreated + 1;
      id := TimerId(timer, numCreated);
      heap := heap[timer := Timer(alarm.when, alarm.repeat, alarm.delta, numCreated)];
      made := made[numCreated := timer];
      unlinked := unlinked + {id};
      assert S() == AfterNew(old(S()), timer, alarm);
    }

    method ResetTimerfd(expiration: int, clock: int)
      modifies this`timerfd
      ensures timerfd.Armed? && timerfd.setAt == clock
      ensures timerfd.at == if expiration < clock + 100 then clock + 100 else expiration
    {
      var microseconds := expiration - clock;
      if microseconds < 100 {
        microseconds := 100;
      }
      timerfd := Armed(clock + microseconds, clock);
    }

    /** insert: the timer comes from addTimerInLoop (then it is unlinked) or from reset (then
        it is in flight). */
    method Insert(timer: Addr) returns (earliestChanged: bool)
      requires Valid() && timer in heap && S().IdAt(timer) !in activeTimers
      modifies this`timers, this`activeTimers, this`unlinked, this`inFlight
      ensures Valid() && S() == AfterInsert(old(S()), timer)
      ensures earliestChanged <==> forall e :: e in old(timers) ==> heap[timer].expiration < e.when
    {
      hide Store.Valid, Store.Abs;
      SizesAgree(S());
      InsertOk(S(), timer);
      earliestChanged := false;
      var when := heap[timer].expiration;
      var id, entry := TimerId(timer, heap[timer].sequence), Entry(when, timer);
      if timers == {} {
        earliestChanged := true;
      } else {
        var it := First(timers);
        earliestChanged := when < it.when;
      }
      assert entry !in timers;         // the result of the first std::set insert
      timers := timers + {entry};
      assert id !in activeTimers;      // and of the second
      activeTimers := activeTimers + {id};
      unlinked, inFlight := unlinked - {id}, inFlight - {id};
      assert S() == AfterInsert(old(S()), timer);
    }

    method AddInLoop(id: TimerId, clock: int)
      requires Valid() && id in unlinked
      modifies this`timers, this`activeTimers, this`unlinked, this`inFlight, this`timerfd
      ensures Valid() && inFlight == old(inFlight)
      ensures Abs() == Act(old(Abs()), TimerSpec.Insert(id.sequence))
      ensures id.timer in old(heap) && S() == AfterInsert(old(S()), id.timer)
      ensures forall limit :: old(CoveredUpTo(limit)) ==> CoveredUpTo(limit)
    {
      hide Store.Valid, Store.Abs;
      Owned(S(), id);
      InsertOk(S(), id.timer);
      var earliestChanged := Insert(id.timer);
      if earliestChanged {
        ResetTimerfd(heap[id.timer].expiration, clock);
      }
    }

    /** cancelInLoop.  The handle may be stale, and its address may belong to a younger timer:
        then nothing is cancelled. */
    method Cancel(id: TimerId)
      requires Valid() && S().Issued(id)
      modifies this`timers, this`activeTimers, this`cancelingTimers, this`heap
      ensures Valid()
      ensures Abs() == Act(old(Abs()), TimerSpec.Cancel(id.sequence))
      ensures S() == Performed(old(S()), CancelInLoop(id))
      ensures timers <= old(timers)
      ensures SameInFlight(old(heap))
    {
      hide Store.Valid, Store.Abs;
      SizesAgree(S());
      if id in activeTimers {
        EraseOk(S(), id);
        AllOwned(S());
        var entry := Entry(heap[id.timer].expiration, id.timer);
        assert entry in timers;        // n == 1
        timers := timers - {entry};
        heap := heap - {id.timer};     // delete it->first
        activeTimers := activeTimers - {id};
        assert S() == AfterErase(old(S()), id.timer);
      } else {
        MissOk(S(), id);
        AllOwned(S());
        if callingExpiredTimers {
          cancelingTimers := cancelingTimers + {id};
        }
        assert S() == AfterMiss(old(S()), id);
      }
    }

    /** A callback (or another thread meanwhile) using the queue.  Requests nobody can make are
        skipped: an allocation at an address in use, adding a timer twice, a forged handle. */
    method Perform(script: seq<Request>) returns (actions: seq<Action>)
      requires Valid()
      modifies this`timers, this`activeTimers, this`cancelingTimers, this`heap, this`numCreated,
               this`timerfd, this`made, this`unlinked, this`inFlight
      ensures Valid() && inFlight == old(inFlight)
      ensures Abs() == ActAll(old(Abs()), actions)
      ensures S() == PerformedAll(old(S()), script) && actions == ActionsOf(old(S()), script)
      ensures forall limit :: old(CoveredUpTo(limit)) ==> CoveredUpTo(limit)
      ensures SameInFlight(old(heap))
    {
      hide Store.Valid, Store.Abs, Performed, ActionOf;
      AllOwned(S());
      actions := [];
      for i := 0 to |script|
        invariant Valid() && inFlight == old(inFlight)
        invariant Abs() == ActAll(old(Abs()), actions)
        invariant S() == PerformedAll(old(S()), script[..i]) && actions == ActionsOf(old(S()), script[..i])
        invariant forall limit :: old(CoveredUpTo(limit)) ==> CoveredUpTo(limit)
        invariant SameInFlight(old(heap))
      {
        assert script[..i + 1][..i] == script[..i];
        var action := PerformOne(script[i]);
        assert (actions + [action])[..|actions|] == actions;
        actions := actions + [action];
      }
      assert script[..|script|] == script;
    }

    method PerformOne(request: Request) returns (action: Action)
      requires Valid()
      modifies this`timers, this`activeTimers, this`cancelingTimers, this`heap, this`numCreated,
               this`timerfd, this`made, this`unlinked, this`inFlight
      ensures Valid() && inFlight == old(inFlight)
      ensures Abs() == Act(old(Abs()), action)
      ensures S() == Performed(old(S()), request) && action == ActionOf(old(S()), request)
      ensures forall limit :: old(CoveredUpTo(limit)) ==> CoveredUpTo(limit)
      ensures SameInFlight(old(heap))
    {
      hide Store.Valid, Store.Abs;
      CancelNothing(S());
      AllOwned(S());
      action := TimerSpec.Cancel(0);
      match request {
        case NewTimer(timer, alarm) =>
          if timer !in heap {
            var _ := New(timer, alarm);
            action := Create(alarm);
          }
        case AddTimerInLoop(id, clock) =>
          if id in unlinked {
            AddInLoop(id, clock);
            action := TimerSpec.Insert(id.sequence);
          }
        case CancelInLoop(id) =>
          if id.sequence == 0 || (id.sequence in made && made[id.sequence] == id.timer) {
            Cancel(id);
            action := TimerSpec.Cancel(id.sequence);
          }
      }
    }

    /** The timers of the batch are still allocated, and as they were. */
    ghost predicate SameInFlight(before: map<Addr, Timer>)
      reads this
    {
      forall id :: id in inFlight ==> id.timer in heap && id.timer in before && heap[id.timer] == before[id.timer]
    }

    /** The entries of `expired` are those of live timers that are still in activeTimers. */
    ghost predicate Linked(expired: seq<Entry>)
      reads this
    {
      forall e :: e in expired ==>
        e.timer in heap && e == S().EntryAt(e.timer) && S().IdAt(e.timer) in activeTimers
    }

    /** The second half of getExpired; every erase finds its element (n == 1). */
    method EraseActive(expired: seq<Entry>)
      requires Linked(expired) && Ascending(expired) && inFlight == {}
      modifies this`activeTimers, this`inFlight
      ensures activeTimers == old(activeTimers) - inFlight
      ensures forall id :: id in inFlight <==>
                id.timer in heap && id == S().IdAt(id.timer) && S().EntryAt(id.timer) in expired
      ensures Pending(expired, heap, inFlight)
    {
      for i := 0 to |expired|
        invariant activeTimers == old(activeTimers) - inFlight
        invariant forall id :: id in inFlight <==>
                    id.timer in heap && id == S().IdAt(id.timer) && S().EntryAt(id.timer) in expired[..i]
      {
        var it := expired[i];
        assert it in expired;
        var id := TimerId(it.timer, heap[it.timer].sequence);
        assert id in activeTimers by {
          assert forall k :: 0 <= k < i ==> Less(expired[k], it);
        }
        activeTimers, inFlight := activeTimers - {id}, inFlight + {id};
        assert expired[..i + 1] == expired[..i] + [it];
      }
      assert expired[..|expired|] == expired;
    }

    /** getExpired: everything due at `now`, exactly `now` included, leaves both indexes. */
    method GetExpired(now: int) returns (expired: seq<Entry>)
      requires Idle()
      modifies this`timers, this`activeTimers, this`inFlight
      ensures Valid() && S() == AfterTake(old(S()), now)
      ensures Ascending(expired) && Pending(expired, heap, inFlight)
      ensures forall e :: e in expired <==> e in old(timers) && e.when <= now
    {
      hide Store.Valid, Store.Abs;
      SizesAgree(S());
      AllOwned(S());
      TakeOk(S(), now);
      expired := CopyExpired(now);
      timers := set e | e in timers && e !in expired;
      EraseActive(expired);
      assert S() == AfterTake(old(S()), now);
      SizesAgree(S());
    }

    /** std::copy(begin, lower_bound of (now, UINTPTR_MAX)). */
    method CopyExpired(now: int) returns (expired: seq<Entry>)
      ensures Ascending(expired)
      ensures forall e :: e in expired <==> e in timers && e.when <= now
    {
      expired := [];
      var rest := timers;
      while rest != {}
        invariant Ascending(expired)
        invariant forall e :: e in timers <==> e in rest || e in expired
        invariant forall e, x :: e in expired && x in rest ==> Less(e, x)
        invariant forall e :: e in expired ==> e.when <= now
        decreases rest
      {
        var e := First(rest);
        if now < e.when { break; }
        expired, rest := expired + [e], rest - {e};
      }
      assert forall e :: e in rest ==> now < e.when;    // end == timers_.end() || now < end->first
    }

    /** One turn of reset's loop. */
    method ResetOne(ghost expired: seq<Entry>, it: Entry, now: int)
      requires Valid() && !callingExpiredTimers && expired != [] && it == expired[0] && Pending(expired, heap, inFlight)
      requires now > 0 && CoveredUpTo(0)
      modifies this`timers, this`activeTimers, this`heap, this`unlinked, this`inFlight
      ensures Valid() && Pending(expired[1..], heap, inFlight) && CoveredUpTo(0)
      ensures Finish(Abs(), now) == Finish(old(Abs()), now)
    {
      hide Store.Valid, Store.Abs;
      AllOwned(S());
      assert it in expired && expired == [it] + expired[1..];
      var timer := TimerId(it.timer, heap[it.timer].sequence);
      if heap[it.timer].repeat && timer !in cancelingTimers {
        ReinsertOk(S(), timer, now);
        heap := heap[it.timer := heap[it.timer].(expiration := now + heap[it.timer].delta)];   // restart
        assert S() == Restarted(old(S()), it.timer, now);
        var _ := Insert(it.timer);
      } else {
        DeleteOk(S(), timer, now);
        heap := heap - {it.timer};                                                              // delete
        inFlight := inFlight - {timer};
        assert S() == AfterDelete(old(S()), it.timer);
      }
    }

    method Reset(expired: seq<Entry>, now: int, clock: int)
      requires Valid() && !callingExpiredTimers && Pending(expired, heap, inFlight)
      requires now > 0 && CoveredUpTo(0)
      modifies this`timers, this`activeTimers, this`heap, this`unlinked, this`inFlight, this`timerfd
      ensures Idle() && NothingLost()
      ensures Abs() == Finish(old(Abs()), now)
    {
      hide Store.Valid, Store.Abs;
      for i := 0 to |expired|
        invariant Valid() && Pending(expired[i..], heap, inFlight) && CoveredUpTo(0)
        invariant Finish(Abs(), now) == Finish(old(Abs()), now)
      {
        ResetOne(expired[i..], expired[i], now);
        assert expired[i..][1..] == expired[i + 1..];
      }
      assert inFlight == {};
      FinishEmpty(S(), now);
      if timers != {} {
        var first := First(timers);
        var nextExpire := first.when;
        if nextExpire > 0 {
          ResetTimerfd(nextExpire, clock);
        }
      }
    }

    /** The loop of handleRead: runs each callback, which may use the queue while it runs. */
    method RunExpired(expired: seq<Entry>, scripts: seq<seq<Request>>)
      returns (fired: seq<nat>, actions: seq<Action>)
      requires Valid() && Pending(expired, heap, inFlight) && CoveredUpTo(0)
      modifies this`timers, this`activeTimers, this`cancelingTimers, this`heap, this`numCreated,
               this`timerfd, this`made, this`unlinked, this`inFlight
      ensures Valid() && Pending(expired, heap, inFlight) && CoveredUpTo(0)
      ensures Abs() == ActAll(old(Abs()), actions)
      ensures S() == PerformedAll(old(S()), Flat(scripts, |expired|))
      ensures actions == ActionsOf(old(S()), Flat(scripts, |expired|))
      ensures |fired| == |expired|
      ensures forall k :: 0 <= k < |expired| ==> Ran(old(heap), expired[k], fired[k])
    {
      hide Store.Valid, Store.Abs, PerformedAll, ActionsOf, Flat, ActAll;
      RunNothing(S(), Abs(), scripts);
      fired, actions := [], [];
      for i := 0 to |expired|
        invariant Valid() && inFlight == old(inFlight) && SameInFlight(old(heap)) && CoveredUpTo(0)
        invariant |fired| == i
        invariant forall k :: 0 <= k < i ==> Ran(old(heap), expired[k], fired[k])
        invariant Abs() == ActAll(old(Abs()), actions)
        invariant S() == PerformedAll(old(S()), Flat(scripts, i)) && actions == ActionsOf(old(S()), Flat(scripts, i))
      {
        var it := expired[i];
        assert it in expired;
        fired := fired + [heap[it.timer].sequence];      // it.second->run()
        var script := if i < |scripts| then scripts[i] else [];
        var more := Perform(script);
        ActAllAppend(old(Abs()), actions, more);
        PerformInTwo(old(S()), Flat(scripts, i), script);
        FlatNext(scripts, i);
        actions := actions + more;
      }
    }

    /** handleRead.  `consumed` says whether reading the timerfd found it expired; `scripts[k]` is
        what happens during the k-th callback.  The results name the callbacks that were run, in
        order, and the calls made meanwhile. */
    method HandleRead(now: int, consumed: bool, scripts: seq<seq<Request>>, clock: int)
      returns (fired: seq<nat>, actions: seq<Action>)
      requires Idle() && now > 0
      modifies this
      ensures Idle() && NothingLost()
      ensures IsBatchOrder(fired, old(Abs()), now)
      ensures Abs() == Do(old(Abs()), Batch(now, actions))
      ensures actions == ActionsOf(Begun(old(S()), now), Flat(scripts, |fired|))
      ensures made == PerformedAll(Begun(old(S()), now), Flat(scripts, |fired|)).made
    {
      hide Store.Valid, Store.Abs, Pending, Begin, ActAll, Finish, IsBatchOrder, Ran, PerformedAll, ActionsOf;
      if consumed {
        timerfd := Disarmed;           // readTimerfd
      }
      TakeOk(S(), now);
      var expired := GetExpired(now);
      callingExpiredTimers := true;
      cancelingTimers := {};
      assert S() == AfterTake(old(S()), now).(calling := true, canceling := {});
      fired, actions := RunExpired(expired, scripts);
      CallingOff(S(), now);
      ghost var ran := S();
      callingExpiredTimers := false;
      assert S() == ran.(calling := false);
      Reset(expired, now, clock);
      BatchOrder(old(S()), expired, fired, now);
      assert |fired| == |expired|;
    }

    /** A whole life of the queue: any steps, in any order.  `evs` are the events the steps make,
        `fired` the callbacks each of them runs, `stores` the states in between.  The queue is
        where the schedule says it should be, a callback runs in a step exactly when the schedule
        says so, and between steps no timer is lost. */
    method RunSteps(steps: seq<Step>) returns (evs: seq<Event>, fired: seq<seq<nat>>, ghost stores: seq<Store>)
      requires Idle() && NothingLost()
      requires forall step :: step in steps && step.Wake? ==> step.now > 0
      modifies this
      ensures Idle() && NothingLost()
      ensures |evs| == |fired| == |steps| && Lives(old(S()), old(Abs()), steps, evs, fired, stores)
      ensures stores[|steps|] == S() && Abs() == TimerSpec.Run(old(Abs()), evs)
      ensures forall i, n :: 0 <= i < |steps| ==> (n in fired[i] <==> FiresAt(old(Abs()), evs, i, n))
      ensures forall i, j, n :: 0 <= i < j < |steps| && n in fired[i] && n in fired[j] ==>
                Repeats(TimerSpec.Run(old(Abs()), evs[..i]), n)
      ensures KeepsTime(steps, fired, stores)
    {
      hide Store.MadeOk, Store.OwnersOk, Store.IndexesOk, Store.Abs, Do, Happens, MadeBy, FiresAt, Repeats, Lives,
           KeepsTime;
      evs, fired, stores := [], [], [S()];
      NothingLived(S(), steps);
      for i := 0 to |steps|
        invariant Idle() && NothingLost()
        invariant |evs| == |fired| == i && |stores| == i + 1 && stores[i] == S()
        invariant Abs() == TimerSpec.Run(old(Abs()), evs)
        invariant Lives(old(S()), old(Abs()), steps, evs, fired, stores)
      {
        assert steps[i] in steps;
        var ev, ran := TakeStep(steps[i]);
        LivesOn(old(S()), old(Abs()), steps, evs, fired, stores, ev, ran, S());
        RunLonger(old(Abs()), evs, ev);
        evs, fired, stores := evs + [ev], fired + [ran], stores + [S()];
      }
      FiredIsScheduled(old(S()), steps, evs, fired, stores);
      TimeIsKept(old(S()), steps, evs, fired, stores);
    }

    method TakeStep(step: Step) returns (ev: Event, fired: seq<nat>)
      requires Idle() && NothingLost() && (step.Wake? ==> step.now > 0)
      modifies this
      ensures Idle() && NothingLost()
      ensures Happens(old(S()), step, ev, fired) && made == MadeBy(old(S()), step, fired)
      ensures Abs() == Do(old(Abs()), ev)
    {
      hide Store.MadeOk, Store.IndexesOk, Store.Abs, Do, IsBatchOrder, Performed, PerformedAll, ActionOf, ActionsOf;
      match step {
        case Use(request) =>
          assert forall e :: e in timers ==> CoveredUpTo(e.when);
          var action := PerformOne(request);
          assert forall e :: e in timers ==> CoveredUpTo(e.when);
          ev, fired := Call(action), [];
          CallIsAct(old(Abs()), action);
        case Wake(now, consumed, scripts, clock) =>
          var actions;
          fired, actions := HandleRead(now, consumed, scripts, clock);
          ev := Batch(now, actions);
      }
    }
  }

  /** runAt and runEvery on a new queue: the callback runs at the first wakeup at or past its time, and, if
      the timer repeats, at every wakeup one interval or more after the one before. */
  method RunEvery(timer: Addr, alarm: Alarm, clock: int, wakes: seq<int>) returns (fired: seq<seq<nat>>)
    requires wakes != [] && alarm.when <= wakes[0] && forall i :: 0 <= i < |wakes| ==> wakes[i] > 0
    requires forall i :: 0 < i < |wakes| ==> wakes[i - 1] + alarm.delta <= wakes[i]
    ensures |fired| == |wakes| + 2 && 1 in fired[2]
    ensures forall i :: 2 < i < |fired| ==> (1 in fired[i] <==> alarm.repeat)
  {
    hide Lives, KeepsTime;
    var queue := new TimerQueue();
    var steps := [Use(NewTimer(timer, alarm)), Use(AddTimerInLoop(TimerId(timer, 1), clock))] +
                 seq(|wakes|, i requires 0 <= i < |wakes| => Wake(wakes[i], true, [], wakes[i]));
    var evs;
    ghost var stores;
    ghost var s := queue.S();
    evs, fired, stores := queue.RunSteps(steps);
    FirstRuns(s, steps, evs, fired, stores, timer, alarm, clock);
  }

  lemma CallIsAct(s: Schedule, action: Action)
    ensures Do(s, Call(action)) == Act(s, action)
  {
  }

  ghost predicate Ran(heap: map<Addr, Timer>, e: Entry, n: nat) {
    e.timer in heap && n == heap[e.timer].sequence
  }

  lemma ActAllAppend(s: Schedule, a: seq<Action>, b: seq<Action>)
    ensures ActAll(s, a + b) == ActAll(ActAll(s, a), b)
  {
    ActAllSplit(s, a + b, |a|);
    assert (a + b)[..|a|] == a && (a + b)[|a|..] == b;
  }

  lemma BatchOrder(s: Store, expired: seq<Entry>, fired: seq<nat>, now: int)
    requires s.Valid() && Ascending(expired)
    requires forall e :: e in expired <==> e in s.timers && e.when <= now
    requires |fired| == |expired|
    requires forall k :: 0 <= k < |expired| ==> Ran(s.heap, expired[k], fired[k])
    ensures IsBatchOrder(fired, s.Abs(), now)
  {
    forall k | 0 <= k < |fired|
      ensures fired[k] in s.Abs().alarms && s.Abs().alarms[fired[k]].when == expired[k].when <= now
      ensures s.made[fired[k]] == expired[k].timer
    {
      assert expired[k] in expired;
      assert s.Has(s.active, fired[k]);
    }
    forall n | n in Due(s.Abs(), now) ensures n in fired {
      assert s.Has(s.active, n);
      var e := s.EntryAt(s.made[n]);
      assert e in expired;
    }
  }
}
