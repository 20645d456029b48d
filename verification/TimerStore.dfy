/** The state of a timer queue as one value, what makes it consistent, and which abstract
    schedule it stands for.  Memory is a map from address to timer: addresses can be reused
    after `delete`, every dereference needs a proof that the timer is still allocated, and
    every allocated timer is accounted for. */
module TimerStore {
  import opened TimerSpec

  const UINTPTR_MAX: nat := 0xFFFF_FFFF_FFFF_FFFF

  type Addr = a: nat | 0 < a < UINTPTR_MAX witness 1

  datatype Timer = Timer(expiration: int, repeat: bool, delta: nat, sequence: nat)

  /** A handle as returned by addTimer; the default-constructed one has sequence 0. */
  datatype TimerId = TimerId(timer: Addr, sequence: nat)

  datatype Entry = Entry(when: int, timer: Addr)

  /** The kernel's view of the timerfd: when it becomes readable, and when it was set. */
  datatype Armed = Disarmed | Armed(at: int, setAt: int)

  // ---- std::set<Entry>: a set together with the order it is iterated in ----

  predicate Less(a: Entry, b: Entry) {
    a.when < b.when || (a.when == b.when && a.timer < b.timer)
  }

  ghost predicate IsFirst(s: set<Entry>, e: Entry) {
    e in s && forall x :: x in s ==> x == e || Less(e, x)
  }

  lemma {:induction false} FirstExists(s: set<Entry>) returns (e: Entry)
    requires s != {}
    ensures IsFirst(s, e)
  {
    var x :| x in s;
    var rest := s - {x};
    assert s == rest + {x};
    if rest == {} {
      e := x;
    } else {
      var y := FirstExists(rest);
      e := if Less(x, y) then x else y;
    }
  }

  /** *timers.begin() */
  method First(s: set<Entry>) returns (e: Entry)
    requires s != {}
    ensures IsFirst(s, e)
  {
    ghost var w := FirstExists(s);
    assert IsFirst(s, w);
    e :| e in s && forall x :: x in s ==> x == e || Less(e, x);
  }

  // ---- The whole state ----

  datatype Store = Store(
    timers: set<Entry>,
    active: set<TimerId>,
    calling: bool,
    canceling: set<TimerId>,
    heap: map<Addr, Timer>,      // the timers allocated and not deleted
    issued: nat,                 // Timer::s_numCreated_
    made: map<nat, Addr>,        // every handle addTimer ever returned
    unlinked: set<TimerId>,      // timers whose addTimerInLoop has not run yet
    inFlight: set<TimerId>)      // the timers of handleRead's local vector
  {
    predicate Live(id: TimerId) {
      id.timer in heap && heap[id.timer].sequence == id.sequence
    }

    /** A handle that addTimer returned at some time, or the default one; never a forged pair. */
    predicate Issued(id: TimerId) {
      id.sequence == 0 || Known(id)
    }

    predicate Known(id: TimerId) {
      id.sequence in made && made[id.sequence] == id.timer
    }

    function IdAt(a: Addr): TimerId
      requires a in heap
    {
      TimerId(a, heap[a].sequence)
    }

    function EntryAt(a: Addr): Entry
      requires a in heap
    {
      Entry(heap[a].expiration, a)
    }

    ghost predicate MadeOk() {
      && (forall n :: n in made <==> 1 <= n <= issued)
      && (forall a :: a in heap ==> heap[a].sequence in made && made[heap[a].sequence] == a)
      && (forall id :: id in canceling ==> Issued(id))
    }

    /** Every allocated timer is in exactly one of the three places that will free it. */
    ghost predicate OwnersOk() {
      && (forall id :: id in active ==> id !in unlinked && id !in inFlight)
      && (forall id :: id in unlinked ==> id !in inFlight)
      && (forall id :: id in active ==> Live(id))
      && (forall id :: id in unlinked ==> Live(id))
      && (forall id :: id in inFlight ==> Live(id))
      && (forall a :: a in heap ==> IdAt(a) in active || IdAt(a) in unlinked || IdAt(a) in inFlight)
    }

    /** Both indexes hold exactly the same timers, keyed by their current expiration. */
    ghost predicate IndexesOk()
      requires OwnersOk()
    {
      && (forall e :: e in timers ==> e.timer in heap && IdAt(e.timer) in active && e == EntryAt(e.timer))
      && (forall id :: id in active ==> EntryAt(id.timer) in timers)
    }

    ghost predicate Valid() {
      MadeOk() && OwnersOk() && IndexesOk()
    }

    predicate IsDue(id: TimerId, now: int) {
      id.timer in heap && heap[id.timer].expiration <= now
    }

    ghost predicate Has(ids: set<TimerId>, n: nat) {
      n in made && TimerId(made[n], n) in ids
    }

    ghost function AlarmAt(a: Addr): Alarm
      requires a in heap
    {
      Alarm(heap[a].expiration, heap[a].repeat, heap[a].delta)
    }

    ghost function AlarmsOf(ids: set<TimerId>): map<nat, Alarm>
      requires forall id :: id in ids ==> Live(id)
    {
      map n | n in made && Has(ids, n) :: (assert Live(TimerId(made[n], n)); AlarmAt(made[n]))
    }

    /** The abstract schedule this state stands for. */
    ghost function Abs(): Schedule
      requires OwnersOk()
    {
      Schedule(AlarmsOf(unlinked), AlarmsOf(active), AlarmsOf(inFlight),
               (set n | n in made && Has(canceling, n)), calling, issued)
    }
  }

  /** Handles whose timers two states agree on stand for the same alarms in both. */
  lemma SameAlarms(s: Store, t: Store, ids: set<TimerId>)
    requires forall id :: id in ids ==> s.Live(id) && t.Live(id) && s.AlarmAt(id.timer) == t.AlarmAt(id.timer)
    requires forall id :: id in ids ==> s.Known(id) && t.Known(id)
    ensures s.AlarmsOf(ids) == t.AlarmsOf(ids)
  {
    assert forall n :: s.Has(ids, n) ==> t.Has(ids, n);
    assert forall n :: t.Has(ids, n) ==> s.Has(ids, n);
  }

  /** One handle more: one alarm more. */
  lemma OneMore(s: Store, ids: set<TimerId>, id: TimerId)
    requires s.MadeOk() && s.Live(id) && forall x :: x in ids ==> s.Live(x)
    ensures s.AlarmsOf(ids + {id}) == s.AlarmsOf(ids)[id.sequence := s.AlarmAt(id.timer)]
    ensures id !in ids ==> id.sequence !in s.AlarmsOf(ids) && s.AlarmsOf(ids + {id}) - {id.sequence} == s.AlarmsOf(ids)
  {
    assert s.made[id.sequence] == id.timer;
    assert forall n :: s.Has(ids + {id}, n) <==> s.Has(ids, n) || n == id.sequence;
  }

  // ---- What each operation does to the value ----

  function AfterNew(s: Store, a: Addr, alarm: Alarm): Store {
    s.(issued := s.issued + 1,
       heap := s.heap[a := Timer(alarm.when, alarm.repeat, alarm.delta, s.issued + 1)],
       made := s.made[s.issued + 1 := a],
       unlinked := s.unlinked + {TimerId(a, s.issued + 1)})
  }

  lemma NewValid(s: Store, a: Addr, alarm: Alarm)
    requires s.MadeOk() && s.OwnersOk() && s.IndexesOk() && a !in s.heap
    ensures var t := AfterNew(s, a, alarm); t.MadeOk() && t.OwnersOk() && t.IndexesOk()
  {
    hide Store.MadeOk, Store.OwnersOk, Store.IndexesOk;
    NewMade(s, a, alarm);
    NewOwned(s, a, alarm);
    NewIndexed(s, a, alarm);
  }

  lemma NewMade(s: Store, a: Addr, alarm: Alarm)
    requires s.MadeOk()
    ensures AfterNew(s, a, alarm).MadeOk()
  {
  }

  lemma NewOwned(s: Store, a: Addr, alarm: Alarm)
    requires s.MadeOk() && s.OwnersOk() && a !in s.heap
    ensures AfterNew(s, a, alarm).OwnersOk()
  {
  }

  lemma NewIndexed(s: Store, a: Addr, alarm: Alarm)
    requires s.OwnersOk() && s.IndexesOk() && a !in s.heap && AfterNew(s, a, alarm).OwnersOk()
    ensures AfterNew(s, a, alarm).IndexesOk()
  {
  }

  lemma NewAbs(s: Store, a: Addr, alarm: Alarm)
    requires s.MadeOk() && s.OwnersOk() && a !in s.heap
    requires AfterNew(s, a, alarm).OwnersOk() && AfterNew(s, a, alarm).MadeOk()
    ensures AfterNew(s, a, alarm).Abs() == Act(s.Abs(), Create(alarm))
  {
    hide Store.MadeOk, Store.OwnersOk, Store.AlarmsOf;
    var t := AfterNew(s, a, alarm);
    NewKeeps(s, a, alarm);
    SameAlarms(s, t, s.unlinked);
    OneMore(t, s.unlinked, TimerId(a, t.issued));
    SameAlarms(s, t, s.active);
    SameAlarms(s, t, s.inFlight);
  }

  /** The timers already there, and the cancellations, are not touched. */
  lemma NewKeeps(s: Store, a: Addr, alarm: Alarm)
    requires s.MadeOk() && s.OwnersOk() && a !in s.heap
    ensures var t := AfterNew(s, a, alarm);
            && (forall id :: id in s.unlinked || id in s.active || id in s.inFlight ==>
                 s.Live(id) && t.Live(id) && s.AlarmAt(id.timer) == t.AlarmAt(id.timer) && s.Known(id) && t.Known(id))
            && t.Live(TimerId(a, t.issued))
            && (set n | n in t.made && t.Has(t.canceling, n)) == (set n | n in s.made && s.Has(s.canceling, n))
  {
    var t := AfterNew(s, a, alarm);
    assert forall n :: t.Has(t.canceling, n) <==> s.Has(s.canceling, n);
  }

  /** Linking a timer into both indexes, from wherever it is now. */
  function AfterInsert(s: Store, a: Addr): Store
    requires a in s.heap
  {
    s.(timers := s.timers + {s.EntryAt(a)}, active := s.active + {s.IdAt(a)},
       unlinked := s.unlinked - {s.IdAt(a)}, inFlight := s.inFlight - {s.IdAt(a)})
  }

  lemma InsertValid(s: Store, a: Addr)
    requires s.OwnersOk() && s.IndexesOk() && a in s.heap && s.IdAt(a) !in s.active
    ensures s.EntryAt(a) !in s.timers
    ensures AfterInsert(s, a).OwnersOk() && AfterInsert(s, a).IndexesOk()
  {
  }

  lemma InsertAbs(s: Store, a: Addr)
    requires s.MadeOk() && s.OwnersOk() && a in s.heap && s.IdAt(a) in s.unlinked
    requires AfterInsert(s, a).OwnersOk()
    ensures AfterInsert(s, a).Abs() == Act(s.Abs(), TimerSpec.Insert(s.heap[a].sequence))
  {
    var t := AfterInsert(s, a);
    OneMore(s, t.unlinked, s.IdAt(a));
    assert t.unlinked + {s.IdAt(a)} == s.unlinked && t.inFlight == s.inFlight;
    SameAlarms(s, t, t.unlinked);
    OneMore(s, s.active, s.IdAt(a));
    SameAlarms(s, t, t.active);
    SameAlarms(s, t, t.inFlight);
  }

  /** Erasing an active timer from both indexes and deleting it. */
  function AfterErase(s: Store, a: Addr): Store
    requires a in s.heap
  {
    s.(timers := s.timers - {s.EntryAt(a)}, active := s.active - {s.IdAt(a)}, heap := s.heap - {a})
  }

  lemma EraseValid(s: Store, a: Addr)
    requires s.MadeOk() && s.OwnersOk() && s.IndexesOk() && a in s.heap && s.IdAt(a) in s.active
    ensures s.EntryAt(a) in s.timers
    ensures var t := AfterErase(s, a); t.MadeOk() && t.OwnersOk() && t.IndexesOk()
  {
  }

  lemma EraseAbs(s: Store, a: Addr)
    requires s.MadeOk() && s.OwnersOk() && a in s.heap && s.IdAt(a) in s.active
    requires AfterErase(s, a).OwnersOk()
    ensures AfterErase(s, a).Abs() == Act(s.Abs(), Cancel(s.heap[a].sequence))
  {
    var t := AfterErase(s, a);
    OneMore(s, t.active, s.IdAt(a));
    assert t.active + {s.IdAt(a)} == s.active;
    SameAlarms(s, t, t.unlinked);
    SameAlarms(s, t, t.active);
    SameAlarms(s, t, t.inFlight);
  }

  /** A cancel that finds no active timer: remembered only while a batch is running. */
  function AfterMiss(s: Store, id: TimerId): Store {
    if s.calling then s.(canceling := s.canceling + {id}) else s
  }

  lemma MissAbs(s: Store, id: TimerId)
    requires s.MadeOk() && s.OwnersOk() && s.Issued(id) && id !in s.active
    ensures AfterMiss(s, id).Abs() == Act(s.Abs(), Cancel(id.sequence))
  {
    var t, n := AfterMiss(s, id), id.sequence;
    assert n !in s.Abs().alarms;
    assert t.AlarmsOf(t.unlinked) == s.AlarmsOf(s.unlinked);
    assert t.AlarmsOf(t.active) == s.AlarmsOf(s.active);
    assert t.AlarmsOf(t.inFlight) == s.AlarmsOf(s.inFlight);
    if s.calling && 1 <= n <= s.issued {
      assert t.Abs().stopping == s.Abs().stopping + {n};
    } else {
      assert t.Abs().stopping == s.Abs().stopping;
    }
  }

  /** getExpired and the three lines after it: everything due moves from the indexes to the
      local vector. */
  function AfterTake(s: Store, now: int): Store {
    s.(timers := (set e | e in s.timers && e.when > now),
       active := (set id | id in s.active && !s.IsDue(id, now)),
       inFlight := (set id | id in s.active && s.IsDue(id, now)))
  }

  lemma TakeValid(s: Store, now: int)
    requires s.MadeOk() && s.OwnersOk() && s.IndexesOk() && s.inFlight == {}
    ensures var t := AfterTake(s, now); t.MadeOk() && t.OwnersOk() && t.IndexesOk()
  {
  }

  lemma TakeAbs(s: Store, now: int)
    requires s.MadeOk() && s.OwnersOk() && s.inFlight == {}
    requires AfterTake(s, now).OwnersOk()
    ensures AfterTake(s, now).(calling := true, canceling := {}).Abs() == Begin(s.Abs(), now)
  {
    var t := AfterTake(s, now).(calling := true, canceling := {});
    SameAlarms(s, t, t.unlinked);
    SameAlarms(s, t, t.active);
    SameAlarms(s, t, t.inFlight);
    DueAlarms(s, now);
    NotDueAlarms(s, now);
  }

  lemma DueAlarms(s: Store, now: int)
    requires s.MadeOk() && s.OwnersOk()
    ensures s.AlarmsOf(AfterTake(s, now).inFlight) == Due(s.Abs(), now)
  {
    var t := AfterTake(s, now);
    assert forall n :: s.Has(t.inFlight, n) <==> s.Has(s.active, n) && s.heap[s.made[n]].expiration <= now;
  }

  lemma NotDueAlarms(s: Store, now: int)
    requires s.MadeOk() && s.OwnersOk()
    ensures s.AlarmsOf(AfterTake(s, now).active) == s.AlarmsOf(s.active) - Due(s.Abs(), now).Keys
  {
    var t := AfterTake(s, now);
    assert forall n :: s.Has(t.active, n) <==> s.Has(s.active, n) && s.heap[s.made[n]].expiration > now;
  }

  /** reset, first case: a repeating timer nobody cancelled is restarted and inserted again. */
  function Restarted(s: Store, a: Addr, now: int): Store
    requires a in s.heap
  {
    s.(heap := s.heap[a := s.heap[a].(expiration := now + s.heap[a].delta)])
  }

  lemma RestartValid(s: Store, a: Addr, now: int)
    requires s.MadeOk() && s.OwnersOk() && s.IndexesOk() && a in s.heap && s.IdAt(a) in s.inFlight
    ensures var r := Restarted(s, a, now); r.MadeOk() && r.OwnersOk() && r.IndexesOk()
  {
  }

  lemma RestartAbs(s: Store, a: Addr, now: int)
    requires s.MadeOk() && s.OwnersOk() && a in s.heap && s.IdAt(a) in s.inFlight
    requires Restarted(s, a, now).OwnersOk()
    ensures Finish(Restarted(s, a, now).Abs(), now) == Finish(s.Abs(), now)
  {
    var r := Restarted(s, a, now);
    SameAlarms(s, r, s.active);
    SameAlarms(s, r, s.unlinked);
    FiringAgain(s.Abs(), r.Abs(), now);
  }

  /** A renewal does not depend on when the alarm was due. */
  lemma FiringAgain(s: Schedule, t: Schedule, now: int)
    requires t == s.(firing := t.firing) && t.firing.Keys == s.firing.Keys
    requires forall n :: n in s.firing ==> t.firing[n] == s.firing[n].(when := t.firing[n].when)
    ensures Finish(t, now) == Finish(s, now)
  {
    assert Renewals(t, now) == Renewals(s, now);
  }

  /** Finishing the batch from here or after this timer's turn comes to the same. */
  lemma ReinsertAbs(s: Store, a: Addr, now: int)
    requires s.MadeOk() && s.OwnersOk() && a in s.heap && s.IdAt(a) in s.inFlight
    requires s.heap[a].repeat && s.IdAt(a) !in s.canceling && s.heap[a].expiration == now + s.heap[a].delta
    requires AfterInsert(s, a).OwnersOk()
    ensures Finish(AfterInsert(s, a).Abs(), now) == Finish(s.Abs(), now)
  {
    var t, id := AfterInsert(s, a), s.IdAt(a);
    OneMore(s, t.inFlight, id);
    assert t.inFlight + {id} == s.inFlight && t.unlinked == s.unlinked;
    SameAlarms(s, t, t.inFlight);
    SameAlarms(s, t, t.active);
    SameAlarms(s, t, t.unlinked);
    OneMore(s, s.active, id);
    FinishOne(s.Abs(), t.Abs(), id.sequence, now);
  }

  /** reset, second case: the timer is deleted. */
  function AfterDelete(s: Store, a: Addr): Store
    requires a in s.heap
  {
    s.(heap := s.heap - {a}, inFlight := s.inFlight - {s.IdAt(a)})
  }

  lemma DeleteValid(s: Store, a: Addr)
    requires s.MadeOk() && s.OwnersOk() && s.IndexesOk() && a in s.heap && s.IdAt(a) in s.inFlight
    ensures var t := AfterDelete(s, a); t.MadeOk() && t.OwnersOk() && t.IndexesOk()
  {
  }

  lemma DeleteAbs(s: Store, a: Addr, now: int)
    requires s.MadeOk() && s.OwnersOk() && a in s.heap && s.IdAt(a) in s.inFlight
    requires !s.heap[a].repeat || s.IdAt(a) in s.canceling
    requires AfterDelete(s, a).OwnersOk() && AfterDelete(s, a).MadeOk()
    ensures Finish(AfterDelete(s, a).Abs(), now) == Finish(s.Abs(), now)
  {
    var t, id := AfterDelete(s, a), s.IdAt(a);
    OneMore(s, t.inFlight, id);
    assert t.inFlight + {id} == s.inFlight;
    SameAlarms(s, t, t.inFlight);
    SameAlarms(s, t, t.active);
    SameAlarms(s, t, t.unlinked);
    assert t.Abs().stopping == s.Abs().stopping;
    assert id in s.canceling ==> s.Has(s.canceling, id.sequence);
    FinishOne(s.Abs(), t.Abs(), id.sequence, now);
  }

  lemma FinishOne(s: Schedule, t: Schedule, n: nat, now: int)
    requires n in s.firing
    requires t == s.(firing := s.firing - {n},
                     alarms := if Renewable(s, n) then s.alarms[n := Renewed(s.firing[n], now)] else s.alarms)
    ensures Finish(t, now) == Finish(s, now)
  {
    assert Renewals(t, now) == Renewals(s, now) - {n};
    if Renewable(s, n) {
      var r := Renewed(s.firing[n], now);
      assert s.alarms[n := r] + Renewals(t, now) == s.alarms + Renewals(s, now);
    }
  }

  // ---- The same facts as the class uses them ----

  lemma Owned(s: Store, id: TimerId)
    requires s.Valid()
    requires id in s.active || id in s.unlinked || id in s.inFlight
    ensures s.Live(id) && s.IdAt(id.timer) == id
    ensures id in s.active ==> id !in s.unlinked && id !in s.inFlight && s.EntryAt(id.timer) in s.timers
    ensures id in s.unlinked ==> id !in s.inFlight
  {
  }

  /** The assert at both ends of insert, cancelInLoop and getExpired: agreeing indexes have
      the same size. */
  lemma SizesAgree(s: Store)
    requires s.Valid()
    ensures |s.timers| == |s.active|
  {
    SameSize(s, s.active, s.timers);
  }

  lemma {:induction false} SameSize(s: Store, ids: set<TimerId>, es: set<Entry>)
    requires forall id :: id in ids ==> s.Live(id) && s.EntryAt(id.timer) in es
    requires forall e :: e in es ==> e.timer in s.heap && s.IdAt(e.timer) in ids && e == s.EntryAt(e.timer)
    ensures |ids| == |es|
  {
    if id :| id in ids {
      SameSize(s, ids - {id}, es - {s.EntryAt(id.timer)});
    } else {
      assert es == {};
    }
  }

  lemma NewOk(s: Store, a: Addr, alarm: Alarm)
    requires s.Valid() && a !in s.heap
    ensures AfterNew(s, a, alarm).Valid()
    ensures AfterNew(s, a, alarm).Abs() == Act(s.Abs(), Create(alarm))
    ensures AfterNew(s, a, alarm).Abs().created == s.Abs().created[s.issued + 1 := alarm]
    ensures AfterNew(s, a, alarm).AlarmAt(a) == alarm
  {
    NewValid(s, a, alarm);
    NewAbs(s, a, alarm);
  }

  lemma InsertOk(s: Store, a: Addr)
    requires s.Valid() && a in s.heap && s.IdAt(a) !in s.active
    ensures s.EntryAt(a) !in s.timers && AfterInsert(s, a).Valid()
    ensures s.IdAt(a) in s.unlinked ==>
              AfterInsert(s, a).Abs() == Act(s.Abs(), TimerSpec.Insert(s.heap[a].sequence))
  {
    hide Store.Abs;
    InsertValid(s, a);
    if s.IdAt(a) in s.unlinked { InsertAbs(s, a); }
  }

  lemma EraseOk(s: Store, id: TimerId)
    requires s.Valid() && id in s.active
    ensures s.Live(id) && s.EntryAt(id.timer) in s.timers && AfterErase(s, id.timer).Valid()
    ensures AfterErase(s, id.timer).Abs() == Act(s.Abs(), TimerSpec.Cancel(id.sequence))
  {
    hide Store.Abs;
    EraseValid(s, id.timer);
    EraseAbs(s, id.timer);
  }

  lemma MissOk(s: Store, id: TimerId)
    requires s.Valid() && s.Issued(id) && id !in s.active
    ensures AfterMiss(s, id).Valid()
    ensures AfterMiss(s, id).Abs() == Act(s.Abs(), TimerSpec.Cancel(id.sequence))
  {
    MissAbs(s, id);
  }

  lemma TakeOk(s: Store, now: int)
    requires s.Valid() && s.inFlight == {}
    ensures AfterTake(s, now).Valid()
    ensures AfterTake(s, now).(calling := true, canceling := {}).Valid()
    ensures AfterTake(s, now).(calling := true, canceling := {}).Abs() == Begin(s.Abs(), now)
  {
    hide Store.Abs;
    TakeValid(s, now);
    TakeAbs(s, now);
  }

  lemma ReinsertOk(s: Store, id: TimerId, now: int)
    requires s.Valid() && id in s.inFlight && s.Live(id) && s.heap[id.timer].repeat && id !in s.canceling
    ensures var r := Restarted(s, id.timer, now);
            r.Valid() && r.IdAt(id.timer) !in r.active && AfterInsert(r, id.timer).Valid() &&
            Finish(AfterInsert(r, id.timer).Abs(), now) == Finish(s.Abs(), now)
  {
    hide Store.Abs, Finish, Store.MadeOk, Store.IndexesOk;
    var r := Restarted(s, id.timer, now);
    RestartValid(s, id.timer, now);
    RestartAbs(s, id.timer, now);
    InsertMade(r, id.timer);
    InsertValid(r, id.timer);
    ReinsertAbs(r, id.timer, now);
  }

  lemma InsertMade(s: Store, a: Addr)
    requires s.MadeOk() && a in s.heap
    ensures AfterInsert(s, a).MadeOk()
  {
  }

  lemma DeleteOk(s: Store, id: TimerId, now: int)
    requires s.Valid() && id in s.inFlight && s.Live(id) && (!s.heap[id.timer].repeat || id in s.canceling)
    ensures AfterDelete(s, id.timer).Valid()
    ensures Finish(AfterDelete(s, id.timer).Abs(), now) == Finish(s.Abs(), now)
  {
    hide Store.Abs;
    DeleteValid(s, id.timer);
    DeleteAbs(s, id.timer, now);
  }

  lemma FinishEmpty(s: Store, now: int)
    requires s.Valid() && s.inFlight == {} && !s.calling
    ensures Finish(s.Abs(), now) == s.Abs()
  {
  }

  /** Cancelling the default handle changes nothing. */
  lemma CancelNothing(s: Store)
    requires s.Valid()
    ensures Act(s.Abs(), TimerSpec.Cancel(0)) == s.Abs()
  {
  }

  lemma AllOwned(s: Store)
    requires s.Valid()
    ensures forall id :: id in s.active || id in s.unlinked || id in s.inFlight ==> s.Live(id)
    ensures forall id :: id in s.inFlight ==> id !in s.active && id !in s.unlinked
    ensures forall e :: e in s.timers ==>
              e.timer in s.heap && e == s.EntryAt(e.timer) && s.IdAt(e.timer) in s.active
    ensures forall id :: id in s.active ==> s.EntryAt(id.timer) in s.timers
  {
  }

  lemma CallingOff(s: Store, now: int)
    requires s.Valid()
    ensures s.(calling := false).Valid()
    ensures Finish(s.(calling := false).Abs(), now) == Finish(s.Abs(), now)
  {
    hide Store.Abs;
    CallingOffValid(s);
    CallingOffAbs(s);
    var a := s.Abs();
    assert Renewals(a.(inBatch := false), now) == Renewals(a, now);
  }

  lemma CallingOffValid(s: Store)
    requires s.Valid()
    ensures s.(calling := false).Valid()
  {
    hide Store.Abs;
  }

  lemma CallingOffAbs(s: Store)
    requires s.OwnersOk() && s.MadeOk() && s.(calling := false).OwnersOk()
    ensures s.(calling := false).Abs() == s.Abs().(inBatch := false)
  {
    var t := s.(calling := false);
    SameAlarms(s, t, s.active);
    SameAlarms(s, t, s.unlinked);
    SameAlarms(s, t, s.inFlight);
    assert t.Abs().stopping == s.Abs().stopping;
  }
}
