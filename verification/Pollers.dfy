/** PollPoller and EPollPoller: two implementations of one map from descriptor to event mask.
    Masks are numbers, with 0 for kNoneEvent; descriptors are not negative. */
module Pollers {

  /** What the loop is interested in, descriptor by descriptor; an empty mask counts as none. */
  type Interest = map<nat, nat>

  function Updated(m: Interest, fd: nat, events: nat): Interest {
    if events == 0 then m - {fd} else m[fd := events]
  }

  class Channel {
    const fd: nat
    var events: nat
    var revents: nat
    var index: int

    constructor (fd: nat)
      ensures this.fd == fd && events == 0 && index == -1
    {
      this.fd, events, revents, index := fd, 0, 0, -1;
    }
  }

  // ---- The array of PollPoller ----

  /** struct pollfd; a negative `fd` makes poll(2) ignore the entry. */
  datatype PollFd = PollFd(fd: int, events: nat)

  function FdOf(p: PollFd): nat {
    if p.fd < 0 then -p.fd - 1 else p.fd
  }

  /** The descriptors poll(2) reports, in the order of the array. */
  function Ready(pollfds: seq<PollFd>, revents: seq<nat>): seq<nat>
    requires |pollfds| == |revents|
  {
    if pollfds == [] then []
    else
      var k := |pollfds| - 1;
      Ready(pollfds[..k], revents[..k]) + (if revents[k] > 0 then [FdOf(pollfds[k])] else [])
  }

  lemma ReadyNext(pollfds: seq<PollFd>, revents: seq<nat>, i: nat)
    requires |pollfds| == |revents| && i < |pollfds|
    ensures Ready(pollfds[..i + 1], revents[..i + 1]) ==
            Ready(pollfds[..i], revents[..i]) + (if revents[i] > 0 then [FdOf(pollfds[i])] else [])
  {
    assert pollfds[..i + 1][..i] == pollfds[..i] && revents[..i + 1][..i] == revents[..i];
  }

  lemma {:induction false} ReadyPrefix(pollfds: seq<PollFd>, revents: seq<nat>, i: nat)
    requires |pollfds| == |revents| && i <= |pollfds|
    ensures Ready(pollfds[..i], revents[..i]) <= Ready(pollfds, revents)
    decreases |pollfds| - i
  {
    if i < |pollfds| {
      ReadyNext(pollfds, revents, i);
      ReadyPrefix(pollfds, revents, i + 1);
    } else {
      assert pollfds[..i] == pollfds && revents[..i] == revents;
    }
  }

  /** An entry as updateChannel writes it for a channel it already has. */
  function EntryFor(fd: nat, events: nat): PollFd {
    PollFd(if events == 0 then -(fd as int) - 1 else fd, events)
  }

  /** The array together with the index each registered channel carries. */
  datatype Table = Table(pollfds: seq<PollFd>, index: map<nat, int>) {

    /** Indices are a bijection between the registered descriptors and the array. */
    ghost predicate Ok() {
      && (forall i :: 0 <= i < |pollfds| ==> FdOf(pollfds[i]) in index && index[FdOf(pollfds[i])] == i)
      && (forall fd :: fd in index ==> 0 <= index[fd] < |pollfds| && FdOf(pollfds[index[fd]]) == fd)
    }

    function Entry(fd: nat): PollFd
      requires fd in index && 0 <= index[fd] < |pollfds|
    {
      pollfds[index[fd]]
    }

    ghost function Watched(): Interest
      requires Ok()
    {
      map fd | fd in index && Entry(fd).events != 0 :: Entry(fd).events
    }
  }

  /** updateChannel, first case: a new entry at the end. */
  function Added(t: Table, fd: nat, events: nat): Table {
    Table(t.pollfds + [PollFd(fd, events)], t.index[fd := |t.pollfds|])
  }

  lemma AddedOk(t: Table, fd: nat, events: nat)
    requires t.Ok() && fd !in t.index
    ensures Added(t, fd, events).Ok()
    ensures Added(t, fd, events).Watched() == Updated(t.Watched(), fd, events)
  {
    var n := Added(t, fd, events);
    assert n.Ok();
    forall f | f in t.index ensures n.Entry(f) == t.Entry(f) {
    }
    assert n.Entry(fd) == PollFd(fd, events);
  }

  /** updateChannel, second case: the entry is rewritten in place. */
  function Changed(t: Table, fd: nat, events: nat): Table
    requires fd in t.index && 0 <= t.index[fd] < |t.pollfds|
  {
    t.(pollfds := t.pollfds[t.index[fd] := EntryFor(fd, events)])
  }

  lemma ChangedOk(t: Table, fd: nat, events: nat)
    requires t.Ok() && fd in t.index
    ensures Changed(t, fd, events).Ok()
    ensures Changed(t, fd, events).Watched() == Updated(t.Watched(), fd, events)
  {
    var n := Changed(t, fd, events);
    assert FdOf(EntryFor(fd, events)) == fd;
    assert n.Ok();
    assert forall f :: f in t.index && f != fd ==> n.Entry(f) == t.Entry(f);
  }

  /** removeChannel: the last entry takes the place of the removed one. */
  function Removed(t: Table, fd: nat): Table
    requires t.Ok() && fd in t.index
  {
    var idx, last := t.index[fd], |t.pollfds| - 1;
    var moved := FdOf(t.pollfds[last]);
    if idx == last then Table(t.pollfds[..last], t.index - {fd})
    else Table(t.pollfds[..last][idx := t.pollfds[last]], (t.index - {fd})[moved := idx])
  }

  lemma RemovedOk(t: Table, fd: nat)
    requires t.Ok() && fd in t.index
    ensures Removed(t, fd).Ok()
    ensures Removed(t, fd).index.Keys == t.index.Keys - {fd}
    ensures forall f :: f in t.index && f != fd ==> Removed(t, fd).Entry(f) == t.Entry(f)
    ensures Removed(t, fd).Watched() == t.Watched() - {fd}
  {
    var n := Removed(t, fd);
    assert n.Ok();
    forall f | f in t.index && f != fd ensures n.Entry(f) == t.Entry(f) {
    }
  }

  class PollPoller {
    var pollfds: seq<PollFd>
    var channels: map<nat, Channel>

    ghost function T(): Table
      reads this, channels.Values`index
    {
      Table(pollfds, map fd | fd in channels :: channels[fd].index)
    }

    ghost predicate Valid()
      reads this, channels.Values`index
    {
      T().Ok() && forall fd :: fd in channels ==> channels[fd].fd == fd
    }

    ghost function Watched(): Interest
      reads this, channels.Values`index
      requires Valid()
    {
      T().Watched()
    }

    constructor ()
      ensures Valid() && channels == map[] && Watched() == map[]
    {
      pollfds, channels := [], map[];
    }

    /** The asserts of updateChannel: the channel is new, or the one registered for its
        descriptor.  One that was removed is neither, because removeChannel leaves its index. */
    predicate Accepts(channel: Channel)
      reads this, channel
    {
      if channel.index < 0 then channel.fd !in channels
      else channel.fd in channels && channels[channel.fd] == channel
    }

    /** The entry is negated exactly when a registered channel has no event; a new one never is. */
    method UpdateChannel(channel: Channel)
      requires Valid()
      requires Accepts(channel)
      modifies this, channel`index
      ensures Valid() && channels == old(channels)[channel.fd := channel]
      ensures Watched() == Updated(old(Watched()), channel.fd, channel.events)
      ensures T().Entry(channel.fd).events == channel.events
      ensures T().Entry(channel.fd).fd < 0 <==> channel.events == 0 && old(channel.index) >= 0
      ensures T() == if old(channel.index) < 0 then Added(old(T()), channel.fd, channel.events)
                     else Changed(old(T()), channel.fd, channel.events)
      ensures channel.index >= 0
    {
      hide Table.Watched, Updated;
      if channel.index < 0 {
        AddedOk(T(), channel.fd, channel.events);
        pollfds := pollfds + [PollFd(channel.fd, channel.events)];
        channel.index := |pollfds| - 1;
        channels := channels[channel.fd := channel];
        assert T() == Added(old(T()), channel.fd, channel.events);
      } else {
        ChangedOk(T(), channel.fd, channel.events);
        var idx := channel.index;
        assert pollfds[idx].fd == channel.fd || pollfds[idx].fd == -(channel.fd as int) - 1;
        var fd: int := channel.fd;
        if channel.events == 0 {
          fd := -fd - 1;
        }
        pollfds := pollfds[idx := PollFd(fd, channel.events)];
        assert T() == Changed(old(T()), channel.fd, channel.events);
      }
    }

    /** The asserts of removeChannel: the channel is the registered one, without events, and its
        entry is one poll(2) ignores. */
    predicate Removable(channel: Channel)
      reads this, channel
    {
      && channel.fd in channels && channels[channel.fd] == channel && channel.events == 0
      && 0 <= channel.index < |pollfds| && pollfds[channel.index] == EntryFor(channel.fd, 0)
    }

    /** Swap with the last entry and drop it; the channel of the entry that moved is told. */
    method RemoveChannel(channel: Channel)
      requires Valid() && Removable(channel)
      modifies this, channels.Values`index
      ensures Valid() && channels == old(channels) - {channel.fd}
      ensures old(T()).Ok() && channel.fd in old(T()).index && T() == Removed(old(T()), channel.fd)
      ensures channel.index == old(channel.index) >= 0
      ensures Watched() == old(Watched()) == Updated(old(Watched()), channel.fd, 0)
    {
      hide Table.Watched, Table.Ok, Updated;
      RemovedOk(T(), channel.fd);
      NotWatched(T(), channel.fd);
      LastEntry(T(), channel.fd);
      var idx := channel.index;
      channels := channels - {channel.fd};
      var last := |pollfds| - 1;
      if idx == last {
        pollfds := pollfds[..last];
      } else {
        var channelAtEnd := pollfds[last].fd;
        pollfds := pollfds[idx := pollfds[last]][last := pollfds[idx]];
        if channelAtEnd < 0 {
          channelAtEnd := -channelAtEnd - 1;
        }
        channels[channelAtEnd].index := idx;
        pollfds := pollfds[..last];
      }
      assert T() == Removed(old(T()), channel.fd);
    }

    /** fillActiveChannels.  `revents` is what poll(2) wrote into the array, nothing for entries it
        ignores, and `numEvents` what it returned: the early exit misses nothing. */
    method FillActiveChannels(revents: seq<nat>, numEvents: nat) returns (active: seq<Channel>)
      requires Valid() && |revents| == |pollfds|
      requires forall i :: 0 <= i < |revents| && pollfds[i].fd < 0 ==> revents[i] == 0
      requires numEvents == |Ready(pollfds, revents)|
      modifies channels.Values`revents
      ensures Valid() && |active| == |Ready(pollfds, revents)|
      ensures forall k :: 0 <= k < |active| ==>
                Ready(pollfds, revents)[k] in channels && active[k] == channels[Ready(pollfds, revents)[k]]
      ensures forall j :: 0 <= j < |pollfds| && revents[j] > 0 ==>
                FdOf(pollfds[j]) in channels && channels[FdOf(pollfds[j])].revents == revents[j]
    {
      hide Table.Ok, Ready;
      active := [];
      var left, i := numEvents, 0;
      ghost var all := Ready(pollfds, revents);
      ReadyNothing();
      while i < |pollfds| && left > 0
        invariant i <= |pollfds| && Valid() && |active| + left == numEvents
        invariant |active| == |Ready(pollfds[..i], revents[..i])|
        invariant forall k :: 0 <= k < |active| ==> all[k] in channels && active[k] == channels[all[k]]
        invariant forall j :: 0 <= j < i && revents[j] > 0 ==> Told(pollfds[j], revents[j])
      {
        ReadyNext(pollfds, revents, i);
        ReadyPrefix(pollfds, revents, i + 1);
        if revents[i] > 0 {
          left := left - 1;
          EntryAtIndex(T(), i);
          EntriesDiffer(T(), i);
          var channel := channels[pollfds[i].fd];
          assert channel.fd == pollfds[i].fd;
          channel.revents := revents[i];
          active := active + [channel];
        }
        i := i + 1;
      }
      if i == |pollfds| { assert pollfds[..i] == pollfds && revents[..i] == revents; }
      NoneLeft(pollfds, revents, i);
      assert forall j :: 0 <= j < |pollfds| && revents[j] > 0 ==> Told(pollfds[j], revents[j]);
    }

    predicate Told(p: PollFd, events: nat)
      reads this, channels.Values
    {
      FdOf(p) in channels && channels[FdOf(p)].revents == events
    }
  }

  /** Once as many events have been found as poll reported, the rest of the array has none. */
  lemma NoneLeft(pollfds: seq<PollFd>, revents: seq<nat>, i: nat)
    requires |pollfds| == |revents| && i <= |pollfds|
    requires |Ready(pollfds[..i], revents[..i])| == |Ready(pollfds, revents)|
    ensures forall j :: i <= j < |revents| ==> revents[j] == 0
  {
    hide Ready;
    forall j | i <= j < |revents| ensures revents[j] == 0 {
      ReadyNext(pollfds, revents, j);
      ReadyPrefix(pollfds, revents, j + 1);
      ReadyPrefix(pollfds[..j], revents[..j], i);
      assert pollfds[..j][..i] == pollfds[..i] && revents[..j][..i] == revents[..i];
    }
  }

  lemma EntriesDiffer(t: Table, i: nat)
    requires t.Ok() && i < |t.pollfds|
    ensures forall j :: 0 <= j < i ==> FdOf(t.pollfds[j]) != FdOf(t.pollfds[i])
  {
  }

  lemma ReadyNothing()
    ensures Ready([], []) == []
  {
  }

  lemma EntryAtIndex(t: Table, i: nat)
    requires t.Ok() && i < |t.pollfds|
    ensures FdOf(t.pollfds[i]) in t.index
  {
  }

  lemma LastEntry(t: Table, fd: nat)
    requires t.Ok() && fd in t.index
    ensures 0 <= t.index[fd] < |t.pollfds|
    ensures var last := |t.pollfds| - 1; FdOf(t.pollfds[last]) in t.index && t.index[FdOf(t.pollfds[last])] == last
    ensures FdOf(t.Entry(fd)) == fd
  {
  }

  lemma IndexNotNegative(t: Table, fd: nat)
    requires t.Ok() && fd in t.index
    ensures t.index[fd] >= 0
  {
  }

  lemma NotWatched(t: Table, fd: nat)
    requires t.Ok() && fd in t.index && t.Entry(fd).events == 0
    ensures t.Watched() - {fd} == t.Watched() == Updated(t.Watched(), fd, 0)
  {
  }

  // ---- EPollPoller ----

  const K_NEW: int := -1
  const K_ADDED: int := 1
  const K_DELETED: int := 2

  datatype Operation = EPOLL_CTL_ADD | EPOLL_CTL_MOD | EPOLL_CTL_DEL

  /** What the kernel keeps for a descriptor: the mask and the pointer given with it. */
  datatype Registration = Registration(events: nat, ptr: Channel)

  ghost function WatchedBy(kernel: map<nat, Registration>): Interest {
    map fd | fd in kernel && kernel[fd].events != 0 :: kernel[fd].events
  }

  lemma WatchedAfter(kernel: map<nat, Registration>, fd: nat, r: Registration)
    ensures WatchedBy(kernel[fd := r]) == Updated(WatchedBy(kernel), fd, r.events)
    ensures WatchedBy(kernel - {fd}) == Updated(WatchedBy(kernel), fd, 0)
    ensures fd !in kernel ==> Updated(WatchedBy(kernel), fd, 0) == WatchedBy(kernel)
  {
  }

  class EPollPoller {
    var channels: map<nat, Channel>
    var kernel: map<nat, Registration>     // the epoll instance

    /** A channel's index says whether the kernel knows its descriptor. */
    ghost predicate Valid()
      reads this, channels.Values`index
    {
      && (forall fd :: fd in channels ==>
            channels[fd].fd == fd && (channels[fd].index == K_ADDED || channels[fd].index == K_DELETED) &&
            (channels[fd].index == K_ADDED <==> fd in kernel))
      && (forall fd :: fd in kernel ==> fd in channels && kernel[fd].ptr == channels[fd])
    }

    ghost function Watched(): Interest
      reads this
    {
      WatchedBy(kernel)
    }

    constructor ()
      ensures Valid() && channels == map[] && Watched() == map[]
    {
      channels, kernel := map[], map[];
    }

    /** epoll_ctl: the precondition is what the kernel requires, so it never fails. */
    method Update(operation: Operation, channel: Channel)
      requires operation == EPOLL_CTL_ADD <==> channel.fd !in kernel
      modifies this`kernel
      ensures kernel == if operation == EPOLL_CTL_DEL then old(kernel) - {channel.fd}
                        else old(kernel)[channel.fd := Registration(channel.events, channel)]
    {
      if operation == EPOLL_CTL_DEL {
        kernel := kernel - {channel.fd};
      } else {
        kernel := kernel[channel.fd := Registration(channel.events, channel)];
      }
    }

    /** The asserts of updateChannel. */
    predicate Accepts(channel: Channel)
      reads this, channel
    {
      if channel.index == K_NEW then channel.fd !in channels
      else channel.fd in channels && channels[channel.fd] == channel
    }

    method UpdateChannel(channel: Channel)
      requires Valid() && Accepts(channel)
      modifies this, channel`index
      ensures Valid() && channels == old(channels)[channel.fd := channel] && channel.index != K_NEW
      ensures Watched() == Updated(old(Watched()), channel.fd, channel.events)
    {
      hide WatchedBy, Updated;
      WatchedAfter(kernel, channel.fd, Registration(channel.events, channel));
      var index := channel.index;
      if index == K_NEW || index == K_DELETED {
        if index == K_NEW {
          assert channel !in channels.Values;
          channels := channels[channel.fd := channel];
        }
        channel.index := K_ADDED;
        Update(EPOLL_CTL_ADD, channel);
      } else {
        assert index == K_ADDED;
        if channel.events == 0 {
          Update(EPOLL_CTL_DEL, channel);
          channel.index := K_DELETED;
        } else {
          Update(EPOLL_CTL_MOD, channel);
        }
      }
    }

    /** The asserts of removeChannel. */
    predicate Removable(channel: Channel)
      reads this, channel
    {
      channel.fd in channels && channels[channel.fd] == channel && channel.events == 0
    }

    method RemoveChannel(channel: Channel)
      requires Valid() && Removable(channel)
      modifies this, channel`index
      ensures Valid() && channels == old(channels) - {channel.fd} && channel.index == K_NEW
      ensures Watched() == Updated(old(Watched()), channel.fd, 0)
    {
      hide WatchedBy, Updated;
      WatchedAfter(kernel, channel.fd, Registration(0, channel));
      var index := channel.index;
      assert index == K_ADDED || index == K_DELETED;
      channels := channels - {channel.fd};
      if index == K_ADDED {
        Update(EPOLL_CTL_DEL, channel);
      }
      channel.index := K_NEW;
    }
  }

  // ---- Whole runs ----

  /** What the owners of channels do.  SetEvents is enableReading and its like: the channel of the
      descriptor sets its mask and calls update.  Remove is Channel::remove.  After Renew a new
      Channel object stands for the descriptor; without it the old one is used again. */
  datatype Op = SetEvents(fd: nat, events: nat) | Remove(fd: nat) | Renew(fd: nat)

  /** A registration: the mask last set, and the updates since, the registering one included. */
  datatype Reg = Reg(events: nat, updates: nat)

  /** The registered descriptors, and those whose channel was removed and still exists. */
  datatype Owners = Owners(reg: map<nat, Reg>, removed: set<nat>)

  function After(s: Owners, op: Op): Owners {
    match op
    case SetEvents(fd, events) =>
      s.(reg := s.reg[fd := Reg(events, if fd in s.reg then s.reg[fd].updates + 1 else 1)], removed := s.removed - {fd})
    case Remove(fd) => s.(reg := s.reg - {fd}, removed := s.removed + {fd})
    case Renew(fd) => s.(removed := s.removed - {fd})
  }

  function AfterAll(ops: seq<Op>): Owners {
    if ops == [] then Owners(map[], {}) else After(AfterAll(ops[..|ops| - 1]), ops[|ops| - 1])
  }

  /** What the owners have asked for. */
  function Wanted(reg: map<nat, Reg>): Interest {
    map fd | fd in reg && reg[fd].events != 0 :: reg[fd].events
  }

  /** Channel::remove asserts that there is no event, and is called on registered channels; a
      registered channel is not replaced. */
  predicate LegalStep(s: Owners, op: Op) {
    match op
    case SetEvents(_, _) => true
    case Remove(fd) => fd in s.reg && s.reg[fd].events == 0
    case Renew(fd) => fd !in s.reg
  }

  ghost predicate Legal(ops: seq<Op>) {
    forall i :: 0 <= i < |ops| ==> LegalStep(AfterAll(ops[..i]), ops[i])
  }

  /** What PollPoller demands beyond that: a channel is removed only after a second update, and
      never registered again. */
  predicate PollTakes(s: Owners, op: Op) {
    match op
    case SetEvents(fd, _) => fd !in s.removed
    case Remove(fd) => fd in s.reg ==> s.reg[fd].updates >= 2
    case Renew(_) => true
  }

  ghost predicate PollTakesAll(ops: seq<Op>) {
    forall i :: 0 <= i < |ops| ==> PollTakes(AfterAll(ops[..i]), ops[i])
  }

  lemma AfterNext(ops: seq<Op>, i: nat)
    requires i < |ops|
    ensures AfterAll(ops[..i + 1]) == After(AfterAll(ops[..i]), ops[i])
  {
    assert ops[..i + 1][..i] == ops[..i];
  }

  lemma WantedAfter(s: Owners, op: Op)
    requires LegalStep(s, op)
    ensures op.SetEvents? ==> Wanted(After(s, op).reg) == Updated(Wanted(s.reg), op.fd, op.events)
    ensures op.Remove? ==> Wanted(After(s, op).reg) == Wanted(s.reg) == Updated(Wanted(s.reg), op.fd, 0)
    ensures op.Renew? ==> After(s, op).reg == s.reg
  {
  }

  /** The entry of a registered channel. */
  function EntryOf(fd: nat, r: Reg): PollFd {
    if r.updates >= 2 then EntryFor(fd, r.events) else PollFd(fd, r.events)
  }

  ghost predicate Mirrors(t: Table, reg: map<nat, Reg>) {
    && t.Ok() && t.index.Keys == reg.Keys
    && forall fd :: fd in reg ==> reg[fd].updates >= 1 && t.Entry(fd) == EntryOf(fd, reg[fd])
  }

  lemma MirrorsAdded(t: Table, s: Owners, fd: nat, events: nat)
    requires Mirrors(t, s.reg) && fd !in s.reg
    ensures Mirrors(Added(t, fd, events), After(s, SetEvents(fd, events)).reg)
  {
    hide Table.Watched, Updated;
    AddedOk(t, fd, events);
  }

  lemma MirrorsChanged(t: Table, s: Owners, fd: nat, events: nat)
    requires Mirrors(t, s.reg) && fd in s.reg
    ensures Mirrors(Changed(t, fd, events), After(s, SetEvents(fd, events)).reg)
  {
    hide Table.Watched, Updated;
    ChangedOk(t, fd, events);
  }

  lemma MirrorsRemoved(t: Table, s: Owners, fd: nat)
    requires Mirrors(t, s.reg) && fd in s.reg
    ensures Mirrors(Removed(t, fd), After(s, Remove(fd)).reg)
  {
    hide Table.Watched, EntryOf, Removed;
    RemovedOk(t, fd);
  }

  lemma MirrorsWatched(t: Table, reg: map<nat, Reg>)
    requires Mirrors(t, reg)
    ensures t.Watched() == Wanted(reg)
  {
    forall fd | fd in reg ensures t.Entry(fd).events == reg[fd].events {
    }
  }

  /** The channel object of each descriptor, in a run of either poller. */
  ghost predicate Owned(channels: map<nat, Channel>, s: Owners, owners: map<nat, Channel>)
    reads owners.Values
  {
    && channels.Keys == s.reg.Keys && owners.Keys == s.reg.Keys + s.removed && s.reg.Keys !! s.removed
    && (forall fd :: fd in owners ==> owners[fd].fd == fd)
    && (forall fd :: fd in s.reg ==> channels[fd] == owners[fd] && owners[fd].events == s.reg[fd].events)
  }

  ghost predicate PollStands(p: PollPoller, s: Owners, owners: map<nat, Channel>)
    reads p, p.channels.Values, owners.Values
  {
    && p.Valid() && Owned(p.channels, s, owners) && Mirrors(p.T(), s.reg)
    && forall fd :: fd in s.removed ==> owners[fd].index >= 0
  }

  /** With the entries as they are, the asserts of PollPoller hold exactly when it takes the step. */
  lemma AssertsAre(p: PollPoller, s: Owners, owners: map<nat, Channel>, op: Op)
    requires PollStands(p, s, owners) && LegalStep(s, op)
    ensures op.SetEvents? && op.fd in owners ==> (p.Accepts(owners[op.fd]) <==> PollTakes(s, op))
    ensures op.Remove? ==> op.fd in owners && (p.Removable(owners[op.fd]) <==> PollTakes(s, op))
  {
    hide Table.Watched;
    if op.Remove? {
      assert p.T().Entry(op.fd) == EntryOf(op.fd, s.reg[op.fd]);
      assert p.T().index[op.fd] == owners[op.fd].index;
    } else if op.SetEvents? && op.fd in s.reg {
      assert p.T().index[op.fd] == owners[op.fd].index;
    }
  }

  /** A channel sets its mask and calls update. */
  method PollSet(p: PollPoller, owners: map<nat, Channel>, c: Channel, events: nat, ghost s: Owners) returns (ok: bool)
    requires PollStands(p, s, owners) && c.fd in owners && owners[c.fd] == c
    modifies p, c`events, c`index
    ensures ok <==> PollTakes(s, SetEvents(c.fd, events))
    ensures p.Valid() && (ok ==> PollStands(p, After(s, SetEvents(c.fd, events)), owners))
  {
    hide Table.Watched, Table.Ok, Mirrors, Added, Changed, EntryOf;
    AssertsAre(p, s, owners, SetEvents(c.fd, events));
    IndexIs(p, s, owners, c);
    if c.fd in s.reg { MirrorsChanged(p.T(), s, c.fd, events); }
    c.events := events;
    ok := p.Accepts(c);
    if ok {
      p.UpdateChannel(c);
    }
  }

  lemma IndexIs(p: PollPoller, s: Owners, owners: map<nat, Channel>, c: Channel)
    requires PollStands(p, s, owners) && c.fd in owners && owners[c.fd] == c
    ensures c.index >= 0
  {
    if c.fd in s.reg { IndexNotNegative(p.T(), c.fd); }
  }

  /** The same for a channel that has just been constructed. */
  method PollFirst(p: PollPoller, owners: map<nat, Channel>, c: Channel, events: nat, ghost s: Owners)
    requires PollStands(p, s, owners) && c.fd !in owners && c !in owners.Values && c.index == -1
    modifies p, c`events, c`index
    ensures PollStands(p, After(s, SetEvents(c.fd, events)), owners[c.fd := c])
  {
    hide Table.Watched, Table.Ok, Mirrors, Added, Changed, EntryOf, Updated, PollPoller.Valid;
    MirrorsAdded(p.T(), s, c.fd, events);
    c.events := events;
    p.UpdateChannel(c);
  }

  method PollRemove(p: PollPoller, owners: map<nat, Channel>, c: Channel, ghost s: Owners) returns (ok: bool)
    requires PollStands(p, s, owners) && c.fd in owners && owners[c.fd] == c && LegalStep(s, Remove(c.fd))
    modifies p, owners.Values`index
    ensures ok <==> PollTakes(s, Remove(c.fd))
    ensures p.Valid() && (ok ==> PollStands(p, After(s, Remove(c.fd)), owners))
  {
    hide Table.Watched, Table.Ok, Mirrors, Removed, EntryOf, Updated, PollPoller.Valid;
    AssertsAre(p, s, owners, Remove(c.fd));
    MirrorsRemoved(p.T(), s, c.fd);
    ok := p.Removable(c);
    if ok {
      p.RemoveChannel(c);
    }
  }

  lemma OwnedNext(channels: map<nat, Channel>, s: Owners, owners: map<nat, Channel>, fd: nat)
    requires Owned(channels, s, owners) && fd !in s.reg
    ensures Owned(channels, After(s, Renew(fd)), owners - {fd})
  {
  }

  /** PollPoller over any legal run, with every channel object as its owner keeps it.  The asserts
      of updateChannel and removeChannel, at which a failing run stops, hold throughout exactly
      when every removed channel had a second update and none is registered again; then the
      channels and masks are those asked for. */
  method RunPoll(ops: seq<Op>) returns (p: PollPoller, ok: bool)
    requires Legal(ops)
    ensures p.Valid() && (ok <==> PollTakesAll(ops))
    ensures ok ==> p.Watched() == Wanted(AfterAll(ops).reg) && p.channels.Keys == AfterAll(ops).reg.Keys
  {
    hide Table.Watched, Table.Ok, Mirrors, After, PollTakes, LegalStep;
    p := new PollPoller();
    var owners: map<nat, Channel> := map[];
    NothingStands(p, owners);
    for i := 0 to |ops|
      invariant fresh(p) && fresh(owners.Values) && PollStands(p, AfterAll(ops[..i]), owners)
      invariant forall j :: 0 <= j < i ==> PollTakes(AfterAll(ops[..j]), ops[j])
    {
      AfterNext(ops, i);
      owners, ok := PollStep(p, owners, ops[i], AfterAll(ops[..i]));
      if !ok {
        return p, false;
      }
    }
    assert ops[..|ops|] == ops;
    MirrorsWatched(p.T(), AfterAll(ops).reg);
    ok := true;
  }

  lemma NothingStands(p: PollPoller, owners: map<nat, Channel>)
    requires p.Valid() && p.channels == map[] && owners == map[]
    ensures PollStands(p, AfterAll([]), owners)
  {
  }

  method PollStep(p: PollPoller, owners: map<nat, Channel>, op: Op, ghost s: Owners)
    returns (next: map<nat, Channel>, ok: bool)
    requires PollStands(p, s, owners) && LegalStep(s, op)
    modifies p, owners.Values
    ensures (ok <==> PollTakes(s, op)) && p.Valid() && fresh(next.Values - owners.Values)
    ensures ok ==> PollStands(p, After(s, op), next)
  {
    hide Table.Watched, Table.Ok, Mirrors;
    next, ok := owners, true;
    match op {
      case SetEvents(fd, events) =>
        if fd in owners {
          ok := PollSet(p, owners, owners[fd], events, s);
        } else {
          var c := new Channel(fd);
          PollFirst(p, owners, c, events, s);
          next := owners[fd := c];
        }
      case Remove(fd) =>
        ok := PollRemove(p, owners, owners[fd], s);
      case Renew(fd) =>
        OwnedNext(p.channels, s, owners, fd);
        next := owners - {fd};
    }
  }

  // ---- EPollPoller over the same runs ----

  ghost predicate EPollStands(e: EPollPoller, s: Owners, owners: map<nat, Channel>)
    reads e, e.channels.Values, owners.Values
  {
    && e.Valid() && Owned(e.channels, s, owners) && e.Watched() == Wanted(s.reg)
    && forall fd :: fd in s.removed ==> owners[fd].index == K_NEW
  }

  lemma EPollAccepts(e: EPollPoller, s: Owners, owners: map<nat, Channel>, c: Channel)
    requires EPollStands(e, s, owners)
    ensures c.fd in owners && owners[c.fd] == c ==> e.Accepts(c)
    ensures c.fd !in owners ==> c.fd !in e.channels
  {
  }

  method EPollSet(e: EPollPoller, owners: map<nat, Channel>, c: Channel, events: nat, ghost s: Owners)
    requires EPollStands(e, s, owners) && c.fd in owners && owners[c.fd] == c
    modifies e, c`events, c`index
    ensures EPollStands(e, After(s, SetEvents(c.fd, events)), owners)
  {
    hide WatchedBy, Wanted, Updated, EPollPoller.Valid;
    WantedAfter(s, SetEvents(c.fd, events));
    EPollAccepts(e, s, owners, c);
    c.events := events;
    e.UpdateChannel(c);
  }

  method EPollFirst(e: EPollPoller, owners: map<nat, Channel>, c: Channel, events: nat, ghost s: Owners)
    requires EPollStands(e, s, owners) && c.fd !in owners && c !in owners.Values && c.index == K_NEW
    modifies e, c`events, c`index
    ensures EPollStands(e, After(s, SetEvents(c.fd, events)), owners[c.fd := c])
  {
    hide WatchedBy, Wanted, Updated, EPollPoller.Valid;
    WantedAfter(s, SetEvents(c.fd, events));
    EPollAccepts(e, s, owners, c);
    c.events := events;
    e.UpdateChannel(c);
  }

  method EPollRemove(e: EPollPoller, owners: map<nat, Channel>, c: Channel, ghost s: Owners)
    requires EPollStands(e, s, owners) && c.fd in owners && owners[c.fd] == c && LegalStep(s, Remove(c.fd))
    modifies e, c`index
    ensures EPollStands(e, After(s, Remove(c.fd)), owners)
  {
    hide WatchedBy, Wanted, Updated;
    WantedAfter(s, Remove(c.fd));
    e.RemoveChannel(c);
  }

  method EPollStep(e: EPollPoller, owners: map<nat, Channel>, op: Op, ghost s: Owners)
    returns (next: map<nat, Channel>)
    requires EPollStands(e, s, owners) && LegalStep(s, op)
    modifies e, owners.Values
    ensures fresh(next.Values - owners.Values) && EPollStands(e, After(s, op), next)
  {
    hide WatchedBy, Wanted, Updated;
    next := owners;
    match op {
      case SetEvents(fd, events) =>
        if fd in owners {
          EPollSet(e, owners, owners[fd], events, s);
        } else {
          var c := new Channel(fd);
          EPollFirst(e, owners, c, events, s);
          next := owners[fd := c];
        }
      case Remove(fd) =>
        EPollRemove(e, owners, owners[fd], s);
      case Renew(fd) =>
        OwnedNext(e.channels, s, owners, fd);
        WantedAfter(s, op);
        next := owners - {fd};
    }
  }

  /** EPollPoller gets through every legal run. */
  method RunEPoll(ops: seq<Op>) returns (e: EPollPoller)
    requires Legal(ops)
    ensures e.Valid() && e.Watched() == Wanted(AfterAll(ops).reg) && e.channels.Keys == AfterAll(ops).reg.Keys
  {
    hide WatchedBy, Wanted, After, LegalStep;
    e := new EPollPoller();
    var owners: map<nat, Channel> := map[];
    NothingWanted();
    for i := 0 to |ops|
      invariant fresh(e) && fresh(owners.Values) && EPollStands(e, AfterAll(ops[..i]), owners)
    {
      AfterNext(ops, i);
      owners := EPollStep(e, owners, ops[i], AfterAll(ops[..i]));
    }
    assert ops[..|ops|] == ops;
  }

  lemma NothingWanted()
    ensures Wanted(AfterAll([]).reg) == map[] && AfterAll([]) == Owners(map[], {})
  {
  }

  /** The mask last set for a descriptor and not removed since. */
  function LastSet(ops: seq<Op>, fd: nat): nat {
    if ops == [] then 0
    else
      match ops[|ops| - 1]
      case SetEvents(f, events) => if f == fd then events else LastSet(ops[..|ops| - 1], fd)
      case Remove(f) => if f == fd then 0 else LastSet(ops[..|ops| - 1], fd)
      case Renew(_) => LastSet(ops[..|ops| - 1], fd)
  }

  /** What is asked for is decided by the last call for each descriptor. */
  lemma {:induction false} WantedIsLastSet(ops: seq<Op>, fd: nat)
    ensures fd in Wanted(AfterAll(ops).reg) <==> LastSet(ops, fd) != 0
    ensures fd in Wanted(AfterAll(ops).reg) ==> Wanted(AfterAll(ops).reg)[fd] == LastSet(ops, fd)
  {
    if ops != [] { WantedIsLastSet(ops[..|ops| - 1], fd); }
  }

  /** Reported are the descriptors of exactly the entries with an event, in the order of the array. */
  lemma {:induction false} ReadyIs(pollfds: seq<PollFd>, revents: seq<nat>)
    requires |pollfds| == |revents|
    ensures forall j :: 0 <= j < |pollfds| && revents[j] > 0 ==> FdOf(pollfds[j]) in Ready(pollfds, revents)
    ensures forall fd :: fd in Ready(pollfds, revents) ==>
              exists j :: 0 <= j < |pollfds| && revents[j] > 0 && FdOf(pollfds[j]) == fd
  {
    hide FdOf;
    if pollfds != [] {
      var k := |pollfds| - 1;
      ReadyIs(pollfds[..k], revents[..k]);
      forall fd | fd in Ready(pollfds, revents)
        ensures exists j :: 0 <= j < |pollfds| && revents[j] > 0 && FdOf(pollfds[j]) == fd
      {
        if fd in Ready(pollfds[..k], revents[..k]) {
          var j :| 0 <= j < k && revents[..k][j] > 0 && FdOf(pollfds[..k][j]) == fd;
          assert revents[j] > 0 && FdOf(pollfds[j]) == fd;
        } else {
          assert revents[k] > 0 && FdOf(pollfds[k]) == fd;
        }
      }
      forall j | 0 <= j < |pollfds| && revents[j] > 0 ensures FdOf(pollfds[j]) in Ready(pollfds, revents) {
        if j < k { assert revents[..k][j] > 0 && pollfds[..k][j] == pollfds[j]; }
      }
    }
  }

  /** After any legal sequence of channel operations that PollPoller takes, both pollers have the
      same channels and watch the same descriptors with the same masks. */
  method SideBySide(ops: seq<Op>) returns (p: PollPoller, ok: bool, e: EPollPoller)
    requires Legal(ops)
    ensures p.Valid() && e.Valid() && (ok <==> PollTakesAll(ops))
    ensures e.Watched() == Wanted(AfterAll(ops).reg) && e.channels.Keys == AfterAll(ops).reg.Keys
    ensures ok ==> p.Watched() == e.Watched() && p.channels.Keys == e.channels.Keys
    ensures forall fd :: (fd in e.Watched() <==> LastSet(ops, fd) != 0) &&
                         (fd in e.Watched() ==> e.Watched()[fd] == LastSet(ops, fd))
  {
    hide Wanted, LastSet;
    forall fd ensures (fd in Wanted(AfterAll(ops).reg) <==> LastSet(ops, fd) != 0) &&
                      (fd in Wanted(AfterAll(ops).reg) ==> Wanted(AfterAll(ops).reg)[fd] == LastSet(ops, fd))
    {
      WantedIsLastSet(ops, fd);
    }
    p, ok := RunPoll(ops);
    e := RunEPoll(ops);
  }

  /** A channel whose only update had an empty mask, as that of an acceptor that never listened:
      it may be removed, and PollPoller does not take it. */
  lemma RemovedAfterOneUpdate(fd: nat)
    ensures var ops := [SetEvents(fd, 0), Remove(fd)]; Legal(ops) && !PollTakesAll(ops)
  {
    var ops := [SetEvents(fd, 0), Remove(fd)];
    AfterNext(ops, 0);
    assert ops[..0] == [] && !PollTakes(AfterAll(ops[..1]), ops[1]);
  }

  /** A second update with an empty mask is enough. */
  lemma RemovedAfterTwoUpdates(fd: nat, events: nat)
    ensures var ops := [SetEvents(fd, events), SetEvents(fd, 0), Remove(fd)]; Legal(ops) && PollTakesAll(ops)
  {
    var ops := [SetEvents(fd, events), SetEvents(fd, 0), Remove(fd)];
    AfterNext(ops, 0);
    AfterNext(ops, 1);
    assert ops[..0] == [];
  }

  /** The same channel object registered again: EPollPoller takes it, PollPoller does not; a new
      object both take. */
  lemma RegisteredAgain(fd: nat, events: nat)
    ensures var ops := [SetEvents(fd, events), SetEvents(fd, 0), Remove(fd), SetEvents(fd, events)];
            Legal(ops) && !PollTakesAll(ops)
    ensures var ops := [SetEvents(fd, events), SetEvents(fd, 0), Remove(fd), Renew(fd), SetEvents(fd, events)];
            Legal(ops) && PollTakesAll(ops)
  {
    var again := [SetEvents(fd, events), SetEvents(fd, 0), Remove(fd), SetEvents(fd, events)];
    AfterNext(again, 0);
    AfterNext(again, 1);
    AfterNext(again, 2);
    assert again[..0] == [] && !PollTakes(AfterAll(again[..3]), again[3]);
    var renewed := [SetEvents(fd, events), SetEvents(fd, 0), Remove(fd), Renew(fd), SetEvents(fd, events)];
    AfterNext(renewed, 0);
    AfterNext(renewed, 1);
    AfterNext(renewed, 2);
    AfterNext(renewed, 3);
    assert renewed[..0] == [];
  }
}
