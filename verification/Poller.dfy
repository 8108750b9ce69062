/** EPollPoller and Channel: the registration index of every channel, the poller's map and
    the kernel's epoll set, changed by the event setters and by remove. */
module Poller {

  /** kNew, kAdded and kDeleted. */
  datatype Index = New | Added | Deleted

  const NONE := 0

  datatype Ctl = CtlAdd | CtlMod | CtlDel

  /** The kernel's view of one registered descriptor. */
  datatype Interest = Interest(events: int, channel: Channel)

  class Channel {
    const fd: int
    var events: int
    var index: Index

    constructor (fd: int)
      ensures this.fd == fd && events == NONE && index == New
    {
      this.fd, events, index := fd, NONE, New;
    }
  }

  class EPollPoller {
    var channels: map<int, Channel>
    var kernel: map<int, Interest>
    ghost var known: set<Channel>   // the channels of this loop

    /** One channel per descriptor. */
    ghost predicate OnePerFd()
      reads this`known
    {
      forall c, d | c in known && d in known && c.fd == d.fd :: c == d
    }

    /** The registration of `c` is what its index says. */
    ghost predicate Registered(c: Channel)
      reads this`channels, this`kernel, c
    {
      && (c.index == Added <==> c.fd in kernel)
      && (c.index == Added ==> kernel[c.fd] == Interest(c.events, c))
      && (c.index == New <==> c.fd !in channels)
      && (c.index != New ==> channels[c.fd] == c)
      && (c.index == Deleted ==> c.events == NONE)
    }

    ghost predicate Valid()
      reads this, known
    {
      && OnePerFd()
      && (forall c | c in known :: Registered(c))
      && (forall fd | fd in kernel :: kernel[fd].channel in known && kernel[fd].channel.fd == fd)
      && (forall fd | fd in channels :: channels[fd] in known && channels[fd].fd == fd)
    }

    /** epoll_ctl accepts the operation: ADD of what is not there, MOD and DEL of what is. */
    predicate Accepts(op: Ctl, fd: int)
      reads this`kernel
    {
      if op == CtlAdd then fd !in kernel else fd in kernel
    }

    constructor ()
      ensures Valid() && known == {} && kernel == map[] && channels == map[]
    {
      channels, kernel, known := map[], map[], {};
    }

    /** A new channel on a descriptor of its own. */
    ghost method Meet(c: Channel)
      requires Valid() && c.index == New && c.events == NONE
      requires c.fd !in kernel && c.fd !in channels && forall d | d in known :: d.fd != c.fd
      modifies this`known
      ensures Valid() && known == old(known) + {c}
    {
      known := known + {c};
    }

    /** update: one epoll_ctl, which must be one the kernel accepts. */
    method Update(op: Ctl, c: Channel)
      requires Accepts(op, c.fd)
      modifies this`kernel
      ensures kernel == if op == CtlDel then old(kernel) - {c.fd} else old(kernel)[c.fd := Interest(c.events, c)]
    {
      if op == CtlDel {
        kernel := kernel - {c.fd};
      } else {
        kernel := kernel[c.fd := Interest(c.events, c)];
      }
    }

    /** A setter of Channel (enableReading and the others, or a callback setter, which keeps
        the events) followed by updateChannel. */
    method SetEvents(c: Channel, events: int)
      requires Valid() && c in known
      modifies this`channels, this`kernel, c
      ensures Valid() && c.events == events
      ensures c.index == if old(c.index) == Added && events == NONE then Deleted else Added
      ensures forall d | d in known && d != c :: (d.fd in kernel <==> d.fd in old(kernel))
    {
      assert forall d | d in known && d != c :: d.fd != c.fd;
      c.events := events;
      if c.index == New || c.index == Deleted {
        if c.index == New {
          channels := channels[c.fd := c];
        }
        c.index := Added;
        Update(CtlAdd, c);
      } else if c.events == NONE {
        Update(CtlDel, c);
        c.index := Deleted;
      } else {
        Update(CtlMod, c);
      }
    }

    /** removeChannel. */
    method RemoveChannel(c: Channel)
      requires Valid() && c in known
      modifies this`channels, this`kernel, c`index
      ensures Valid() && c.index == New
      ensures channels == old(channels) - {c.fd} && kernel == old(kernel) - {c.fd}
    {
      channels := channels - {c.fd};
      if c.index == Added {
        Update(CtlDel, c);
      }
      c.index := New;
    }
  }

  // ----- whole runs -----

  datatype Call = Set(fd: nat, events: int) | Remove(fd: nat)

  /** What a run leaves of one descriptor: whether its channel is registered, and its events. */
  datatype Left = Left(index: Index, events: int)

  function After(calls: seq<Call>, fd: nat): Left
    decreases |calls|
  {
    if calls == [] then Left(New, NONE)
    else
      var before := After(calls[..|calls| - 1], fd);
      match calls[|calls| - 1]
      case Set(x, e) =>
        if x != fd then before
        else Left(if before.index == Added && e == NONE then Deleted else Added, e)
      case Remove(x) => if x != fd then before else Left(New, before.events)
  }

  /** The calls on `fd` at the end of the run that set no events. */
  function IdleSets(calls: seq<Call>, fd: nat): nat
    decreases |calls|
  {
    if calls == [] then 0
    else
      var last, before := calls[|calls| - 1], calls[..|calls| - 1];
      if last.fd != fd then IdleSets(before, fd)
      else if last == Set(fd, NONE) then IdleSets(before, fd) + 1
      else 0
  }

  /** Before those, the last call on `fd` set some events. */
  predicate HadEvents(calls: seq<Call>, fd: nat)
    decreases |calls|
  {
    if calls == [] then false
    else
      var last, before := calls[|calls| - 1], calls[..|calls| - 1];
      if last.fd != fd || last == Set(fd, NONE) then HadEvents(before, fd) else last.Set?
  }

  /** A channel is left added by parity: every call that sets no events undoes the one before,
      and the first of them on a channel that is not registered registers it. */
  lemma {:induction false} AddedExact(calls: seq<Call>, fd: nat)
    ensures After(calls, fd).index == Added <==> (IdleSets(calls, fd) % 2 == 0 <==> HadEvents(calls, fd))
    ensures IdleSets(calls, fd) > 0 ==> After(calls, fd).events == NONE
    ensures IdleSets(calls, fd) == 0 && HadEvents(calls, fd) ==> After(calls, fd).events != NONE
    decreases |calls|
  {
    if calls != [] { AddedExact(calls[..|calls| - 1], fd); }
  }

  /** The kernel watches a channel for nothing exactly where the run ends with an odd number of
      such calls on a channel that was not registered, or an even one, not 0, on one that had events. */
  lemma {:induction false} WatchedForNothing(calls: seq<Call>, fd: nat)
    ensures After(calls, fd) == Left(Added, NONE) <==>
      IdleSets(calls, fd) > 0 && (IdleSets(calls, fd) % 2 == 0 <==> HadEvents(calls, fd))
  {
    AddedExact(calls, fd);
  }

  /** For every sequence of event changes and removals on channels with descriptors of their
      own, every epoll_ctl is one the kernel accepts, and in the end the kernel watches
      exactly the channels left added, with their events. */
  method Drive(n: nat, calls: seq<Call>) returns (watched: map<int, int>)
    requires forall i | 0 <= i < |calls| :: calls[i].fd < n
    ensures forall fd: nat | fd < n :: (fd in watched <==> After(calls, fd).index == Added)
    ensures forall fd: nat | fd < n && fd in watched :: watched[fd] == After(calls, fd).events
    ensures forall fd | fd in watched :: 0 <= fd < n
  {
    var poller := new EPollPoller();
    var chans: seq<Channel> := [];
    for i := 0 to n
      invariant poller.Valid() && fresh(poller) && poller.kernel == map[] && poller.channels == map[]
      invariant |chans| == i && poller.known == set c | c in chans
      invariant forall j | 0 <= j < i :: fresh(chans[j]) && chans[j].fd == j && chans[j].index == New && chans[j].events == NONE
    {
      var c := new Channel(i);
      poller.Meet(c);
      chans := chans + [c];
    }
    for i := 0 to |calls|
      invariant poller.Valid() && |chans| == n && poller.known == set c | c in chans
      invariant forall j | 0 <= j < n :: fresh(chans[j]) && chans[j].fd == j
      invariant forall j: nat | j < n :: After(calls[..i], j) == Left(chans[j].index, chans[j].events)
    {
      assert calls[..i + 1][..i] == calls[..i];
      var c := chans[calls[i].fd];
      match calls[i] {
        case Set(_, e) => poller.SetEvents(c, e);
        case Remove(_) => poller.RemoveChannel(c);
      }
    }
    assert calls[..|calls|] == calls;
    watched := map fd | fd in poller.kernel :: poller.kernel[fd].events;
    forall fd: nat | fd < n
      ensures fd in watched <==> After(calls, fd).index == Added
      ensures fd in watched ==> watched[fd] == After(calls, fd).events
    {
      assert chans[fd] in poller.known;
    }
  }
}
