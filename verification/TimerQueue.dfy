/** TimerQueue as it runs: the two indexes, the cancel set and the timer objects are fields
    that its methods update, with loops where the source has them. */
module TimerQueue {
  import opened Basics
  import opened TimerModel
  import opened TimerInvariant

  class Queue {
    var mem: map<Addr, Timer>       // the heap's timer objects
    var created: nat
    var inFlight: set<Addr>
    var timers: seq<Entry>
    var activeTimers: set<Id>
    var callingExpiredTimers: bool
    var cancelingTimers: set<Id>
    var expired: seq<Entry>         // the part of the batch that reset has not dealt with
    var ran: nat
    var now: int
    var clock: int
    var fd: Fd
    var lastArm: int
    ghost var batches: nat
    ghost var calls: seq<Call>
    ghost var freed: seq<nat>

    ghost function State(): TimerModel.Queue
      reads this
    {
      TimerModel.Queue(mem, created, inFlight, timers, activeTimers, callingExpiredTimers, cancelingTimers,
                       expired, ran, now, clock, fd, lastArm, batches, calls, freed)
    }

    constructor (clock: int)
      requires clock > 0
      ensures State() == Initial(clock) && Inv(State())
    {
      mem, created, inFlight := map[], 0, {};
      timers, activeTimers, callingExpiredTimers, cancelingTimers := [], {}, false, {};
      expired, ran, now := [], 0, 0;
      this.clock, fd, lastArm := clock, Disarmed, clock;
      batches, calls, freed := 0, [], [];
    }

    /** resetTimerfd. */
    method ResetTimerfd(when: int)
      modifies this
      ensures State() == Rearmed(old(State()), when)
    {
      fd := Armed(clock + Nanos(HowMuchTimeFromNow(when, clock)) / 1000);
      lastArm := clock;
    }

    /** insert. */
    method Insert(a: Addr) returns (earliestChanged: bool)
      requires a in mem
      modifies this
      ensures State() == TimerModel.Insert(old(State()), a)
      ensures earliestChanged == EarliestChanged(old(State()), old(mem)[a].expiration)
    {
      var when := mem[a].expiration;
      earliestChanged := timers == [] || when < timers[0].when;
      timers := Inserted(timers, Entry(when, a));
      activeTimers := activeTimers + {Id(a, mem[a].seqno)};
    }

    /** addTimerInLoop. */
    method AddTimerInLoop(a: Addr)
      requires Inv(State()) && Enabled(State(), Add(a))
      modifies this
      ensures Inv(State()) && State() == AddInLoop(old(State()), a)
    {
      AddKeeps(State(), a);
      hide Inv;
      var earliestChanged := Insert(a);
      inFlight := inFlight - {a};
      if earliestChanged {
        ResetTimerfd(mem[a].expiration);
      }
    }

    /** delete. */
    method Delete(a: Addr)
      requires a in mem
      modifies this
      ensures State() == Freed(old(State()), a)
    {
      freed := freed + [mem[a].seqno];
      mem := mem - {a};
    }

    /** cancelInLoop. */
    method CancelInLoop(id: Id)
      requires Inv(State())
      modifies this
      ensures Inv(State()) && TimerModel.CancelInLoop(old(State()), id) == Some(State())
    {
      CancelKeeps(State(), id);
      if id in activeTimers {
        timers := Erased(timers, Entry(mem[id.addr].expiration, id.addr));
        Delete(id.addr);
        activeTimers := activeTimers - {id};
      } else if callingExpiredTimers {
        cancelingTimers := cancelingTimers + {id};
      }
    }

    /** getExpired: the due prefix of timers_ leaves both indexes. */
    method GetExpired(at: int)
      requires forall e | e in timers :: e.addr in mem
      modifies this
      ensures State() == TimerModel.GetExpired(old(State()), at)
    {
      hide LowerBound, IdsOf;
      ghost var q := State();
      NoIds(q);
      var n := LowerBound(timers, Entry(at, UINTPTR_MAX));
      expired := timers[..n];
      timers := timers[n..];
      for i := 0 to |expired|
        invariant State() == q.(timers := q.timers[n..], batch := q.timers[..n], active := activeTimers)
        invariant activeTimers == q.active - IdsOf(q, expired[..i])
      {
        assert expired[i] == q.timers[i] && q.timers[i] in q.timers;
        NextId(q, expired, i);
        activeTimers := activeTimers - {Id(expired[i].addr, mem[expired[i].addr].seqno)};
      }
      assert expired[..|expired|] == expired;
      ran, now := 0, at;
    }

    /** reset: repeating timers that were not cancelled go back, the others are deleted. */
    method Reset()
      requires Resetting(State())
      modifies this
      ensures ResetAll(old(State())).Some? && State() == RearmedAtEnd(ResetAll(old(State())).value)
    {
      hide Resetting;
      ResetAllKeeps(State());
      ghost var end := ResetAll(State()).value;
      while expired != []
        invariant Resetting(State()) && ResetAll(State()) == Some(end)
        decreases |expired|
      {
        ResetOneKeeps(State());
        ResetNext();
      }
      if timers != [] && timers[0].when > 0 {
        ResetTimerfd(timers[0].when);
      }
    }

    method ResetNext()
      requires expired != [] && ResetOne(State()).Some?
      modifies this
      ensures ResetOne(old(State())) == Some(State())
    {
      var a := expired[0].addr;
      var t := mem[a];
      var id := Id(a, t.seqno);
      expired := expired[1..];
      if t.repeat && id !in cancelingTimers {
        mem := mem[a := t.(expiration := now + t.delta)];
        var _ := Insert(a);
      } else {
        Delete(a);
      }
    }

    /** The constructor of Timer. */
    method Make(a: Addr, when: int, delta: nat, repeat: bool)
      requires Enabled(State(), Create(a, when, delta, repeat))
      modifies this
      ensures Next(old(State()), Create(a, when, delta, repeat)) == Some(State())
    {
      mem := mem[a := Timer(created, when, delta, repeat)];
      created := created + 1;
      inFlight := inFlight + {a};
    }

    method Wait(t: int)
      requires Enabled(State(), Tick(t))
      modifies this
      ensures Next(old(State()), Tick(t)) == Some(State())
    {
      clock := t;
      if fd.Armed? && fd.deadline <= t { fd := Fired; }
    }

    /** What a callback may do: make and add timers, cancel, and take time. */
    method Act(s: Step) returns (ghost done: seq<Step>)
      requires Inv(State())
      modifies this
      ensures Inv(State()) && Legal(old(State()), done) && Run(old(State()), done) == Some(State())
      ensures callingExpiredTimers == old(callingExpiredTimers) && expired == old(expired) && ran == old(ran)
      ensures done == if Acts(old(State()), s) then [s] else []
    {
      hide Inv, State, State0, AddInLoop, TimerModel.CancelInLoop, Run, Legal;
      done := [];
      NoSteps(State());
      StateIs();
      ActsEither(State(), State0(), s);
      if !Acts(State0(), s) { return; }
      StepKeeps(State(), s);
      ActKeepsBatch(State(), s);
      OneStep(State(), s);
      done := [s];
      match s {
        case Create(a, when, delta, repeat) => Make(a, when, delta, repeat);
        case Add(a) => AddTimerInLoop(a);
        case Cancel(id) => CancelInLoop(id);
        case Tick(t) => Wait(t);
      }
      StateIs();
    }

    lemma {:induction false} StateIs()
      ensures State() == TimerModel.Queue(mem, created, inFlight, timers, activeTimers, callingExpiredTimers, cancelingTimers,
                                          expired, ran, now, clock, fd, lastArm, batches, calls, freed)
      ensures State0() == State().(batches := 0, calls := [], freed := [])
    {}

    /** The fields, with the histories left out. */
    function State0(): TimerModel.Queue
      reads this
    {
      TimerModel.Queue(mem, created, inFlight, timers, activeTimers, callingExpiredTimers, cancelingTimers,
                       expired, ran, now, clock, fd, lastArm, 0, [], [])
    }

    /** handleRead: one batch, with `callbacks[i]` what the callback of its timer `i` tries
        to do. The whole call is a legal run of the model: the batch begins, its timers are
        called in turn, each doing of its callback what can be done, and the batch ends. */
    method HandleRead(callbacks: seq<seq<Step>>) returns (ghost done: seq<Step>)
      requires Inv(State()) && !callingExpiredTimers
      modifies this
      ensures Inv(State()) && !callingExpiredTimers
      ensures Legal(old(State()), done) && Run(old(State()), done) == Some(State())
      ensures var q := BeginRead(old(State())); done == [Begin] + Called(q, callbacks, |q.batch|) + [End]
    {
      hide Inv, BeginRead;
      BeginBatch();
      ghost var mid := Calls(callbacks);
      RunOn(old(State()), [Begin], mid);
      EndBatch();
      RunOn(old(State()), [Begin] + mid, [End]);
      done := [Begin] + mid + [End];
    }

    /** The callback loop of handleRead. */
    method Calls(callbacks: seq<seq<Step>>) returns (ghost done: seq<Step>)
      requires Inv(State()) && callingExpiredTimers && ran == 0
      modifies this
      ensures Inv(State()) && callingExpiredTimers && ran == |expired|
      ensures Legal(old(State()), done) && Run(old(State()), done) == Some(State())
      ensures done == Called(old(State()), callbacks, |old(State()).batch|)
    {
      hide Inv, Next, Enabled;
      done := [];
      while ran < |expired|
        invariant Inv(State()) && callingExpiredTimers && ran <= |expired| && expired == old(expired)
        invariant Legal(old(State()), done) && Run(old(State()), done) == Some(State())
        invariant done == Called(old(State()), callbacks, ran)
        decreases |expired| - ran
      {
        ghost var more := CallOne(if ran < |callbacks| then callbacks[ran] else []);
        RunOn(old(State()), done, more);
        done := done + more;
      }
    }

    /** One callback, and what it does. */
    method CallOne(callback: seq<Step>) returns (ghost done: seq<Step>)
      requires Inv(State()) && callingExpiredTimers && ran < |expired|
      modifies this
      ensures Inv(State()) && callingExpiredTimers && expired == old(expired) && ran == old(ran) + 1
      ensures Legal(old(State()), done) && Run(old(State()), done) == Some(State())
      ensures Run(old(State()), [Call1]).Some? && done == [Call1] + Tried(Run(old(State()), [Call1]).value, callback)
    {
      hide Inv, Next, Enabled, Run, Legal, Tried;
      CallNext();
      ghost var more := ActAll(callback);
      RunOn(old(State()), [Call1], more);
      done := [Call1] + more;
    }

    method BeginBatch()
      requires Inv(State()) && !callingExpiredTimers
      modifies this
      ensures Inv(State()) && callingExpiredTimers && ran == 0 && State() == BeginRead(old(State()))
      ensures Legal(old(State()), [Begin]) && Run(old(State()), [Begin]) == Some(State())
    {
      hide *;
      StateIs();
      BeginIs(State());
      if fd == Fired { fd := Disarmed; }
      StateIs();
      GetExpired(clock);
      StateIs();
      callingExpiredTimers, cancelingTimers := true, {};
      batches := batches + 1;
      StateIs();
    }

    method CallNext()
      requires Inv(State()) && callingExpiredTimers && ran < |expired|
      modifies this
      ensures Inv(State()) && callingExpiredTimers && expired == old(expired) && ran == old(ran) + 1
      ensures Legal(old(State()), [Call1]) && Run(old(State()), [Call1]) == Some(State())
    {
      CallKeeps(State());
      OneStep(State(), Call1);
      calls := calls + [Call(mem[expired[ran].addr].seqno, batches)];
      ran := ran + 1;
    }

    method ActAll(steps: seq<Step>) returns (ghost done: seq<Step>)
      requires Inv(State())
      modifies this
      ensures Inv(State()) && Legal(old(State()), done) && Run(old(State()), done) == Some(State())
      ensures callingExpiredTimers == old(callingExpiredTimers) && expired == old(expired) && ran == old(ran)
      ensures done == Tried(old(State()), steps)
    {
      hide Inv, Next, Acts;
      done := [];
      for i := 0 to |steps|
        invariant done == Tried(old(State()), steps[..i])
        invariant Inv(State()) && Legal(old(State()), done) && Run(old(State()), done) == Some(State())
        invariant callingExpiredTimers == old(callingExpiredTimers) && expired == old(expired) && ran == old(ran)
      {
        assert steps[..i + 1][..i] == steps[..i];
        ghost var more := Act(steps[i]);
        RunOn(old(State()), done, more);
        done := done + more;
      }
      assert steps[..|steps|] == steps;
    }

    method EndBatch()
      requires Inv(State()) && callingExpiredTimers && ran == |expired|
      modifies this
      ensures Inv(State()) && !callingExpiredTimers
      ensures Legal(old(State()), [End]) && Run(old(State()), [End]) == Some(State())
    {
      hide *;
      StateIs();
      EndIs(State());
      callingExpiredTimers := false;
      StateIs();
      Reset();
      StateIs();
      ran := 0;
      StateIs();
    }
  }

  /** A callback can do `s` now. */
  predicate Acts(q: TimerModel.Queue, s: Step) { Enabled(q, s) && !s.Begin? && !s.Call1? && !s.End? }

  /** The steps of `steps`, in order, that can be done when their turn comes. */
  ghost function Tried(q: TimerModel.Queue, steps: seq<Step>): seq<Step> {
    if steps == [] then []
    else
      var before, s := Tried(q, steps[..|steps| - 1]), steps[|steps| - 1];
      before + if Run(q, before).Some? && Acts(Run(q, before).value, s) then [s] else []
  }

  /** The first `n` calls of a batch, and what their callbacks do. */
  ghost function Called(q: TimerModel.Queue, callbacks: seq<seq<Step>>, n: nat): seq<Step> {
    if n == 0 then []
    else
      var before := Called(q, callbacks, n - 1);
      var now := Run(q, before);
      var called := if now.Some? then Run(now.value, [Call1]) else None;
      before + [Call1] +
        if called.Some? then Tried(called.value, if n - 1 < |callbacks| then callbacks[n - 1] else []) else []
  }

  lemma {:induction false} ActsEither(q: TimerModel.Queue, q0: TimerModel.Queue, s: Step)
    requires q0 == q.(batches := 0, calls := [], freed := [])
    ensures Acts(q0, s) == Acts(q, s)
  {}

  lemma {:induction false} NoSteps(q: TimerModel.Queue)
    ensures Legal(q, []) && Run(q, []) == Some(q)
  {}

  lemma {:induction false} ActKeepsBatch(q: TimerModel.Queue, s: Step)
    requires Enabled(q, s) && !s.Begin? && !s.Call1? && !s.End? && Next(q, s).Some?
    ensures var r := Next(q, s).value; r.calling == q.calling && r.batch == q.batch && r.ran == q.ran
  {}

  lemma {:induction false} BeginIs(q: TimerModel.Queue)
    requires Inv(q) && !q.calling
    ensures forall e | e in q.timers :: e.addr in q.mem
    ensures var read := q.(fd := if q.fd == Fired then Disarmed else q.fd);
      var r := TimerModel.GetExpired(read, q.clock).(calling := true, canceling := {}, batches := q.batches + 1);
      TimerModel.GetExpired(read, q.clock).batches == q.batches && Inv(r) && Legal(q, [Begin]) && Run(q, [Begin]) == Some(r)
      && r == BeginRead(q) && r.ran == 0
  {
    BeginKeeps(q);
    OneStep(q, Begin);
  }

  lemma {:induction false} EndIs(q: TimerModel.Queue)
    requires Inv(q) && q.calling && q.ran == |q.batch|
    ensures Resetting(q.(calling := false)) && ResetAll(q.(calling := false)).Some?
    ensures var r := RearmedAtEnd(ResetAll(q.(calling := false)).value).(ran := 0);
      Inv(r) && !r.calling && Legal(q, [End]) && Run(q, [End]) == Some(r)
  {
    hide Placed, Indexed, Numbered, ResetAll;
    var q0 := q.(calling := false);
    SamePlaces(q, q0);
    EndKeeps(q);
    OneStep(q, End);
    ResetAllRan(q0);
    ResetAllKeeps(q0);
  }

  lemma {:induction false} ResetAllRan(q: TimerModel.Queue)
    requires Resetting(q)
    ensures ResetAll(q).Some? && RearmedAtEnd(ResetAll(q).value.(ran := 0)) == RearmedAtEnd(ResetAll(q).value).(ran := 0)
  {
    hide Resetting, ResetAll;
    ResetAllKeeps(q);
  }

  lemma {:induction false} NoIds(q: TimerModel.Queue)
    ensures IdsOf(q, []) == {}
  {}

  lemma {:induction false} NextId(q: TimerModel.Queue, es: seq<Entry>, i: nat)
    requires i < |es| && es[i].addr in q.mem
    ensures IdsOf(q, es[..i + 1]) == IdsOf(q, es[..i]) + {Id(es[i].addr, q.mem[es[i].addr].seqno)}
  {
    assert es[..i + 1] == es[..i] + [es[i]];
  }

  lemma {:induction false} OneStep(q: TimerModel.Queue, s: Step)
    requires Enabled(q, s) && Next(q, s).Some?
    ensures Legal(q, [s]) && Run(q, [s]) == Next(q, s)
  {
    assert [s][1..] == [];
  }

  /** A run followed by a run is a run. */
  lemma {:induction false} RunOn(q: TimerModel.Queue, steps: seq<Step>, more: seq<Step>)
    requires Legal(q, steps) && Run(q, steps).Some? && Legal(Run(q, steps).value, more)
    ensures Legal(q, steps + more) && Run(q, steps + more) == Run(Run(q, steps).value, more)
    decreases |steps|
  {
    if steps == [] {
      assert steps + more == more;
    } else {
      assert (steps + more)[1..] == steps[1..] + more;
      RunOn(Next(q, steps[0]).value, steps[1..], more);
    }
  }
}
