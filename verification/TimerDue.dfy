/** What each step does to one timer, and that a timer is called when it is due. */
module TimerDue {
  import opened Basics
  import opened TimerModel
  import opened TimerInvariant
  import opened TimerTheorems

  // ----- single steps -----

  /** A new timer has the time, the interval and the repetition it was made with, and the next
      number; it is on its way to the loop, and nothing else changes. */
  lemma {:induction false} CreateExact(q: Queue, a: Addr, when: int, delta: nat, repeat: bool)
    requires Inv(q) && Enabled(q, Create(a, when, delta, repeat))
    ensures Next(q, Create(a, when, delta, repeat)).Some?
    ensures var r := Next(q, Create(a, when, delta, repeat)).value;
      && a in r.mem && r.mem[a].expiration == when && r.mem[a].delta == delta && r.mem[a].repeat == repeat
      && r.mem[a].seqno == q.created && a in r.inFlight && r.created == q.created + 1
      && r.mem - {a} == q.mem && r.inFlight == q.inFlight + {a} && r == q.(mem := r.mem, created := r.created, inFlight := r.inFlight)
  {
    assert a !in q.mem;
  }

  /** Before its time, or 100 microseconds ahead. */
  ghost function DeadlineFor(when: int, clock: int): int { if when - clock < 100 then clock + 100 else when }

  /** The timer enters both indexes at its time and no other timer is touched; the timerfd is set for
      it exactly if it comes before all others. */
  lemma {:induction false} AddExact(q: Queue, a: Addr)
    requires Inv(q) && Enabled(q, Add(a))
    ensures Next(q, Add(a)).Some?
    ensures var r := Next(q, Add(a)).value; var e := Key(q.mem, a);
      && e !in q.timers && e in r.timers && (forall x | x in q.timers :: x in r.timers)
      && (forall x | x in r.timers :: x in q.timers || x == e) && Sorted(r.timers)
      && r.active == q.active + {IdAt(q, a)} && r.inFlight == q.inFlight - {a} && r.mem == q.mem
      && (if forall x | x in q.timers :: e.when < x.when
          then r.fd == Armed(DeadlineFor(e.when, q.clock)) && r.lastArm == q.clock
          else r.fd == q.fd && r.lastArm == q.lastArm)
      && r == q.(timers := r.timers, active := r.active, inFlight := r.inFlight, fd := r.fd, lastArm := r.lastArm)
  {
    hide Indexed, Numbered, Phases, WakeUp, AllInPlace, Inserted, HowMuchTimeFromNow, Nanos;
    PlaceOf1(q, a);
    var e := Key(q.mem, a);
    InsertedMembers(q.timers, e);
    if q.timers != [] { SortedHead(q.timers); }
    RearmedDeadline(Insert(q, a).(inFlight := q.inFlight - {a}), e.when);
  }

  /** A pending timer with that identity leaves both indexes and is deleted; an identity that is not
      pending is marked while callbacks run and ignored otherwise; no other timer is touched. */
  lemma {:induction false} CancelExact(q: Queue, id: Id)
    requires Inv(q)
    ensures Next(q, Cancel(id)).Some?
    ensures var r := Next(q, Cancel(id)).value;
      if id.addr in q.mem && q.mem[id.addr].seqno == id.seqno && Key(q.mem, id.addr) in q.timers then
        var e := Key(q.mem, id.addr);
        && e !in r.timers && (forall x | x in q.timers && x != e :: x in r.timers) && (forall x | x in r.timers :: x in q.timers)
        && r.active == q.active - {id} && r.mem == q.mem - {id.addr} && r.freed == q.freed + [id.seqno]
        && r == q.(timers := r.timers, active := r.active, mem := r.mem, freed := r.freed)
      else r == q.(canceling := if q.calling then q.canceling + {id} else q.canceling)
  {
    CancelKeeps(q, id);
    if id in q.active { ErasedMembers(q.timers, Key(q.mem, id.addr)); }
  }

  /** The beginning of a batch reads the timerfd, notes the time and clears the marks; what is due
      leaves the indexes, and nothing else changes. */
  lemma {:induction false} BeginExact(q: Queue)
    requires Inv(q) && Enabled(q, Begin)
    ensures Next(q, Begin).Some?
    ensures var r := Next(q, Begin).value;
      && r.fd == (if q.fd == Fired then Disarmed else q.fd) && r.now == q.clock && r.canceling == {} && r.calling && r.ran == 0
      && r.timers == q.timers[|r.batch|..] && r.batch == q.timers[..|r.batch|]
      && (forall id | id in r.active :: id in q.active)
      && r == q.(fd := r.fd, now := r.now, canceling := {}, calling := true, ran := 0, batches := q.batches + 1,
                 timers := r.timers, batch := r.batch, active := r.active)
  {
    SentinelExact(q.mem, q.created, q.freed, q.timers, q.clock);
  }

  /** At the end of a batch the timerfd is set for the earliest timer, if its time is positive. */
  lemma {:induction false} EndArms(q: Queue)
    requires Inv(q) && Enabled(q, End)
    ensures Next(q, End).Some?
    ensures var r := Next(q, End).value;
      && !r.calling && r.batch == [] && r.clock == q.clock
      && if r.timers != [] && r.timers[0].when > 0
         then r.fd == Armed(DeadlineFor(r.timers[0].when, q.clock)) && r.lastArm == q.clock
         else r.fd == q.fd && r.lastArm == q.lastArm
  {
    hide Numbered, Indexed, Placed, WakeUp;
    StepKeeps(q, End);
    var q0 := q.(calling := false);
    ResetAllRest(q0);
    RearmedDeadline(ResetAll(q0).value.(ran := 0), if ResetAll(q0).value.timers == [] then 0 else ResetAll(q0).value.timers[0].when);
  }

  lemma {:induction false} ResetAllRest(q: Queue)
    requires ResetAll(q).Some?
    ensures var r := ResetAll(q).value;
      r.batch == [] && r.fd == q.fd && r.lastArm == q.lastArm && r.clock == q.clock && r.calling == q.calling
    decreases |q.batch|
  {
    if q.batch != [] { ResetAllRest(ResetOne(q).value); }
  }

  // ----- one timer through a run -----

  /** The timer at `a` is `t`. */
  ghost predicate Holds(q: Queue, a: Addr, t: Timer) { a in q.mem && q.mem[a] == t }

  ghost predicate OnItsWay(q: Queue, a: Addr, t: Timer) { Holds(q, a, t) && a in q.inFlight }

  ghost predicate Pending(q: Queue, a: Addr, t: Timer) { Holds(q, a, t) && Key(q.mem, a) in q.timers }

  ghost predicate InBatch(q: Queue, a: Addr, t: Timer, j: nat) {
    Holds(q, a, t) && q.calling && j < |q.batch| && q.batch[j] == Key(q.mem, a)
  }

  ghost function CallsOf(calls: seq<Call>, s: nat): nat {
    if calls == [] then 0
    else CallsOf(calls[..|calls| - 1], s) + if calls[|calls| - 1].seqno == s then 1 else 0
  }

  lemma {:induction false} CallsNext(calls: seq<Call>, c: Call, s: nat)
    ensures CallsOf(calls + [c], s) == CallsOf(calls, s) + if c.seqno == s then 1 else 0
  {
    assert (calls + [c])[..|calls + [c]| - 1] == calls;
  }

  lemma {:induction false} PlaceOf1(q: Queue, a: Addr)
    requires Inv(q) && a in q.mem
    ensures OnePlace(q.mem, q.inFlight, q.timers, q.batch, a)
  {}

  /** Only a callback of the timer itself is a call of it. */
  lemma {:induction false} StepCalls(q: Queue, step: Step, a: Addr, t: Timer)
    requires Inv(q) && Enabled(q, step) && Next(q, step).Some? && Holds(q, a, t)
    ensures CallsOf(Next(q, step).value.calls, t.seqno)
         == CallsOf(q.calls, t.seqno) + if step.Call1? && q.batch[q.ran].addr == a then 1 else 0
  {
    hide Placed, Indexed, Phases, WakeUp;
    StepFrees(q, step);
    if step.Call1? {
      CalledExists(q);
      var b := q.batch[q.ran].addr;
      CallsNext(q.calls, Call(q.mem[b].seqno, q.batches), t.seqno);
      assert q.mem[b].seqno == t.seqno ==> b == a;
    }
  }

  /** Until it is added a timer stays on its way, whatever else happens. */
  lemma {:induction false} WayStep(q: Queue, step: Step, a: Addr, t: Timer)
    requires Inv(q) && Enabled(q, step) && OnItsWay(q, a, t) && step != Add(a)
    ensures Next(q, step).Some? && OnItsWay(Next(q, step).value, a, t)
    ensures CallsOf(Next(q, step).value.calls, t.seqno) == CallsOf(q.calls, t.seqno)
  {
    hide Indexed, Phases, WakeUp, Sorted, AllInPlace, Numbered, AddInLoop, CancelInLoop, BeginRead, EndRead;
    PlaceOf1(q, a);
    StepKeeps(q, step);
    StepCalls(q, step, a, t);
    match step
    case Cancel(id) => CancelExact(q, id);
    case Add(b) => AddExact(q, b);
    case Begin => BeginKeepsWay(q);
    case Call1 => assert q.batch[q.ran] in q.batch;
    case End =>
      EndExact(q, a);
      EndKeepsWay(q);
    case _ =>
  }

  lemma {:induction false} BeginKeepsWay(q: Queue)
    ensures BeginRead(q).mem == q.mem && BeginRead(q).inFlight == q.inFlight
  {}

  lemma {:induction false} EndKeepsWay(q: Queue)
    requires Enabled(q, End) && EndRead(q).Some?
    ensures EndRead(q).value.inFlight == q.inFlight
  {
    ResetAllWay(q.(calling := false));
  }

  lemma {:induction false} ResetAllWay(q: Queue)
    requires ResetAll(q).Some?
    ensures ResetAll(q).value.inFlight == q.inFlight
    decreases |q.batch|
  {
    if q.batch != [] { ResetAllWay(ResetOne(q).value); }
  }

  /** Until it is due or cancelled a pending timer stays pending, and is not called. */
  lemma {:induction false} PendingStep(q: Queue, step: Step, a: Addr, t: Timer)
    requires Inv(q) && Enabled(q, step) && Pending(q, a, t)
    requires step != Cancel(Id(a, t.seqno)) && !(step == Begin && t.expiration <= q.clock)
    ensures Next(q, step).Some? && Pending(Next(q, step).value, a, t)
    ensures CallsOf(Next(q, step).value.calls, t.seqno) == CallsOf(q.calls, t.seqno)
  {
    hide Indexed, Phases, WakeUp, Sorted, AllInPlace, Numbered, AddInLoop, CancelInLoop, BeginRead, EndRead;
    PlaceOf1(q, a);
    StepKeeps(q, step);
    StepCalls(q, step, a, t);
    match step
    case Cancel(id) => CancelExact(q, id);
    case Add(b) => AddExact(q, b);
    case Begin => BatchExact(q);
    case Call1 => assert q.batch[q.ran] in q.batch;
    case End => EndExact(q, a);
    case _ =>
  }

  /** A due timer is in the batch that begins. */
  lemma {:induction false} DueJoins(q: Queue, a: Addr, t: Timer) returns (j: nat)
    requires Inv(q) && Enabled(q, Begin) && Pending(q, a, t) && t.expiration <= q.clock
    ensures Next(q, Begin).Some?
    ensures var r := Next(q, Begin).value;
      && InBatch(r, a, t, j) && r.ran == 0 && r.now == q.clock && r.batches == q.batches + 1 && r.canceling == {}
      && CallsOf(r.calls, t.seqno) == CallsOf(q.calls, t.seqno)
  {
    BatchExact(q);
    StepFrees(q, Begin);
    var r := BeginRead(q);
    j :| 0 <= j < |r.batch| && r.batch[j] == Key(q.mem, a);
  }

  /** Until the batch ends the timer is called when its turn comes, once. */
  lemma {:induction false} BatchStep(q: Queue, step: Step, a: Addr, t: Timer, j: nat)
    requires Inv(q) && Enabled(q, step) && InBatch(q, a, t, j) && !step.End?
    ensures Next(q, step).Some?
    ensures var r := Next(q, step).value;
      && InBatch(r, a, t, j) && r.now == q.now && r.batches == q.batches && q.ran <= r.ran
      && CallsOf(r.calls, t.seqno) == CallsOf(q.calls, t.seqno) + if q.ran <= j < r.ran then 1 else 0
  {
    hide Indexed, Phases, WakeUp, Sorted, AllInPlace, Numbered, AddInLoop, CancelInLoop, BeginRead, EndRead, ResetRight;
    PlaceOf1(q, a);
    StepKeeps(q, step);
    StepCalls(q, step, a, t);
    assert q.batch[j] in q.batch;
    match step
    case Cancel(id) => CancelExact(q, id);
    case Add(b) => AddExact(q, b);
    case Call1 => OnceInBatch(q.mem, q.batch, q.ran, j);
    case _ =>
  }

  lemma {:induction false} OnceInBatch(mem: map<Addr, Timer>, es: seq<Entry>, i: nat, j: nat)
    requires Current(mem, es) && i < |es| && j < |es|
    ensures es[i].addr == es[j].addr ==> i == j
    decreases |es|
  {
    assert es[i] in es && es[j] in es;
    SortedApart(es, i, j);
  }

  lemma {:induction false} SortedApart(es: seq<Entry>, i: nat, j: nat)
    requires Sorted(es) && i < |es| && j < |es|
    ensures es[i] == es[j] ==> i == j
    decreases |es|
  {
    if i > 0 && j > 0 {
      SortedApart(es[1..], i - 1, j - 1);
    } else if i != j {
      var k := if i == 0 then j else i;
      assert es[k] == es[1..][k - 1] && es[1..][k - 1] in es[1..];
    }
  }

  // ----- runs -----

  /** No step of the run cancels the timer, and no batch begins when it is due. */
  ghost predicate LeavesPending(q: Queue, steps: seq<Step>, a: Addr, t: Timer)
    decreases |steps|
  {
    steps == [] ||
    (steps[0] != Cancel(Id(a, t.seqno)) && !(steps[0] == Begin && t.expiration <= q.clock)
     && (Enabled(q, steps[0]) && Next(q, steps[0]).Some? ==> LeavesPending(Next(q, steps[0]).value, steps[1..], a, t)))
  }

  lemma {:induction false} PendingRun(q: Queue, steps: seq<Step>, a: Addr, t: Timer)
    requires Inv(q) && Legal(q, steps) && Pending(q, a, t) && LeavesPending(q, steps, a, t)
    ensures Run(q, steps).Some? && Inv(Run(q, steps).value) && Pending(Run(q, steps).value, a, t)
    ensures CallsOf(Run(q, steps).value.calls, t.seqno) == CallsOf(q.calls, t.seqno)
    decreases |steps|
  {
    hide Inv, Next, Enabled, Pending;
    if steps != [] {
      StepKeeps(q, steps[0]);
      PendingStep(q, steps[0], a, t);
      PendingRun(Next(q, steps[0]).value, steps[1..], a, t);
    }
  }

  lemma {:induction false} WayRun(q: Queue, steps: seq<Step>, a: Addr, t: Timer)
    requires Inv(q) && Legal(q, steps) && OnItsWay(q, a, t) && Add(a) !in steps
    ensures Run(q, steps).Some? && Inv(Run(q, steps).value) && OnItsWay(Run(q, steps).value, a, t)
    ensures CallsOf(Run(q, steps).value.calls, t.seqno) == CallsOf(q.calls, t.seqno)
    decreases |steps|
  {
    hide Inv, Next, Enabled, OnItsWay;
    if steps != [] {
      StepKeeps(q, steps[0]);
      WayStep(q, steps[0], a, t);
      WayRun(Next(q, steps[0]).value, steps[1..], a, t);
    }
  }

  lemma {:induction false} BatchRun(q: Queue, steps: seq<Step>, a: Addr, t: Timer, j: nat)
    requires Inv(q) && Legal(q, steps) && InBatch(q, a, t, j) && End !in steps
    ensures Run(q, steps).Some? && Inv(Run(q, steps).value)
    ensures var r := Run(q, steps).value;
      && InBatch(r, a, t, j) && r.now == q.now && r.batches == q.batches && q.ran <= r.ran
      && CallsOf(r.calls, t.seqno) == CallsOf(q.calls, t.seqno) + if q.ran <= j < r.ran then 1 else 0
    decreases |steps|
  {
    hide Inv, Next, Enabled, InBatch;
    if steps != [] {
      StepKeeps(q, steps[0]);
      BatchStep(q, steps[0], a, t, j);
      BatchRun(Next(q, steps[0]).value, steps[1..], a, t, j);
    }
  }

  /** A pending timer that is not cancelled before the first batch that begins at or after its time
      is called in that batch, once, and not before. When the batch ends it is pending again at the
      batch's time plus its interval if it repeats and was not cancelled meanwhile, and deleted
      otherwise. `before` comes before that batch, `during` in it. */
  lemma {:induction false} CalledWhenDue(q: Queue, a: Addr, t: Timer, before: seq<Step>, during: seq<Step>)
    requires Inv(q) && Pending(q, a, t) && Legal(q, before) && LeavesPending(q, before, a, t)
    requires Run(q, before).Some? ==>
      var q1 := Run(q, before).value;
      && Enabled(q1, Begin) && t.expiration <= q1.clock && End !in during
      && (Next(q1, Begin).Some? ==>
            && Legal(Next(q1, Begin).value, during)
            && (Run(Next(q1, Begin).value, during).Some? ==> Enabled(Run(Next(q1, Begin).value, during).value, End)))
    ensures Run(q, before).Some? && Next(Run(q, before).value, Begin).Some?
    ensures var q1 := Run(q, before).value; var q2 := Next(q1, Begin).value;
      && Run(q2, during).Some? && var q3 := Run(q2, during).value;
      && Next(q3, End).Some? && var q4 := Next(q3, End).value;
      && CallsOf(q1.calls, t.seqno) == CallsOf(q.calls, t.seqno)
      && CallsOf(q3.calls, t.seqno) == CallsOf(q.calls, t.seqno) + 1 && q4.calls == q3.calls
      && if t.repeat && Id(a, t.seqno) !in q3.canceling
         then Pending(q4, a, t.(expiration := q1.clock + t.delta))
         else a !in q4.mem && t.seqno in q4.freed
  {
    hide Inv, Next, Enabled, Pending, Legal, Run, LeavesPending, InBatch;
    PendingRun(q, before, a, t);
    var q1 := Run(q, before).value;
    var j := DueJoins(q1, a, t);
    StepKeeps(q1, Begin);
    var q2 := Next(q1, Begin).value;
    BatchRun(q2, during, a, t, j);
    var q3 := Run(q2, during).value;
    BatchOver(q3, a, t, j);
  }

  lemma {:induction false} BatchOver(q: Queue, a: Addr, t: Timer, j: nat)
    requires Inv(q) && InBatch(q, a, t, j) && Enabled(q, End)
    ensures j < q.ran && Next(q, End).Some?
    ensures var r := Next(q, End).value;
      && r.calls == q.calls
      && if t.repeat && Id(a, t.seqno) !in q.canceling
         then Pending(r, a, t.(expiration := q.now + t.delta))
         else a !in r.mem && t.seqno in r.freed
  {
    StepKeeps(q, End);
    StepFrees(q, End);
    assert q.batch[j] in q.batch;
    EndExact(q, a);
  }

  /** The same from its making on: a timer made for time `when` and added is called in the first
      batch that begins at or after that time, once, unless it is cancelled before. */
  lemma {:induction false} MadeThenCalled(q: Queue, a: Addr, when: int, delta: nat, repeat: bool,
                                          wait: seq<Step>, before: seq<Step>, during: seq<Step>)
    returns (q0: Queue, q1: Queue, q2: Queue, q3: Queue)
    requires Inv(q) && Enabled(q, Create(a, when, delta, repeat)) && Add(a) !in wait && End !in during
    requires var r := Next(q, Create(a, when, delta, repeat));
      && (r.Some? ==> Legal(r.value, wait))
      && (r.Some? && Run(r.value, wait).Some? ==>
            var added := Next0(Run(r.value, wait).value, a);
            && Legal(added, before)
            && LeavesPending(added, before, a, Timer(q.created, when, delta, repeat))
            && (Run(added, before).Some? ==>
                  var due := Run(added, before).value;
                  && Enabled(due, Begin) && when <= due.clock
                  && (Next(due, Begin).Some? ==>
                        && Legal(Next(due, Begin).value, during)
                        && (Run(Next(due, Begin).value, during).Some? ==>
                              Enabled(Run(Next(due, Begin).value, during).value, End)))))
    ensures Next(q, Create(a, when, delta, repeat)) == Some(q0) && Run(q0, wait).Some?
    ensures q1 == Next0(Run(q0, wait).value, a) && Run(q1, before) == Some(q2) && Next(q2, Begin).Some?
    ensures Run(Next(q2, Begin).value, during) == Some(q3)
    ensures Pending(q1, a, Timer(q.created, when, delta, repeat))
    ensures CallsOf(q2.calls, q.created) == CallsOf(q.calls, q.created)
    ensures CallsOf(q3.calls, q.created) == CallsOf(q.calls, q.created) + 1
  {
    hide Inv, Legal, Run, LeavesPending;
    var t := Timer(q.created, when, delta, repeat);
    CreateExact(q, a, when, delta, repeat);
    StepKeeps(q, Create(a, when, delta, repeat));
    q0 := Next(q, Create(a, when, delta, repeat)).value;
    assert OnItsWay(q0, a, t);
    WayRun(q0, wait, a, t);
    var w := Run(q0, wait).value;
    AddExact(w, a);
    StepKeeps(w, Add(a));
    q1 := Next0(w, a);
    CalledWhenDue(q1, a, t, before, during);
    q2 := Run(q1, before).value;
    q3 := Run(Next(q2, Begin).value, during).value;
  }

  /** The state after the timer at `a` is added, if it can be. */
  ghost function Next0(q: Queue, a: Addr): Queue {
    if Enabled(q, Add(a)) && Next(q, Add(a)).Some? then Next(q, Add(a)).value else q
  }
}
