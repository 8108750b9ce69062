/** The functor queue of EventLoop: producer threads and the loop thread, interleaved at
    every lock, every write to the wake-up descriptor and every callback. */
module FunctorQueue {
  import opened Basics

  type Tid = nat

  /** Where the loop thread is in loop(). `Flagged` lies between setting
      callingPendingFunctors_ and the swap under the lock. */
  datatype Phase = Top | Polling | Events | Flagged | Running

  /** A functor that was run, and in which round of doPendingFunctors. */
  datatype Ran = Ran(functor: nat, round: nat)

  /** Functors are numbered in the order in which they enter the queue under the lock. */
  datatype Loop = Loop(
    phase: Phase,
    pending: seq<nat>,       // pendingFunctors_
    batch: seq<nat>,         // `functors` in doPendingFunctors
    next: nat,               // functors of the batch run so far
    counter: nat,            // the value of the wake-up eventfd
    owing: set<Tid>,         // producers between the push and the wake-up write
    loopOwes: bool,          // the loop thread itself, inside a functor, likewise
    pushedIn: seq<nat>,      // for every functor queued: the rounds begun before
    rounds: nat,             // swaps made
    log: seq<Ran>)           // functors run, in order

  function Initial(): Loop { Loop(Top, [], [], 0, 0, {}, false, [], 0, []) }

  /** callingPendingFunctors_. */
  predicate Calling(l: Loop) { l.phase == Flagged || l.phase == Running }

  datatype Step =
    | Push(thread: Tid)      // queueInLoop on another thread, under the lock
    | Wake(thread: Tid)      // ... and its wakeup()
    | EnterPoll
    | PollWoken              // poll returns because the eventfd is readable
    | PollOther              // poll returns for another reason, or times out
    | ReadWakeUp             // handleRead
    | EventPush              // queueInLoop by an event handler on the loop thread
    | BeginFunctors
    | Swap
    | RunFunctor
    | FunctorPush            // queueInLoop by a functor that is running
    | FunctorWake            // ... and its wakeup()
    | EndFunctors

  predicate Enabled(l: Loop, s: Step) {
    match s
    case Push(t) => t !in l.owing
    case Wake(t) => t in l.owing
    case EnterPoll => l.phase == Top
    case PollWoken => l.phase == Polling && l.counter > 0
    case PollOther => l.phase == Polling
    case ReadWakeUp => l.phase == Events && l.counter > 0
    case EventPush => l.phase == Events
    case BeginFunctors => l.phase == Events
    case Swap => l.phase == Flagged
    case RunFunctor => l.phase == Running && l.next < |l.batch| && !l.loopOwes
    case FunctorPush => l.phase == Running && 0 < l.next && !l.loopOwes
    case FunctorWake => l.phase == Running && l.loopOwes
    case EndFunctors => l.phase == Running && l.next == |l.batch| && !l.loopOwes
  }

  /** The push of queueInLoop. */
  function Pushed(l: Loop): Loop {
    l.(pending := l.pending + [|l.pushedIn|], pushedIn := l.pushedIn + [l.rounds])
  }

  function Next(l: Loop, s: Step): Loop
    requires Enabled(l, s)
  {
    match s
    case Push(t) => Pushed(l).(owing := l.owing + {t})
    case Wake(t) => l.(counter := l.counter + 1, owing := l.owing - {t})
    case EnterPoll => l.(phase := Polling)
    case PollWoken => l.(phase := Events)
    case PollOther => l.(phase := Events)
    case ReadWakeUp => l.(counter := 0)
    case EventPush => Pushed(l)
    case BeginFunctors => l.(phase := Flagged)
    case Swap => l.(phase := Running, batch := l.pending, next := 0, pending := [], rounds := l.rounds + 1)
    case RunFunctor => l.(next := l.next + 1, log := l.log + [Ran(l.batch[l.next], l.rounds)])
    case FunctorPush => Pushed(l).(loopOwes := true)
    case FunctorWake => l.(counter := l.counter + 1, loopOwes := false)
    case EndFunctors => l.(phase := Top, batch := [], next := 0)
  }

  function Run(l: Loop, steps: seq<Step>): Option<Loop>
    decreases |steps|
  {
    if steps == [] then Some(l)
    else if Enabled(l, steps[0]) then Run(Next(l, steps[0]), steps[1..])
    else None
  }

  // ----- what every interleaving keeps -----

  ghost function UpTo(n: nat): seq<nat> { seq(n, i => i) }

  ghost function Functors(log: seq<Ran>): seq<nat> { seq(|log|, i requires 0 <= i < |log| => log[i].functor) }

  /** Functors run, then those left of the batch, then those pending: all of them, in order. */
  ghost predicate Ordered(l: Loop) {
    && l.next <= |l.batch|
    && Functors(l.log) + l.batch[l.next..] + l.pending == UpTo(|l.pushedIn|)
  }

  /** Every functor runs in the round after the one it was queued in. */
  ghost predicate Rounds(l: Loop) {
    && (forall i | 0 <= i < |l.pending| :: l.pending[i] < |l.pushedIn| && l.pushedIn[l.pending[i]] == l.rounds)
    && (forall i | 0 <= i < |l.batch| :: l.batch[i] < |l.pushedIn| && l.pushedIn[l.batch[i]] + 1 == l.rounds)
    && (forall i | 0 <= i < |l.log| ::
          l.log[i].functor < |l.pushedIn| && l.pushedIn[l.log[i].functor] + 1 == l.log[i].round)
  }

  /** Pending functors are noticed: this iteration still swaps, or a wake-up is written or due. */
  ghost predicate Noticed(l: Loop) {
    l.pending != [] ==>
      l.phase == Events || l.phase == Flagged || l.counter > 0 || SomeProducerOwes(l) || l.loopOwes
  }

  ghost predicate SomeProducerOwes(l: Loop) { exists t :: t in l.owing }

  ghost predicate Inv(l: Loop) {
    && Ordered(l) && Rounds(l) && Noticed(l)
    && (l.loopOwes ==> l.phase == Running)
    && (l.phase != Running ==> l.batch == [] && l.next == 0)
  }

  lemma {:induction false} PushedKeeps(l: Loop)
    requires Ordered(l) && Rounds(l)
    ensures Ordered(Pushed(l)) && Rounds(Pushed(l))
  {
    var n := |l.pushedIn|;
    assert UpTo(n + 1) == UpTo(n) + [n];
  }

  lemma {:induction false} RunOneKeeps(l: Loop)
    requires Ordered(l) && Rounds(l) && Enabled(l, RunFunctor)
    ensures Ordered(Next(l, RunFunctor)) && Rounds(Next(l, RunFunctor))
  {
    var r := Next(l, RunFunctor);
    assert Functors(r.log) == Functors(l.log) + [l.batch[l.next]];
    assert l.batch[l.next..] == [l.batch[l.next]] + l.batch[l.next + 1..];
  }

  lemma {:induction false} StepKeeps(l: Loop, s: Step)
    requires Inv(l) && Enabled(l, s)
    ensures Inv(Next(l, s))
  {
    match s
    case Push(t) =>
      PushedKeeps(l);
      assert t in Next(l, s).owing;
    case EventPush => PushedKeeps(l);
    case FunctorPush => PushedKeeps(l);
    case RunFunctor => RunOneKeeps(l);
    case Swap => assert l.batch[l.next..] == [] && l.pending[0..] == l.pending;
    case EndFunctors => assert l.batch[l.next..] == [];
    case _ =>
  }

  lemma {:induction false} RunKeeps(l: Loop, steps: seq<Step>)
    requires Inv(l) && Run(l, steps).Some?
    ensures Inv(Run(l, steps).value)
    decreases |steps|
  {
    if steps != [] {
      StepKeeps(l, steps[0]);
      RunKeeps(Next(l, steps[0]), steps[1..]);
    }
  }

  /** In every interleaving functors run at most once and in lock order, each in the round
      after the one in which it was queued. */
  lemma {:induction false} RunOnceInOrder(steps: seq<Step>)
    requires Run(Initial(), steps).Some?
    ensures var l := Run(Initial(), steps).value;
      && |l.log| <= |l.pushedIn|
      && (forall i | 0 <= i < |l.log| :: l.log[i].functor == i && l.log[i].round == l.pushedIn[i] + 1)
  {
    hide Run, Initial, Noticed;
    InitialInv();
    RunKeeps(Initial(), steps);
    var l := Run(Initial(), steps).value;
    forall i | 0 <= i < |l.log| ensures l.log[i].functor == i {
      assert l.log[i].functor == Functors(l.log)[i];
      assert UpTo(|l.pushedIn|)[i] == (Functors(l.log) + l.batch[l.next..] + l.pending)[i];
    }
    assert |UpTo(|l.pushedIn|)| == |l.pushedIn|;
  }

  /** Whenever the loop is in poll with functors pending, the wake-up descriptor is readable
      or a producer that has pushed is about to write to it. */
  lemma {:induction false} NoLostWakeUp(steps: seq<Step>)
    requires Run(Initial(), steps).Some?
    ensures var l := Run(Initial(), steps).value;
      l.phase == Polling && l.pending != [] ==> l.counter > 0 || SomeProducerOwes(l)
  {
    hide Ordered, Rounds, Run, Initial;
    InitialInv();
    RunKeeps(Initial(), steps);
  }

  // ----- nothing is left behind -----

  ghost function Repeat(s: Step, n: nat): seq<Step> { seq(n, _ => s) }

  /** What is left to do from poll: a wake-up write if none was made yet, then one iteration. */
  ghost function Drain(l: Loop, t: Tid): seq<Step> {
    (if l.counter > 0 then [] else [Wake(t)])
      + [PollWoken, ReadWakeUp, BeginFunctors, Swap] + Repeat(RunFunctor, |l.pending|) + [EndFunctors]
  }

  lemma {:induction false} RunOn(l: Loop, a: seq<Step>, b: seq<Step>)
    requires Run(l, a).Some?
    ensures Run(l, a + b) == Run(Run(l, a).value, b)
    decreases |a|
  {
    if a == [] {
      assert a + b == b;
    } else {
      assert (a + b)[1..] == a[1..] + b;
      RunOn(Next(l, a[0]), a[1..], b);
    }
  }

  lemma {:induction false} RunRest(l: Loop, n: nat)
    requires l.phase == Running && !l.loopOwes && l.next + n == |l.batch|
    ensures Run(l, Repeat(RunFunctor, n)).Some?
    ensures var r := Run(l, Repeat(RunFunctor, n)).value;
      r.phase == Running && !r.loopOwes && r.next == |r.batch| && |r.log| == |l.log| + n && r.pending == l.pending
      && r.pushedIn == l.pushedIn
    decreases n
  {
    if n > 0 {
      assert Repeat(RunFunctor, n)[1..] == Repeat(RunFunctor, n - 1);
      RunRest(Next(l, RunFunctor), n - 1);
    }
  }

  lemma {:induction false} Iterate(l: Loop)
    requires Inv(l) && l.phase == Polling && l.counter > 0
    ensures var steps := [PollWoken, ReadWakeUp, BeginFunctors, Swap] + Repeat(RunFunctor, |l.pending|) + [EndFunctors];
      && Run(l, steps).Some?
      && var r := Run(l, steps).value;
      r.phase == Top && r.pending == [] && |r.log| == |l.log| + |l.pending| && r.pushedIn == l.pushedIn
  {
    var head := [PollWoken, ReadWakeUp, BeginFunctors, Swap];
    var body := Repeat(RunFunctor, |l.pending|);
    var l1 := Next(l, PollWoken);
    var l2 := Next(l1, ReadWakeUp);
    var l3 := Next(l2, BeginFunctors);
    var l4 := Next(l3, Swap);
    assert head[1..] == [ReadWakeUp, BeginFunctors, Swap] && head[1..][1..] == [BeginFunctors, Swap];
    assert head[1..][1..][1..] == [Swap] && [Swap][1..] == [];
    assert Run(l3, [Swap]) == Some(l4);
    assert Run(l2, [BeginFunctors, Swap]) == Some(l4);
    assert Run(l1, [ReadWakeUp, BeginFunctors, Swap]) == Some(l4);
    assert Run(l, head) == Some(l4);
    RunRest(l4, |l.pending|);
    RunOn(l, head, body);
    var l5 := Run(l4, body).value;
    RunOn(l, head + body, [EndFunctors]);
    assert [EndFunctors][1..] == [];
    assert Run(l5, [EndFunctors]) == Some(Next(l5, EndFunctors));
  }

  lemma {:induction false} DrainRuns(l: Loop, t: Tid)
    requires Inv(l) && l.phase == Polling && (l.counter > 0 || t in l.owing)
    ensures Run(l, Drain(l, t)).Some?
    ensures var r := Run(l, Drain(l, t)).value;
      r.pending == [] && r.pushedIn == l.pushedIn && |r.log| == |l.log| + |l.pending|
  {
    hide Inv;
    if l.counter > 0 {
      assert Drain(l, t) == [PollWoken, ReadWakeUp, BeginFunctors, Swap] + Repeat(RunFunctor, |l.pending|) + [EndFunctors];
      Iterate(l);
    } else {
      StepKeeps(l, Wake(t));
      Iterate(Next(l, Wake(t)));
      assert Drain(l, t)[1..] == [PollWoken, ReadWakeUp, BeginFunctors, Swap] + Repeat(RunFunctor, |l.pending|) + [EndFunctors];
    }
  }

  lemma {:induction false} DrainNeedsNoOther(l: Loop, t: Tid)
    ensures PollOther !in Drain(l, t)
  {
    var a, b, c := (if l.counter > 0 then [] else [Wake(t)]) + [PollWoken, ReadWakeUp, BeginFunctors, Swap],
                   Repeat(RunFunctor, |l.pending|), [EndFunctors];
    assert Drain(l, t) == a + b + c;
    assert PollOther !in a && PollOther !in b && PollOther !in c;
  }

  lemma {:induction false} AllCounted(l: Loop)
    requires Inv(l) && l.phase == Polling
    ensures |l.log| + |l.pending| == |l.pushedIn|
  {
    assert |Functors(l.log) + l.batch[l.next..] + l.pending| == |UpTo(|l.pushedIn|)|;
  }

  lemma {:induction false} InitialInv()
    ensures Inv(Initial())
  {
    assert Functors([]) + [] + [] == UpTo(0);
  }

  /** From poll, the wake-ups alone, with no timeout and no other event, suffice to have
      every functor that was queued run. */
  lemma {:induction false} EveryFunctorRuns(steps: seq<Step>) returns (more: seq<Step>)
    requires Run(Initial(), steps).Some?
    requires Run(Initial(), steps).value.phase == Polling && Run(Initial(), steps).value.pending != []
    ensures PollOther !in more && Run(Initial(), steps + more).Some?
    ensures var l, r := Run(Initial(), steps).value, Run(Initial(), steps + more).value;
      r.pending == [] && r.pushedIn == l.pushedIn && |r.log| == |r.pushedIn|
  {
    hide Inv, Run, Initial, Drain, Next;
    InitialInv();
    RunKeeps(Initial(), steps);
    NoLostWakeUp(steps);
    var l := Run(Initial(), steps).value;
    AllCounted(l);
    var t: Tid := 0;
    if l.counter == 0 { t :| t in l.owing; }
    more := Drain(l, t);
    DrainNeedsNoOther(l, t);
    DrainRuns(l, t);
    RunOn(Initial(), steps, more);
  }

  // ----- the wake-up counter -----

  /** The wake-ups written since the eventfd was last read, after `n` before the steps. */
  ghost function Unread(n: nat, steps: seq<Step>): nat
    decreases |steps|
  {
    if steps == [] then n
    else if steps[0] == ReadWakeUp then Unread(0, steps[1..])
    else if steps[0].Wake? || steps[0].FunctorWake? then Unread(n + 1, steps[1..])
    else Unread(n, steps[1..])
  }

  /** The counter is the number of wake-ups written and not yet read: none comes of itself, and a
      read takes them all. */
  lemma {:induction false} CounterExact(l: Loop, steps: seq<Step>)
    requires Run(l, steps).Some?
    ensures Run(l, steps).value.counter == Unread(l.counter, steps)
    decreases |steps|
  {
    if steps != [] { CounterExact(Next(l, steps[0]), steps[1..]); }
  }

  // ----- every schedule -----

  /** The first `n` functors have run, are being run, or will be taken by the swap to come. */
  ghost predicate OnTheWay(l: Loop, n: nat) {
    || |l.log| >= n
    || l.phase == Polling || l.phase == Events || l.phase == Flagged
    || (l.phase == Running && |l.log| + |l.batch| - l.next >= n)
  }

  lemma {:induction false} StepOnTheWay(l: Loop, s: Step, n: nat)
    requires Inv(l) && Enabled(l, s) && OnTheWay(l, n) && n <= |l.pushedIn|
    ensures OnTheWay(Next(l, s), n) && n <= |Next(l, s).pushedIn|
  {
    if s == Swap {
      assert |Functors(l.log) + l.batch[l.next..] + l.pending| == |UpTo(|l.pushedIn|)|;
    }
  }

  lemma {:induction false} RunOnTheWay(l: Loop, steps: seq<Step>, n: nat)
    requires Inv(l) && Run(l, steps).Some? && OnTheWay(l, n) && n <= |l.pushedIn|
    ensures OnTheWay(Run(l, steps).value, n)
    decreases |steps|
  {
    hide Inv, Next, Enabled, OnTheWay;
    if steps != [] {
      StepKeeps(l, steps[0]);
      StepOnTheWay(l, steps[0], n);
      RunOnTheWay(Next(l, steps[0]), steps[1..], n);
    }
  }

  /** Under every schedule: what was queued when the loop was in poll, handling events, or
      about to swap, has run when the loop is back at its top. */
  lemma {:induction false} IterationRunsAll(before: seq<Step>, during: seq<Step>)
    requires Run(Initial(), before).Some? && Run(Initial(), before + during).Some?
    requires var p := Run(Initial(), before).value.phase; p == Polling || p == Events || p == Flagged
    requires Run(Initial(), before + during).value.phase == Top
    ensures var l, r := Run(Initial(), before).value, Run(Initial(), before + during).value;
      forall f | 0 <= f < |l.pushedIn| :: f < |r.log| && r.log[f].functor == f
  {
    hide Inv, Run, Initial, Next;
    InitialInv();
    RunKeeps(Initial(), before);
    RunOn(Initial(), before, during);
    var l := Run(Initial(), before).value;
    RunOnTheWay(l, during, |l.pushedIn|);
    RunOnceInOrder(before + during);
  }
}
