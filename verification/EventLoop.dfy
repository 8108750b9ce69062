/** EventLoop: the functor queue as the source keeps it, changed in place. */
module EventLoop {
  import opened Basics
  import opened FunctorQueue

  /** Steps of other threads, and of a functor while it runs. */
  predicate Aside(s: Step) { s.Push? || s.Wake? || s.FunctorPush? || s.FunctorWake? }

  /** Who calls queueInLoop. */
  datatype Caller = Producer(thread: Tid) | Handler | Functor

  function PushBy(c: Caller): Step {
    match c case Producer(t) => Push(t) case Handler => EventPush case Functor => FunctorPush
  }

  /** The wake-up that belongs to the call; a handler's push needs none. */
  function WakeBy(c: Caller): seq<Step> {
    match c case Producer(t) => [Wake(t)] case Handler => [] case Functor => [FunctorWake]
  }

  /** A step that can come between the two halves of a call of queueInLoop: one of another
      producer, and for a call from outside the loop also one of the loop thread. */
  predicate Between(c: Caller, s: Step) {
    match s
    case Push(t) => c != Producer(t)
    case Wake(t) => c != Producer(t)
    case _ => c.Producer?
  }

  class Queue {
    var pendingFunctors: seq<nat>
    var callingPendingFunctors: bool
    var wakeups: nat                 // the counter of the wake-up eventfd
    var functors: seq<nat>           // the vector that doPendingFunctors works through
    var next: nat
    var phase: Phase
    var owing: set<Tid>
    var loopOwes: bool
    var pushedIn: seq<nat>
    var rounds: nat
    var log: seq<Ran>

    function State(): Loop
      reads this
    {
      Loop(phase, pendingFunctors, functors, next, wakeups, owing, loopOwes, pushedIn, rounds, log)
    }

    ghost predicate Valid()
      reads this
    {
      Inv(State()) && callingPendingFunctors == Calling(State())
    }

    constructor ()
      ensures Valid() && State() == Initial()
    {
      hide Inv;
      pendingFunctors, functors, next, wakeups := [], [], 0, 0;
      callingPendingFunctors := false;
      phase, owing, loopOwes, pushedIn, rounds, log := Top, {}, false, [], 0, [];
      new;
      InitialInv();
    }

    /** The locked part of queueInLoop. */
    method Emplace(c: Caller)
      requires Valid() && Enabled(State(), PushBy(c))
      modifies this
      ensures Valid() && State() == Next(old(State()), PushBy(c))
    {
      hide Inv;
      StepKeeps(State(), PushBy(c));
      pendingFunctors := pendingFunctors + [|pushedIn|];
      pushedIn := pushedIn + [rounds];
      if c.Producer? { owing := owing + {c.thread}; }
      if c.Functor? { loopOwes := true; }
    }

    /** wakeup. */
    method WakeUp(c: Caller)
      requires Valid() && !c.Handler? && Enabled(State(), WakeBy(c)[0])
      modifies this
      ensures Valid() && State() == Next(old(State()), WakeBy(c)[0])
    {
      hide Inv;
      StepKeeps(State(), WakeBy(c)[0]);
      wakeups := wakeups + 1;
      if c.Producer? { owing := owing - {c.thread}; } else { loopOwes := false; }
    }

    /** handleRead: the eventfd counts back to zero. */
    method HandleRead()
      requires Valid() && Enabled(State(), ReadWakeUp)
      modifies this
      ensures Valid() && State() == Next(old(State()), ReadWakeUp)
    {
      hide Inv;
      StepKeeps(State(), ReadWakeUp);
      wakeups := 0;
    }

    /** The locked part of doPendingFunctors. */
    method SwapFunctors()
      requires Valid() && Enabled(State(), Swap)
      modifies this
      ensures Valid() && State() == Next(old(State()), Swap)
    {
      hide Inv;
      StepKeeps(State(), Swap);
      functors, pendingFunctors, next := pendingFunctors, [], 0;
      phase, rounds := Running, rounds + 1;
    }

    /** The call of one functor. */
    method CallFunctor()
      requires Valid() && Enabled(State(), RunFunctor)
      modifies this
      ensures Valid() && State() == Next(old(State()), RunFunctor)
    {
      hide Inv;
      StepKeeps(State(), RunFunctor);
      log := log + [Ran(functors[next], rounds)];
      next := next + 1;
    }

    /** callingPendingFunctors_ goes up, and down again with the vector gone. */
    method Flag(on: bool)
      requires Valid() && Enabled(State(), if on then BeginFunctors else EndFunctors)
      modifies this
      ensures Valid() && State() == Next(old(State()), if on then BeginFunctors else EndFunctors)
    {
      hide Inv;
      StepKeeps(State(), if on then BeginFunctors else EndFunctors);
      callingPendingFunctors := on;
      if on { phase := Flagged; } else { phase, functors, next := Top, [], 0; }
    }

    /** poll, entered and left. */
    method Poll(s: Step)
      requires Valid() && (s == EnterPoll || s == PollWoken || s == PollOther) && Enabled(State(), s)
      modifies this
      ensures Valid() && State() == Next(old(State()), s)
    {
      hide Inv;
      StepKeeps(State(), s);
      phase := if s == EnterPoll then Polling else Events;
    }

    /** Whatever step comes next. */
    method Take(s: Step)
      requires Valid() && Enabled(State(), s)
      modifies this
      ensures Valid() && State() == Next(old(State()), s)
    {
      hide Inv;
      match s {
        case Push(t) => Emplace(Producer(t));
        case Wake(t) => WakeUp(Producer(t));
        case EventPush => Emplace(Handler);
        case FunctorPush => Emplace(Functor);
        case FunctorWake => WakeUp(Functor);
        case ReadWakeUp => HandleRead();
        case Swap => SwapFunctors();
        case RunFunctor => CallFunctor();
        case BeginFunctors => Flag(true);
        case EndFunctors => Flag(false);
        case _ => Poll(s);
      }
    }

    /** queueInLoop, with `others` what comes up between the push and the wake-up. The call is
        a run that begins with the push and ends with the wake-up, which is written outside
        the loop thread always, and on it exactly while functors run. */
    method QueueInLoop(c: Caller, others: seq<Step>) returns (ghost mid: seq<Step>)
      requires Valid() && Enabled(State(), PushBy(c))
      modifies this
      ensures Valid() && (forall i | 0 <= i < |mid| :: Between(c, mid[i]))
      ensures Run(old(State()), [PushBy(c)] + mid + WakeBy(c)) == Some(State())
    {
      hide Inv, Next, Enabled;
      PushOpens(State(), c);
      OneStep(State(), PushBy(c));
      Emplace(c);
      mid := [];
      assert [PushBy(c)] + mid == [PushBy(c)];
      for i := 0 to |others|
        invariant Valid() && (forall i | 0 <= i < |mid| :: Between(c, mid[i])) && InCall(State(), c)
        invariant Run(old(State()), [PushBy(c)] + mid) == Some(State())
      {
        if Between(c, others[i]) && Enabled(State(), others[i]) {
          StaysInCall(State(), c, others[i]);
          Joined1(old(State()), [PushBy(c)] + mid, others[i]);
          Take(others[i]);
          assert [PushBy(c)] + (mid + [others[i]]) == [PushBy(c)] + mid + [others[i]];
          mid := mid + [others[i]];
        }
      }
      InCallWakes(State(), c);
      if c.Producer? || callingPendingFunctors {
        Joined1(old(State()), [PushBy(c)] + mid, WakeBy(c)[0]);
        assert WakeBy(c) == [WakeBy(c)[0]];
        WakeUp(c);
      } else {
        assert [PushBy(c)] + mid + WakeBy(c) == [PushBy(c)] + mid;
      }
    }

    /** What happens on other threads, and in a functor, for a while. */
    method Meanwhile(steps: seq<Step>) returns (ghost done: seq<Step>)
      requires Valid()
      modifies this
      ensures Valid() && Run(old(State()), done) == Some(State())
      ensures phase == old(phase) && functors == old(functors) && next == old(next)
      ensures rounds == old(rounds) && log == old(log) && |pendingFunctors| >= |old(pendingFunctors)|
      ensures phase != Running ==> loopOwes == old(loopOwes)
    {
      hide Inv, Next, Enabled;
      done := [];
      for i := 0 to |steps|
        invariant Valid() && Run(old(State()), done) == Some(State())
        invariant phase == old(phase) && functors == old(functors) && next == old(next)
        invariant rounds == old(rounds) && log == old(log) && |pendingFunctors| >= |old(pendingFunctors)|
        invariant phase != Running ==> loopOwes == old(loopOwes)
      {
        if Aside(steps[i]) && Enabled(State(), steps[i]) {
          AsideIs(State(), steps[i]);
          Joined1(old(State()), done, steps[i]);
          Take(steps[i]);
          done := done + [steps[i]];
        }
      }
    }

    /** doPendingFunctors: `before` comes between the flag and the swap, `during[i]` while
        functor `i` runs. All functors that were pending at the swap are called, and what they
        queue is left for the next round. */
    method DoPendingFunctors(before: seq<Step>, during: seq<seq<Step>>) returns (ghost done: seq<Step>)
      requires Valid() && phase == Events
      modifies this
      ensures Valid() && phase == Top && rounds == old(rounds) + 1
      ensures |log| >= |old(log)| + |old(pendingFunctors)|
      ensures Run(old(State()), done) == Some(State())
    {
      hide Inv, Run;
      InvParts(State());
      OneStep(State(), BeginFunctors);
      Flag(true);
      ghost var part := Meanwhile(before);
      RunOn(old(State()), [BeginFunctors], part);
      done := [BeginFunctors] + part;
      Joined1(old(State()), done, Swap);
      done := done + [Swap];
      SwapFunctors();
      part := RunFunctors(during);
      RunOn(old(State()), done, part);
      done := done + part;
      Joined1(old(State()), done, EndFunctors);
      done := done + [EndFunctors];
      Flag(false);
    }

    /** The functor loop of doPendingFunctors. */
    method RunFunctors(during: seq<seq<Step>>) returns (ghost done: seq<Step>)
      requires Valid() && phase == Running && !loopOwes && next == 0
      modifies this
      ensures Valid() && phase == Running && !loopOwes && next == |functors| && rounds == old(rounds)
      ensures functors == old(functors) && |log| == |old(log)| + |functors|
      ensures Run(old(State()), done) == Some(State())
    {
      hide Inv, Next;
      done := [];
      while next < |functors|
        invariant Valid() && phase == Running && !loopOwes && next <= |functors| && rounds == old(rounds)
        invariant functors == old(functors) && |log| == |old(log)| + next
        invariant Run(old(State()), done) == Some(State())
        decreases |functors| - next
      {
        ghost var part := OneFunctor(if next < |during| then during[next] else []);
        RunOn(old(State()), done, part);
        done := done + part;
      }
    }

    /** One functor, from its call to its return. */
    method OneFunctor(during: seq<Step>) returns (ghost done: seq<Step>)
      requires Valid() && phase == Running && !loopOwes && next < |functors|
      modifies this
      ensures Valid() && phase == Running && !loopOwes && next == old(next) + 1 <= |functors|
      ensures functors == old(functors) && rounds == old(rounds) && log == old(log) + [Ran(functors[old(next)], rounds)]
      ensures Run(old(State()), done) == Some(State())
    {
      hide Inv;
      OneStep(State(), RunFunctor);
      CallFunctor();
      ghost var part := Meanwhile(during);
      RunOn(old(State()), [RunFunctor], part);
      done := [RunFunctor] + part;
      if loopOwes {
        Joined1(old(State()), done, FunctorWake);
        done := done + [FunctorWake];
        WakeUp(Functor);
      }
    }
  }

  lemma {:induction false} InvParts(l: Loop)
    requires Inv(l)
    ensures l.loopOwes ==> l.phase == Running
  {}

  lemma {:induction false} OneStep(l: Loop, s: Step)
    requires Enabled(l, s)
    ensures Run(l, [s]) == Some(Next(l, s))
  {
    assert [s][1..] == [];
  }

  lemma {:induction false} Joined1(l: Loop, a: seq<Step>, s: Step)
    requires Run(l, a).Some? && Enabled(Run(l, a).value, s)
    ensures Run(l, a + [s]) == Some(Next(Run(l, a).value, s))
  {
    hide Next, Enabled;
    RunOn(l, a, [s]);
    OneStep(Run(l, a).value, s);
  }

  /** The caller is between its push and its wake-up. */
  ghost predicate InCall(l: Loop, c: Caller) {
    match c
    case Producer(t) => t in l.owing
    case Handler => l.phase == Events
    case Functor => l.phase == Running && l.loopOwes
  }

  lemma {:induction false} PushOpens(l: Loop, c: Caller)
    requires Enabled(l, PushBy(c))
    ensures InCall(Next(l, PushBy(c)), c)
  {}

  lemma {:induction false} StaysInCall(l: Loop, c: Caller, s: Step)
    requires InCall(l, c) && Between(c, s) && Enabled(l, s)
    ensures InCall(Next(l, s), c)
  {}

  lemma {:induction false} InCallWakes(l: Loop, c: Caller)
    requires InCall(l, c)
    ensures !c.Handler? ==> Enabled(l, WakeBy(c)[0])
    ensures c.Handler? ==> !Calling(l)
    ensures c.Functor? ==> Calling(l)
  {}

  lemma {:induction false} AsideIs(l: Loop, s: Step)
    requires Aside(s) && Enabled(l, s)
    ensures var r := Next(l, s);
      && r.phase == l.phase && r.batch == l.batch && r.next == l.next && r.rounds == l.rounds && r.log == l.log
      && |r.pending| >= |l.pending|
      && (l.phase != Running ==> r.loopOwes == l.loopOwes)
  {}
}
