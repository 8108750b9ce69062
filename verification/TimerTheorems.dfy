/** What users of the timer queue may rely on, over every run. */
module TimerTheorems {
  import opened Basics
  import opened TimerModel
  import opened TimerInvariant

  // ----- ownership -----

  datatype Place = InFlight | Pending | Running | Deleted

  /** The timer with number `s` is at `p`. */
  ghost predicate IsAt(q: Queue, s: nat, p: Place) {
    match p
    case Deleted => s in q.freed
    case InFlight => exists a :: a in q.mem && q.mem[a].seqno == s && a in q.inFlight
    case Pending => exists a :: a in q.mem && q.mem[a].seqno == s && Key(q.mem, a) in q.timers
    case Running => exists a :: a in q.mem && q.mem[a].seqno == s && Key(q.mem, a) in q.batch
  }

  /** In every reachable state every timer ever created is in exactly one place, and no
      timer was deleted twice. */
  lemma {:induction false} OwnedOnce(clock: int, steps: seq<Step>, s: nat) returns (p: Place)
    requires clock > 0 && Legal(Initial(clock), steps)
    ensures Run(Initial(clock), steps).Some?
    ensures var q := Run(Initial(clock), steps).value;
      s < q.created ==> IsAt(q, s, p) && (forall o | o != p :: !IsAt(q, s, o)) && NoDup(q.freed)
  {
    InitialKeeps(clock);
    RunKeeps(Initial(clock), steps);
    p := PlaceOf(Run(Initial(clock), steps).value, s);
  }

  lemma {:induction false} PlaceOf(q: Queue, s: nat) returns (p: Place)
    requires Inv(q)
    ensures s < q.created ==> IsAt(q, s, p) && forall o | o != p :: !IsAt(q, s, o)
  {
    if s in q.freed || s >= q.created {
      p := Deleted;
    } else {
      assert Live(q.mem, s);
      var a :| a in q.mem && q.mem[a].seqno == s;
      assert OnePlace(q.mem, q.inFlight, q.timers, q.batch, a);
      p := if a in q.inFlight then InFlight else if Key(q.mem, a) in q.timers then Pending else Running;
    }
  }

  // ----- deleted timers -----

  /** A step that calls back calls a timer of the batch, one that exists. */
  lemma {:induction false} CalledExists(q: Queue)
    requires Inv(q) && Enabled(q, Call1)
    ensures Next(q, Call1).Some?
    ensures var a := q.batch[q.ran].addr;
      a in q.mem && q.mem[a].seqno !in q.freed &&
      Next(q, Call1).value.calls == q.calls + [Call(q.mem[a].seqno, q.batches)]
  {
    assert q.batch[q.ran] in q.batch;
  }

  lemma {:induction false} ResetAllFrees(q: Queue)
    requires ResetAll(q).Some?
    ensures q.freed <= ResetAll(q).value.freed && ResetAll(q).value.calls == q.calls
    ensures ResetAll(q).value.batches == q.batches
    decreases |q.batch|
  {
    if q.batch != [] { ResetAllFrees(ResetOne(q).value); }
  }

  lemma {:induction false} StepFrees(q: Queue, s: Step)
    requires Enabled(q, s) && Next(q, s).Some?
    ensures q.freed <= Next(q, s).value.freed
    ensures !s.Call1? ==> Next(q, s).value.calls == q.calls
    ensures q.batches <= Next(q, s).value.batches
  {
    if s.End? { ResetAllFrees(q.(calling := false)); }
  }

  /** A deleted timer is never called again. */
  lemma {:induction false} DeletedNeverCalled(q: Queue, steps: seq<Step>, s: nat)
    requires Inv(q) && Legal(q, steps) && s in q.freed
    ensures Run(q, steps).Some?
    ensures var r := Run(q, steps).value;
      s in r.freed && q.calls <= r.calls && forall c | c in r.calls[|q.calls|..] :: c.seqno != s
    decreases |steps|
  {
    hide Next, Inv;
    RunKeeps(q, steps);
    if steps != [] {
      StepKeeps(q, steps[0]);
      StepFrees(q, steps[0]);
      if steps[0].Call1? { CalledExists(q); }
      var q1 := Next(q, steps[0]).value;
      DeletedNeverCalled(q1, steps[1..], s);
      var r := Run(q1, steps[1..]).value;
      assert r.calls[|q.calls|..] == q1.calls[|q.calls|..] + r.calls[|q1.calls|..];
    }
  }

  // ----- cancelling -----

  /** Cancelled for good: deleted, or in the batch that is running and marked. */
  ghost predicate Doomed(q: Queue, s: nat, batch: nat) {
    || s in q.freed
    || (q.calling && q.batches == batch && DoomedInBatch(q, s))
  }

  ghost predicate DoomedInBatch(q: Queue, s: nat) {
    exists a :: a in q.mem && q.mem[a].seqno == s && Key(q.mem, a) in q.batch && Id(a, s) in q.canceling
  }

  /** A cancel that reaches the loop after the add dooms the timer. */
  lemma {:induction false} CancelDooms(q: Queue, a: Addr)
    requires Inv(q) && a in q.mem && a !in q.inFlight
    ensures CancelInLoop(q, IdAt(q, a)).Some?
    ensures Doomed(CancelInLoop(q, IdAt(q, a)).value, q.mem[a].seqno, q.batches)
  {
    assert OnePlace(q.mem, q.inFlight, q.timers, q.batch, a);
    CancelKeeps(q, IdAt(q, a));
    var r := CancelInLoop(q, IdAt(q, a)).value;
    if IdAt(q, a) !in q.active {
      assert a in r.mem && r.mem[a].seqno == q.mem[a].seqno && Key(r.mem, a) in r.batch && IdAt(q, a) in r.canceling;
    }
  }

  lemma {:induction false} ResetOneDeletes(q: Queue, s: nat)
    requires Placed(q) && q.batch != [] && DoomedInBatch(q, s)
    ensures ResetOne(q).Some? && (s in ResetOne(q).value.freed || DoomedInBatch(ResetOne(q).value, s))
  {
    var a :| a in q.mem && q.mem[a].seqno == s && Key(q.mem, a) in q.batch && Id(a, s) in q.canceling;
    assert q.batch[0] in q.batch;
    SortedTail(q.batch);
    var q1 := ResetOne(q).value;
    if q.batch[0].addr != a {
      assert a in q1.mem && q1.mem[a] == q.mem[a] && Key(q1.mem, a) in q1.batch && q1.canceling == q.canceling;
    }
  }

  /** reset deletes a timer of the batch that is marked. */
  lemma {:induction false} ResetDeletes(q: Queue, s: nat)
    requires Resetting(q) && (s in q.freed || DoomedInBatch(q, s))
    ensures ResetAll(q).Some? && s in ResetAll(q).value.freed
    decreases |q.batch|
  {
    hide Placed, Indexed, Numbered, ResetOne;
    ResetAllKeeps(q);
    ResetAllFrees(q);
    if s !in q.freed {
      assert q.batch != [];
      ResetOneKeeps(q);
      ResetOneDeletes(q, s);
      ResetDeletes(ResetOne(q).value, s);
    }
  }

  lemma {:induction false} EndDeletes(q: Queue, s: nat)
    requires Inv(q) && Enabled(q, End) && DoomedInBatch(q, s)
    ensures EndRead(q).Some? && s in EndRead(q).value.freed
  {
    var q0 := q.(calling := false);
    assert DoomedInBatch(q0, s) by {
      var a :| a in q.mem && q.mem[a].seqno == s && Key(q.mem, a) in q.batch && Id(a, s) in q.canceling;
      assert a in q0.mem && q0.mem[a].seqno == s && Key(q0.mem, a) in q0.batch && Id(a, s) in q0.canceling;
    }
    assert Resetting(q0);
    ResetDeletes(q0, s);
  }

  /** No step other than the end of the batch touches a marked timer of the batch. */
  lemma {:induction false} MarkedStays(q: Queue, step: Step, s: nat)
    requires Inv(q) && Enabled(q, step) && !step.End? && q.calling && DoomedInBatch(q, s)
    ensures Next(q, step).Some?
    ensures var r := Next(q, step).value; r.calling && r.batches == q.batches && DoomedInBatch(r, s)
  {
    StepKeeps(q, step);
    var r := Next(q, step).value;
    var a :| a in q.mem && q.mem[a].seqno == s && Key(q.mem, a) in q.batch && Id(a, s) in q.canceling;
    assert OnePlace(q.mem, q.inFlight, q.timers, q.batch, a);
    assert a in r.mem && r.mem[a].seqno == s && Key(r.mem, a) in r.batch && Id(a, s) in r.canceling;
  }

  lemma {:induction false} DoomStays(q: Queue, step: Step, s: nat, batch: nat)
    requires Inv(q) && Enabled(q, step) && Doomed(q, s, batch)
    ensures Next(q, step).Some? && Doomed(Next(q, step).value, s, batch)
  {
    StepKeeps(q, step);
    StepFrees(q, step);
    if s !in q.freed {
      if step.End? { EndDeletes(q, s); } else { MarkedStays(q, step, s); }
    }
  }

  /** Once doomed, a timer is called at most in the batch that was running then. */
  lemma {:induction false} DoomedNotCalledLater(q: Queue, steps: seq<Step>, s: nat, batch: nat)
    requires Inv(q) && Legal(q, steps) && Doomed(q, s, batch)
    ensures Run(q, steps).Some?
    ensures var r := Run(q, steps).value;
      q.calls <= r.calls && forall c | c in r.calls[|q.calls|..] && c.seqno == s :: c.batch == batch
    decreases |steps|
  {
    hide Next, Inv, DoomedInBatch;
    RunKeeps(q, steps);
    if steps != [] {
      StepKeeps(q, steps[0]);
      StepFrees(q, steps[0]);
      DoomStays(q, steps[0], s, batch);
      if steps[0].Call1? { CalledExists(q); }
      var q1 := Next(q, steps[0]).value;
      DoomedNotCalledLater(q1, steps[1..], s, batch);
      var r := Run(q1, steps[1..]).value;
      assert r.calls[|q.calls|..] == q1.calls[|q.calls|..] + r.calls[|q1.calls|..];
    }
  }

  /** A cancel processed after the add prevents every call in later batches. */
  lemma {:induction false} CancelPreventsLaterCalls(q: Queue, a: Addr, steps: seq<Step>)
    requires Inv(q) && a in q.mem && a !in q.inFlight
    requires CancelInLoop(q, IdAt(q, a)).Some? ==> Legal(CancelInLoop(q, IdAt(q, a)).value, steps)
    ensures CancelInLoop(q, IdAt(q, a)).Some?
    ensures var q1 := CancelInLoop(q, IdAt(q, a)).value;
      && Run(q1, steps).Some?
      && var r := Run(q1, steps).value;
      q.calls <= r.calls && forall c | c in r.calls[|q.calls|..] && c.seqno == q.mem[a].seqno :: c.batch == q.batches
  {
    CancelKeeps(q, IdAt(q, a));
    CancelDooms(q, a);
    DoomedNotCalledLater(CancelInLoop(q, IdAt(q, a)).value, steps, q.mem[a].seqno, q.batches);
  }

  // ----- stale identities -----

  /** An identity that was given out once, or the null one, and names no existing timer,
      though its address may be in use again. */
  ghost predicate Stale(q: Queue, id: Id) {
    (id.addr == NULL || id.seqno < q.created) && !(id.addr in q.mem && q.mem[id.addr].seqno == id.seqno)
  }

  /** Equal but for stale marks. */
  ghost predicate Alike(q: Queue, r: Queue) {
    && r == q.(canceling := r.canceling)
    && (forall id | id in q.canceling && id !in r.canceling :: Stale(q, id))
    && (forall id | id in r.canceling && id !in q.canceling :: Stale(q, id))
  }

  lemma {:induction false} ResetOneAlike(q: Queue, r: Queue)
    requires Alike(q, r) && q.batch != [] && ResetOne(q).Some?
    ensures ResetOne(r).Some? && Alike(ResetOne(q).value, ResetOne(r).value)
  {
    var a := q.batch[0].addr;
    assert !Stale(q, IdAt(q, a));
    var q1, r1 := ResetOne(q).value, ResetOne(r).value;
    forall id | Stale(q, id) ensures Stale(q1, id) {}
    assert q1.canceling == q.canceling && r1.canceling == r.canceling;
  }

  lemma {:induction false} ResetAllAlike(q: Queue, r: Queue)
    requires Alike(q, r) && ResetAll(q).Some?
    ensures ResetAll(r).Some? && Alike(ResetAll(q).value, ResetAll(r).value)
    decreases |q.batch|
  {
    hide Alike, ResetOne;
    assert q.batch == r.batch by { SameButMarks(q, r); }
    if q.batch != [] {
      ResetOneAlike(q, r);
      ResetAllAlike(ResetOne(q).value, ResetOne(r).value);
    }
  }

  lemma {:induction false} SameButMarks(q: Queue, r: Queue)
    requires Alike(q, r)
    ensures r == q.(canceling := r.canceling)
  {}

  lemma {:induction false} EndAlike(q: Queue, r: Queue)
    requires Alike(q, r) && EndRead(q).Some?
    ensures EndRead(r).Some? && Alike(EndRead(q).value, EndRead(r).value)
  {
    ResetAllAlike(q.(calling := false), r.(calling := false));
  }

  lemma {:induction false} StepAlike(q: Queue, r: Queue, step: Step)
    requires Inv(q) && Alike(q, r) && Enabled(q, step)
    ensures Enabled(r, step) && Next(q, step).Some? && Next(r, step).Some?
    ensures Alike(Next(q, step).value, Next(r, step).value)
  {
    hide Inv;
    StepKeeps(q, step);
    if step.End? {
      EndAlike(q, r);
    } else if !step.Begin? {
      var q1, r1 := Next(q, step).value, Next(r, step).value;
      forall id | Stale(q, id) ensures Stale(q1, id) { StaleStays(q, step, id); }
    }
  }

  lemma {:induction false} StaleStays(q: Queue, step: Step, id: Id)
    requires Enabled(q, step) && Next(q, step).Some? && !step.End? && Stale(q, id)
    ensures Stale(Next(q, step).value, id)
  {}

  lemma {:induction false} RunAlike(q: Queue, r: Queue, steps: seq<Step>)
    requires Inv(q) && Alike(q, r) && Legal(q, steps)
    ensures Legal(r, steps) && Run(q, steps).Some? && Run(r, steps).Some?
    ensures Alike(Run(q, steps).value, Run(r, steps).value)
    decreases |steps|
  {
    hide Inv, Alike, Next;
    if steps != [] {
      StepKeeps(q, steps[0]);
      StepAlike(q, r, steps[0]);
      RunAlike(Next(q, steps[0]).value, Next(r, steps[0]).value, steps[1..]);
    }
  }

  /** Cancelling with a stale identity changes nothing that any later run can show: the same
      timers are called in the same batches and deleted in the same order, whether or not
      the address has been used again. */
  lemma {:induction false} StaleCancelHarmless(q: Queue, id: Id, steps: seq<Step>)
    requires Inv(q) && Stale(q, id) && Legal(q, steps)
    ensures CancelInLoop(q, id).Some? && Run(q, steps).Some? && Run(CancelInLoop(q, id).value, steps).Some?
    ensures var r := Run(CancelInLoop(q, id).value, steps).value;
      r == Run(q, steps).value.(canceling := r.canceling)
  {
    CancelKeeps(q, id);
    var q1 := CancelInLoop(q, id).value;
    assert Alike(q, q1);
    RunAlike(q, q1, steps);
    SameButMarks(Run(q, steps).value, Run(q1, steps).value);
  }

  // ----- exact batches -----

  /** A batch holds the timers that are due, all of them, by time and then address; the
      others stay. */
  lemma {:induction false} BatchExact(q: Queue)
    requires Inv(q) && !q.calling
    ensures var r := BeginRead(q);
      && Sorted(r.batch)
      && (forall e | e in r.batch :: e in q.timers && e.when <= q.clock)
      && (forall e | e in q.timers && e.when <= q.clock :: e in r.batch)
      && (forall e | e in r.timers :: e in q.timers && e.when > q.clock)
      && (forall e | e in q.timers && e.when > q.clock :: e in r.timers)
      && r.mem == q.mem
  {
    SentinelExact(q.mem, q.created, q.freed, q.timers, q.clock);
    LowerBoundSplits(q.timers, Entry(q.clock, UINTPTR_MAX));
  }

  /** The timer at `a` comes back: it repeats and was not cancelled while it ran. */
  ghost predicate Restarts(q: Queue, a: Addr)
    requires a in q.mem
  {
    q.mem[a].repeat && IdAt(q, a) !in q.canceling
  }

  ghost predicate ResetRight(q: Queue, r: Queue, a: Addr)
    requires a in q.mem
  {
    var t := q.mem[a];
    if Key(q.mem, a) !in q.batch then
      a in r.mem && r.mem[a] == t && (Key(q.mem, a) in q.timers ==> Key(q.mem, a) in r.timers)
    else if Restarts(q, a) then
      a in r.mem && r.mem[a] == t.(expiration := q.now + t.delta) && Key(r.mem, a) in r.timers
    else a !in r.mem && t.seqno in r.freed
  }

  lemma {:induction false} ResetOneRight(q: Queue, a: Addr)
    requires Placed(q) && q.batch != [] && ResetOne(q).Some? && a in q.mem
    ensures var q1 := ResetOne(q).value;
      && (q.batch[0].addr != a ==>
            && a in q1.mem && q1.mem[a] == q.mem[a] && q1.canceling == q.canceling && q1.now == q.now
            && (Key(q.mem, a) in q.batch <==> Key(q.mem, a) in q1.batch)
            && (Key(q.mem, a) in q.timers ==> Key(q.mem, a) in q1.timers))
      && (q.batch[0].addr == a ==>
            && Key(q.mem, a) in q.batch && ResetRight(q, q1, a)
            && (a in q1.mem ==> Key(q1.mem, a) in q1.timers))
  {
    hide AllInPlace;
    SortedTail(q.batch);
    assert q.batch[0] in q.batch;
    var b := q.batch[0].addr;
    var t := q.mem[b];
    InsertedMembers(q.timers, Entry(q.now + t.delta, b));
  }

  /** At the end of a batch the repeating timers that were not cancelled start again at the
      batch's time plus their interval, the others of the batch are deleted, and all other
      timers are as they were. */
  lemma {:induction false} ResetExact(q: Queue, a: Addr)
    requires Resetting(q) && a in q.mem
    ensures ResetAll(q).Some? && ResetRight(q, ResetAll(q).value, a)
    decreases |q.batch|
  {
    hide Indexed, Numbered, Watched, ResetOne;
    ResetAllKeeps(q);
    ResetAllFrees(q);
    if q.batch != [] {
      ResetOneKeeps(q);
      var q1 := ResetOne(q).value;
      ResetOneRight(q, a);
      ResetAllFrees(q1);
      if a in q1.mem {
        assert OnePlace(q1.mem, q1.inFlight, q1.timers, q1.batch, a);
        ResetExact(q1, a);
      } else {
        NeverBack(q1, a);
      }
    }
  }

  lemma {:induction false} NeverBack(q: Queue, a: Addr)
    requires ResetAll(q).Some? && a !in q.mem
    ensures a !in ResetAll(q).value.mem
    decreases |q.batch|
  {
    if q.batch != [] { NeverBack(ResetOne(q).value, a); }
  }

  lemma {:induction false} EndExact(q: Queue, a: Addr)
    requires Inv(q) && Enabled(q, End) && a in q.mem
    ensures EndRead(q).Some? && ResetRight(q, EndRead(q).value, a)
  {
    var q0 := q.(calling := false);
    assert Resetting(q0);
    ResetExact(q0, a);
    assert Restarts(q0, a) == Restarts(q, a);
  }

  // ----- wake-ups -----

  /** In every reachable state outside a batch, a queue with timers has its timerfd fired, or
      set to fire by the earliest expiration or 100 microseconds after it was set. */
  lemma {:induction false} NoLostWakeUp(clock: int, steps: seq<Step>)
    requires clock > 0 && Legal(Initial(clock), steps)
    ensures Run(Initial(clock), steps).Some?
    ensures var q := Run(Initial(clock), steps).value;
      !q.calling && q.timers != [] ==> Watched(q)
  {
    InitialKeeps(clock);
    RunKeeps(Initial(clock), steps);
  }

  /** The two indexes hold the same timers in every reachable state. */
  lemma {:induction false} IndexesAgree(clock: int, steps: seq<Step>)
    requires clock > 0 && Legal(Initial(clock), steps)
    ensures Run(Initial(clock), steps).Some?
    ensures var q := Run(Initial(clock), steps).value;
      && Sorted(q.timers)
      && (forall e | e in q.timers :: e.addr in q.mem && q.mem[e.addr].expiration == e.when && IdAt(q, e.addr) in q.active)
      && (forall id | id in q.active :: id.addr in q.mem && q.mem[id.addr].seqno == id.seqno && Key(q.mem, id.addr) in q.timers)
  {
    InitialKeeps(clock);
    RunKeeps(Initial(clock), steps);
    var q := Run(Initial(clock), steps).value;
    forall e | e in q.timers ensures e.addr in q.mem && e == Key(q.mem, e.addr) {}
  }
}
