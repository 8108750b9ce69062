/** What every step of the timer queue keeps: the indexes agree, every timer is in exactly
    one place, nothing is freed twice, and the timerfd watches the earliest timer. */
module TimerInvariant {
  import opened Basics
  import opened TimerModel

  // ----- the ordered set -----

  lemma {:induction false} InsertedMembers(ts: seq<Entry>, e: Entry)
    ensures forall x | x in Inserted(ts, e) :: x in ts || x == e
    ensures forall x | x in ts || x == e :: x in Inserted(ts, e)
    ensures Sorted(ts) ==> Sorted(Inserted(ts, e))
    ensures Inserted(ts, e) != []
  {
    if ts == [] || Less(e, ts[0]) {
      assert ([e] + ts)[1..] == ts;
      if ts != [] { assert ts == [ts[0]] + ts[1..]; }
    } else if e != ts[0] {
      assert ts == [ts[0]] + ts[1..];
      InsertedMembers(ts[1..], e);
      var rest := Inserted(ts[1..], e);
      assert ([ts[0]] + rest)[1..] == rest;
    }
  }

  lemma {:induction false} ErasedMembers(ts: seq<Entry>, e: Entry)
    requires Sorted(ts)
    ensures forall x | x in Erased(ts, e) :: x in ts && x != e
    ensures forall x | x in ts && x != e :: x in Erased(ts, e)
    ensures Sorted(Erased(ts, e))
  {
    if ts != [] {
      assert ts == [ts[0]] + ts[1..];
      ErasedMembers(ts[1..], e);
      if ts[0] != e {
        var rest := Erased(ts[1..], e);
        assert ([ts[0]] + rest)[1..] == rest;
      }
    }
  }

  lemma {:induction false} LowerBoundSplits(ts: seq<Entry>, e: Entry)
    requires Sorted(ts)
    ensures var n := LowerBound(ts, e);
      && (forall x | x in ts[..n] :: Less(x, e)) && (forall x | x in ts[n..] :: !Less(x, e))
      && Sorted(ts[..n]) && Sorted(ts[n..])
      && (forall x | x in ts :: x in ts[..n] || x in ts[n..])
      && (forall x | x in ts[..n] :: x in ts && x !in ts[n..]) && (forall x | x in ts[n..] :: x in ts)
  {
    var n := LowerBound(ts, e);
    if n == 0 {
      assert ts[0..] == ts && ts[..0] == [];
      if ts != [] { assert ts == [ts[0]] + ts[1..]; }
    } else {
      assert ts == [ts[0]] + ts[1..];
      LowerBoundSplits(ts[1..], e);
      var m := n - 1;
      assert ts[n..] == ts[1..][m..];
      assert ts[..n] == [ts[0]] + ts[1..][..m];
      assert ts[..n][1..] == ts[1..][..m];
    }
  }

  lemma {:induction false} SortedHead(ts: seq<Entry>)
    requires Sorted(ts) && ts != []
    ensures ts[0] in ts && forall x | x in ts :: ts[0].when <= x.when
  {
    assert ts == [ts[0]] + ts[1..];
  }

  lemma {:induction false} SortedTail(ts: seq<Entry>)
    requires Sorted(ts) && ts != []
    ensures Sorted(ts[1..]) && ts[0] !in ts[1..]
    ensures forall x | x in ts :: x == ts[0] || x in ts[1..]
    ensures forall x | x in ts[1..] :: x in ts
  {
    assert ts == [ts[0]] + ts[1..];
  }

  // ----- places of timers -----

  ghost function Key(mem: map<Addr, Timer>, a: Addr): Entry
    requires a in mem
  {
    Entry(mem[a].expiration, a)
  }

  /** Every element of an index names a timer by its current expiration. */
  ghost predicate Current(mem: map<Addr, Timer>, es: seq<Entry>) {
    Sorted(es) && forall e | e in es :: e.addr in mem && mem[e.addr].expiration == e.when
  }

  /** Exactly one of in flight, pending and in the running batch. */
  ghost predicate OnePlace(mem: map<Addr, Timer>, inFlight: set<Addr>, timers: seq<Entry>, batch: seq<Entry>, a: Addr)
    requires a in mem
  {
    && (a in inFlight || Key(mem, a) in timers || Key(mem, a) in batch)
    && !(a in inFlight && Key(mem, a) in timers)
    && !(a in inFlight && Key(mem, a) in batch)
    && !(Key(mem, a) in timers && Key(mem, a) in batch)
  }

  ghost predicate AllInPlace(mem: map<Addr, Timer>, inFlight: set<Addr>, timers: seq<Entry>, batch: seq<Entry>) {
    forall a | a in mem :: OnePlace(mem, inFlight, timers, batch, a)
  }

  ghost predicate Placed(q: Queue) {
    && Current(q.mem, q.timers) && Current(q.mem, q.batch)
    && q.inFlight <= q.mem.Keys
    && AllInPlace(q.mem, q.inFlight, q.timers, q.batch)
  }

  /** activeTimers_ holds the timers of timers_. */
  ghost predicate Indexed(mem: map<Addr, Timer>, timers: seq<Entry>, active: set<Id>) {
    && (forall id | id in active :: id.addr in mem && mem[id.addr].seqno == id.seqno && Key(mem, id.addr) in timers)
    && (forall a | a in mem && Key(mem, a) in timers :: Id(a, mem[a].seqno) in active)
  }

  // ----- sequence numbers -----

  /** Every number given out belongs to one existing timer or was freed, once. */
  ghost predicate Numbered(mem: map<Addr, Timer>, created: nat, freed: seq<nat>) {
    && (forall a | a in mem :: NULL < a < UINTPTR_MAX && mem[a].seqno < created && mem[a].seqno !in freed)
    && (forall a, b | a in mem && b in mem && mem[a].seqno == mem[b].seqno :: a == b)
    && (forall s | s in freed :: s < created)
    && (forall s: nat | s < created && s !in freed :: Live(mem, s))
    && NoDup(freed)
  }

  ghost predicate Live(mem: map<Addr, Timer>, s: nat) { exists a :: a in mem && mem[a].seqno == s }

  ghost predicate Phases(q: Queue) {
    && (!q.calling ==> q.batch == [] && q.ran == 0)
    && q.ran <= |q.batch|
    && q.clock > 0
    && (q.calling ==> 0 < q.now <= q.clock)
    && (forall c | c in q.calls :: c.seqno < q.created)
  }

  // ----- the timerfd -----

  /** The timerfd fires by the earliest expiration, or 100 microseconds after it was set. */
  ghost predicate Watched(q: Queue)
    requires q.timers != []
  {
    q.fd == Fired || (q.fd.Armed? && q.fd.deadline <= Max(q.timers[0].when, q.lastArm + 100))
  }

  /** During a batch only a timer that is already due needs a watch of its own. */
  ghost predicate WakeUp(q: Queue) {
    q.timers != [] && (!q.calling || q.timers[0].when <= 0) ==> Watched(q)
  }

  ghost predicate Inv(q: Queue) {
    Placed(q) && Indexed(q.mem, q.timers, q.active) && Numbered(q.mem, q.created, q.freed) && Phases(q) && WakeUp(q)
  }

  // ----- creating and adding -----

  lemma {:induction false} CreatePlaced(mem: map<Addr, Timer>, inFlight: set<Addr>, timers: seq<Entry>, batch: seq<Entry>, a: Addr, t: Timer)
    requires Current(mem, timers) && Current(mem, batch) && inFlight <= mem.Keys && a !in mem
    requires AllInPlace(mem, inFlight, timers, batch)
    ensures Current(mem[a := t], timers) && Current(mem[a := t], batch)
    ensures AllInPlace(mem[a := t], inFlight + {a}, timers, batch)
  {
    var mem' := mem[a := t];
    forall x | x in mem' ensures OnePlace(mem', inFlight + {a}, timers, batch, x) {
      if x != a { assert OnePlace(mem, inFlight, timers, batch, x); }
    }
  }

  lemma {:induction false} CreateNumbered(mem: map<Addr, Timer>, created: nat, freed: seq<nat>, a: Addr, t: Timer)
    requires Numbered(mem, created, freed) && a !in mem && NULL < a < UINTPTR_MAX && t.seqno == created
    ensures Numbered(mem[a := t], created + 1, freed)
  {
    var mem' := mem[a := t];
    forall s: nat | s < created + 1 && s !in freed ensures Live(mem', s) {
      if s < created {
        var x :| x in mem && mem[x].seqno == s;
        assert x in mem' && mem'[x].seqno == s;
      } else {
        assert a in mem' && mem'[a].seqno == s;
      }
    }
  }

  lemma {:induction false} CreateIndexed(mem: map<Addr, Timer>, timers: seq<Entry>, active: set<Id>, a: Addr, t: Timer)
    requires Indexed(mem, timers, active) && Current(mem, timers) && a !in mem
    ensures Indexed(mem[a := t], timers, active)
  {}

  lemma {:induction false} CreateKeeps(q: Queue, a: Addr, when: int, delta: nat, repeat: bool)
    requires Inv(q) && Enabled(q, Create(a, when, delta, repeat))
    ensures Inv(Next(q, Create(a, when, delta, repeat)).value)
  {
    var t := Timer(q.created, when, delta, repeat);
    CreatePlaced(q.mem, q.inFlight, q.timers, q.batch, a, t);
    CreateNumbered(q.mem, q.created, q.freed, a, t);
    CreateIndexed(q.mem, q.timers, q.active, a, t);
  }

  /** insert of a timer that is in no index. */
  lemma {:induction false} InsertPlaced(mem: map<Addr, Timer>, inFlight: set<Addr>, timers: seq<Entry>, batch: seq<Entry>, a: Addr)
    requires Current(mem, timers) && a in mem && Key(mem, a) !in batch
    requires forall x | x in mem && x != a :: OnePlace(mem, inFlight, timers, batch, x)
    ensures Current(mem, Inserted(timers, Key(mem, a)))
    ensures AllInPlace(mem, inFlight - {a}, Inserted(timers, Key(mem, a)), batch)
  {
    InsertedMembers(timers, Key(mem, a));
    var timers' := Inserted(timers, Key(mem, a));
    forall x | x in mem ensures OnePlace(mem, inFlight - {a}, timers', batch, x) {
      if x != a { assert OnePlace(mem, inFlight, timers, batch, x); }
    }
  }

  lemma {:induction false} InsertIndexed(mem: map<Addr, Timer>, timers: seq<Entry>, active: set<Id>, a: Addr)
    requires Indexed(mem, timers, active) && a in mem
    ensures Indexed(mem, Inserted(timers, Key(mem, a)), active + {Id(a, mem[a].seqno)})
  {
    InsertedMembers(timers, Key(mem, a));
  }

  lemma {:induction false} InsertedHead(ts: seq<Entry>, e: Entry)
    ensures Inserted(ts, e) != []
    ensures ts == [] || e.when < ts[0].when ==> Inserted(ts, e)[0] == e
    ensures ts != [] && !(e.when < ts[0].when) ==> Inserted(ts, e)[0].when == ts[0].when
  {}

  /** The span asked of the timerfd is exact, and at least 100 microseconds. */
  lemma {:induction false} TimespecExact(when: int, clock: int)
    ensures var t := HowMuchTimeFromNow(when, clock);
      Nanos(t) == 1000 * Max(when - clock, 100) && t.sec >= 0 && 0 <= t.nsec < 1_000_000_000
  {}

  lemma {:induction false} RearmedDeadline(q: Queue, when: int)
    ensures Rearmed(q, when) == q.(fd := Armed(Max(when, q.clock + 100)), lastArm := q.clock)
  {
    TimespecExact(when, q.clock);
  }

  lemma {:induction false} AddKeeps(q: Queue, a: Addr)
    requires Inv(q) && Enabled(q, Add(a))
    ensures Inv(AddInLoop(q, a))
  {
    assert OnePlace(q.mem, q.inFlight, q.timers, q.batch, a);
    InsertPlaced(q.mem, q.inFlight, q.timers, q.batch, a);
    InsertIndexed(q.mem, q.timers, q.active, a);
    InsertedHead(q.timers, Key(q.mem, a));
    RearmedDeadline(Insert(q, a).(inFlight := q.inFlight - {a}), q.mem[a].expiration);
  }

  // ----- cancelling -----

  lemma {:induction false} FreeNumbered(mem: map<Addr, Timer>, created: nat, freed: seq<nat>, a: Addr)
    requires Numbered(mem, created, freed) && a in mem
    ensures Numbered(mem - {a}, created, freed + [mem[a].seqno])
  {
    var mem', freed' := mem - {a}, freed + [mem[a].seqno];
    NoDupConcat(freed, [mem[a].seqno]);
    assert forall s | s in freed' :: s in freed || s == mem[a].seqno;
    forall s: nat | s < created && s !in freed' ensures Live(mem', s) {
      assert s !in freed && s != mem[a].seqno by { assert mem[a].seqno in freed'; }
      var x :| x in mem && mem[x].seqno == s;
      assert x in mem' && mem'[x].seqno == s;
    }
  }

  /** A pending timer leaves both indexes and memory. */
  lemma {:induction false} CancelPlaced(mem: map<Addr, Timer>, inFlight: set<Addr>, timers: seq<Entry>, batch: seq<Entry>, a: Addr)
    requires Current(mem, timers) && Current(mem, batch) && inFlight <= mem.Keys
    requires AllInPlace(mem, inFlight, timers, batch) && a in mem && Key(mem, a) in timers
    ensures Current(mem - {a}, Erased(timers, Key(mem, a))) && Current(mem - {a}, batch)
    ensures inFlight <= (mem - {a}).Keys
    ensures AllInPlace(mem - {a}, inFlight, Erased(timers, Key(mem, a)), batch)
  {
    var mem', timers' := mem - {a}, Erased(timers, Key(mem, a));
    ErasedMembers(timers, Key(mem, a));
    assert OnePlace(mem, inFlight, timers, batch, a);
    forall x | x in mem' ensures OnePlace(mem', inFlight, timers', batch, x) {
      assert OnePlace(mem, inFlight, timers, batch, x);
    }
  }

  lemma {:induction false} CancelIndexed(mem: map<Addr, Timer>, timers: seq<Entry>, active: set<Id>, a: Addr)
    requires Indexed(mem, timers, active) && Current(mem, timers) && a in mem
    ensures Indexed(mem - {a}, Erased(timers, Key(mem, a)), active - {Id(a, mem[a].seqno)})
  {
    ErasedMembers(timers, Key(mem, a));
  }

  lemma {:induction false} ErasedHead(ts: seq<Entry>, e: Entry)
    requires Sorted(ts) && Erased(ts, e) != []
    ensures ts != [] && ts[0].when <= Erased(ts, e)[0].when
  {
    ErasedMembers(ts, e);
    assert Erased(ts, e)[0] in Erased(ts, e);
    SortedHead(ts);
  }

  lemma {:induction false} CancelKeeps(q: Queue, id: Id)
    requires Inv(q)
    ensures CancelInLoop(q, id).Some? && Inv(CancelInLoop(q, id).value)
  {
    if id in q.active {
      var a := id.addr;
      var timers' := Erased(q.timers, Key(q.mem, a));
      CancelPlaced(q.mem, q.inFlight, q.timers, q.batch, a);
      CancelIndexed(q.mem, q.timers, q.active, a);
      FreeNumbered(q.mem, q.created, q.freed, a);
      if timers' != [] { ErasedHead(q.timers, Key(q.mem, a)); }
    }
  }

  // ----- the beginning of a batch -----

  /** Nothing at the sentinel's address exists, so the prefix is what is due. */
  lemma {:induction false} SentinelExact(mem: map<Addr, Timer>, created: nat, freed: seq<nat>, ts: seq<Entry>, now: int)
    requires Current(mem, ts) && Numbered(mem, created, freed)
    ensures var n := LowerBound(ts, Entry(now, UINTPTR_MAX));
      && (forall e | e in ts[..n] :: e.when <= now) && (forall e | e in ts[n..] :: e.when > now)
      && Current(mem, ts[..n]) && Current(mem, ts[n..])
  {
    LowerBoundSplits(ts, Entry(now, UINTPTR_MAX));
    forall e | e in ts ensures e.addr < UINTPTR_MAX { assert e.addr in mem; }
  }

  lemma {:induction false} SplitPlaced(mem: map<Addr, Timer>, inFlight: set<Addr>, timers: seq<Entry>, e: Entry)
    requires Current(mem, timers) && AllInPlace(mem, inFlight, timers, [])
    ensures var n := LowerBound(timers, e); AllInPlace(mem, inFlight, timers[n..], timers[..n])
  {
    LowerBoundSplits(timers, e);
    var n := LowerBound(timers, e);
    forall a | a in mem ensures OnePlace(mem, inFlight, timers[n..], timers[..n], a) {
      assert OnePlace(mem, inFlight, timers, [], a);
    }
  }

  lemma {:induction false} IdsOfMembers(q: Queue, es: seq<Entry>, a: Addr)
    requires Current(q.mem, es) && a in q.mem
    ensures Id(a, q.mem[a].seqno) in IdsOf(q, es) <==> Key(q.mem, a) in es
  {
    if Key(q.mem, a) in es {
      assert Key(q.mem, a).addr in q.mem;
    }
    if Id(a, q.mem[a].seqno) in IdsOf(q, es) {
      var x :| x in es && x.addr in q.mem && Id(x.addr, q.mem[x.addr].seqno) == Id(a, q.mem[a].seqno);
      assert x == Key(q.mem, a);
    }
  }

  lemma {:induction false} SplitIndexed(q: Queue, e: Entry)
    requires Indexed(q.mem, q.timers, q.active) && Current(q.mem, q.timers)
    ensures var n := LowerBound(q.timers, e);
      Indexed(q.mem, q.timers[n..], q.active - IdsOf(q, q.timers[..n]))
  {
    hide IdsOf;
    LowerBoundSplits(q.timers, e);
    var n := LowerBound(q.timers, e);
    forall a | a in q.mem ensures Id(a, q.mem[a].seqno) in IdsOf(q, q.timers[..n]) <==> Key(q.mem, a) in q.timers[..n] {
      IdsOfMembers(q, q.timers[..n], a);
    }
  }

  lemma {:induction false} BeginKeeps(q: Queue)
    requires Inv(q) && Enabled(q, Begin)
    ensures Inv(BeginRead(q))
  {
    var s := Entry(q.clock, UINTPTR_MAX);
    var n := LowerBound(q.timers, s);
    SentinelExact(q.mem, q.created, q.freed, q.timers, q.clock);
    SplitPlaced(q.mem, q.inFlight, q.timers, s);
    SplitIndexed(q, s);
    var q1 := BeginRead(q);
    assert IdsOf(q.(fd := if q.fd == Fired then Disarmed else q.fd), q.timers[..n]) == IdsOf(q, q.timers[..n]);
    if q1.timers != [] { assert q1.timers[0] in q1.timers; }
  }

  // ----- callbacks and the end of a batch -----

  lemma {:induction false} CallKeeps(q: Queue)
    requires Inv(q) && Enabled(q, Call1)
    ensures RunNext(q).Some? && Inv(RunNext(q).value)
  {
    assert q.batch[q.ran] in q.batch;
    var calls' := RunNext(q).value.calls;
    assert forall c | c in calls' :: c in q.calls || c == calls'[|q.calls|];
  }

  /** What reset keeps from round to round. */
  ghost predicate Resetting(q: Queue) {
    && Placed(q) && Indexed(q.mem, q.timers, q.active) && Numbered(q.mem, q.created, q.freed)
    && 0 < q.now <= q.clock && (q.timers != [] && q.timers[0].when <= 0 ==> Watched(q))
  }

  /** The head of the batch leaves memory. */
  lemma {:induction false} HeadFreed(mem: map<Addr, Timer>, inFlight: set<Addr>, timers: seq<Entry>, batch: seq<Entry>)
    requires Current(mem, timers) && Current(mem, batch) && inFlight <= mem.Keys && batch != []
    requires AllInPlace(mem, inFlight, timers, batch)
    ensures var a := batch[0].addr;
      && a in mem && Current(mem - {a}, timers) && Current(mem - {a}, batch[1..]) && inFlight <= (mem - {a}).Keys
      && AllInPlace(mem - {a}, inFlight, timers, batch[1..])
  {
    var a := batch[0].addr;
    SortedTail(batch);
    assert batch[0] in batch;
    assert OnePlace(mem, inFlight, timers, batch, a);
    var mem' := mem - {a};
    forall x | x in mem' ensures OnePlace(mem', inFlight, timers, batch[1..], x) {
      assert OnePlace(mem, inFlight, timers, batch, x);
    }
  }

  lemma {:induction false} HeadUnindexed(mem: map<Addr, Timer>, timers: seq<Entry>, active: set<Id>, a: Addr)
    requires Indexed(mem, timers, active) && a in mem && Key(mem, a) !in timers
    ensures Indexed(mem - {a}, timers, active)
  {}

  /** A timer of the batch restarts: its expiration changes and it goes back to the indexes. */
  lemma {:induction false} HeadRestarted(mem: map<Addr, Timer>, inFlight: set<Addr>, timers: seq<Entry>, batch: seq<Entry>, active: set<Id>, t: Timer)
    requires Current(mem, timers) && Current(mem, batch) && inFlight <= mem.Keys && batch != []
    requires AllInPlace(mem, inFlight, timers, batch) && Indexed(mem, timers, active)
    requires batch[0].addr in mem && t.seqno == mem[batch[0].addr].seqno
    ensures var a := batch[0].addr;
      var mem' := mem[a := t];
      var timers' := Inserted(timers, Key(mem', a));
      && Current(mem', timers') && Current(mem', batch[1..]) && inFlight <= mem'.Keys
      && AllInPlace(mem', inFlight, timers', batch[1..])
      && Indexed(mem', timers', active + {Id(a, t.seqno)})
  {
    var a := batch[0].addr;
    var mem' := mem[a := t];
    SortedTail(batch);
    assert batch[0] in batch;
    assert OnePlace(mem, inFlight, timers, batch, a);
    assert a !in inFlight && inFlight - {a} == inFlight;
    forall x | x in mem' && x != a ensures OnePlace(mem', inFlight, timers, batch[1..], x) {
      assert OnePlace(mem, inFlight, timers, batch, x);
    }
    forall e | e in timers || e in batch[1..] ensures e.addr != a {
      assert e in timers || e in batch;
    }
    InsertPlaced(mem', inFlight, timers, batch[1..], a);
    assert Indexed(mem', timers, active);
    InsertIndexed(mem', timers, active, a);
  }

  lemma {:induction false} RestartNumbered(mem: map<Addr, Timer>, created: nat, freed: seq<nat>, a: Addr, t: Timer)
    requires Numbered(mem, created, freed) && a in mem && t.seqno == mem[a].seqno
    ensures Numbered(mem[a := t], created, freed)
  {
    var mem' := mem[a := t];
    forall s: nat | s < created && s !in freed ensures Live(mem', s) {
      var x :| x in mem && mem[x].seqno == s;
      assert x in mem' && mem'[x].seqno == s;
    }
  }

  lemma {:induction false} RestartKeeps(q: Queue)
    requires Resetting(q) && q.batch != [] && q.batch[0].addr in q.mem
    requires q.mem[q.batch[0].addr].repeat && IdAt(q, q.batch[0].addr) !in q.canceling
    ensures ResetOne(q).Some? && Resetting(ResetOne(q).value)
  {
    hide Current, AllInPlace, Indexed, Numbered, Inserted;
    var a := q.batch[0].addr;
    var t' := q.mem[a].(expiration := q.now + q.mem[a].delta);
    HeadRestarted(q.mem, q.inFlight, q.timers, q.batch, q.active, t');
    RestartNumbered(q.mem, q.created, q.freed, a, t');
    InsertedHead(q.timers, Key(q.mem[a := t'], a));
  }

  lemma {:induction false} HeadOutside(mem: map<Addr, Timer>, inFlight: set<Addr>, timers: seq<Entry>, batch: seq<Entry>)
    requires AllInPlace(mem, inFlight, timers, batch) && Current(mem, batch) && batch != []
    ensures batch[0].addr in mem && Key(mem, batch[0].addr) !in timers
  {
    assert batch[0] in batch;
    assert OnePlace(mem, inFlight, timers, batch, batch[0].addr);
  }

  lemma {:induction false} DropKeeps(q: Queue)
    requires Resetting(q) && q.batch != [] && q.batch[0].addr in q.mem
    requires !(q.mem[q.batch[0].addr].repeat && IdAt(q, q.batch[0].addr) !in q.canceling)
    ensures ResetOne(q).Some? && Resetting(ResetOne(q).value)
  {
    hide Current, AllInPlace, Indexed, Numbered;
    var a := q.batch[0].addr;
    HeadOutside(q.mem, q.inFlight, q.timers, q.batch);
    HeadFreed(q.mem, q.inFlight, q.timers, q.batch);
    HeadUnindexed(q.mem, q.timers, q.active, a);
    FreeNumbered(q.mem, q.created, q.freed, a);
  }

  lemma {:induction false} ResetOneKeeps(q: Queue)
    requires Resetting(q) && q.batch != []
    ensures ResetOne(q).Some? && Resetting(ResetOne(q).value)
  {
    hide ResetOne;
    HeadOutside(q.mem, q.inFlight, q.timers, q.batch);
    var a := q.batch[0].addr;
    if q.mem[a].repeat && IdAt(q, a) !in q.canceling {
      RestartKeeps(q);
    } else {
      DropKeeps(q);
    }
  }

  lemma {:induction false} ResetAllKeeps(q: Queue)
    requires Resetting(q)
    ensures ResetAll(q).Some? && Resetting(ResetAll(q).value)
    ensures var r := ResetAll(q).value;
      && r.batch == [] && r.calling == q.calling && r.clock == q.clock && r.created == q.created && r.calls == q.calls
      && r.inFlight == q.inFlight && r.batches == q.batches && r.now == q.now
    decreases |q.batch|
  {
    hide Resetting;
    if q.batch != [] {
      ResetOneKeeps(q);
      ResetAllKeeps(ResetOne(q).value);
    }
  }

  lemma {:induction false} EndKeeps(q: Queue)
    requires Inv(q) && Enabled(q, End)
    ensures EndRead(q).Some? && Inv(EndRead(q).value)
  {
    hide ResetAll, Placed, Indexed, Numbered;
    var q0 := q.(calling := false);
    assert Resetting(q0) by { SamePlaces(q, q0); }
    ResetAllKeeps(q0);
    var q1 := ResetAll(q0).value;
    var q2 := q1.(ran := 0);
    SamePlaces(q1, q2);
    if q2.timers != [] && q2.timers[0].when > 0 {
      RearmedDeadline(q2, q2.timers[0].when);
      SamePlaces(q2, Rearmed(q2, q2.timers[0].when));
    }
  }

  lemma {:induction false} SamePlaces(q: Queue, r: Queue)
    requires q.mem == r.mem && q.inFlight == r.inFlight && q.timers == r.timers && q.batch == r.batch
    ensures Placed(q) == Placed(r)
  {}

  lemma {:induction false} TickKeeps(q: Queue, t: int)
    requires Inv(q) && Enabled(q, Tick(t))
    ensures Inv(Next(q, Tick(t)).value)
  {}

  /** Every step that can happen keeps the invariant and uses only timers that exist. */
  lemma {:induction false} StepKeeps(q: Queue, s: Step)
    requires Inv(q) && Enabled(q, s)
    ensures Next(q, s).Some? && Inv(Next(q, s).value)
  {
    hide Inv, AddInLoop, CancelInLoop, BeginRead, RunNext, EndRead;
    match s
    case Create(a, when, delta, repeat) => CreateKeeps(q, a, when, delta, repeat);
    case Add(a) => AddKeeps(q, a);
    case Cancel(id) => CancelKeeps(q, id);
    case Begin => BeginKeeps(q);
    case Call1 => CallKeeps(q);
    case End => EndKeeps(q);
    case Tick(t) => TickKeeps(q, t);
  }

  lemma {:induction false} InitialKeeps(clock: int)
    requires clock > 0
    ensures Inv(Initial(clock))
  {}

  /** Safety of whole runs: whatever is added, cancelled and called back, in any order. */
  lemma {:induction false} RunKeeps(q: Queue, steps: seq<Step>)
    requires Inv(q) && Legal(q, steps)
    ensures Run(q, steps).Some? && Inv(Run(q, steps).value)
    decreases |steps|
  {
    hide Inv, Next;
    if steps != [] {
      StepKeeps(q, steps[0]);
      RunKeeps(Next(q, steps[0]).value, steps[1..]);
    }
  }
}
