/** The timer queue on values: timer objects at addresses, the two indexes, the batch in
    progress, the timerfd, and one step per thing that can happen. */
module TimerModel {
  import opened Basics

  type Addr = nat
  const NULL: Addr := 0
  const UINTPTR_MAX: Addr := 0xFFFF_FFFF_FFFF_FFFF

  /** A Timer object. `delta` is its interval in microseconds. */
  datatype Timer = Timer(seqno: nat, expiration: int, delta: nat, repeat: bool)

  /** An element of timers_, ordered by time and then by address. */
  datatype Entry = Entry(when: int, addr: Addr)

  /** A TimerId, and an element of activeTimers_ and cancelingTimers_. */
  datatype Id = Id(addr: Addr, seqno: nat)

  /** The timerfd: not set, set to fire at a time, or fired and not yet read. */
  datatype Fd = Disarmed | Armed(deadline: int) | Fired

  /** One call of a timer's callback. */
  datatype Call = Call(seqno: nat, batch: nat)

  datatype Queue = Queue(
    mem: map<Addr, Timer>,   // the timer objects that exist
    created: nat,            // s_numCreated_
    inFlight: set<Addr>,     // created, addTimerInLoop still to come
    timers: seq<Entry>,      // timers_, in its order
    active: set<Id>,         // activeTimers_
    calling: bool,           // callingExpiredTimers_
    canceling: set<Id>,      // cancelingTimers_
    batch: seq<Entry>,       // `expired` in handleRead
    ran: nat,                // callbacks of the batch called so far
    now: int,                // `now` in handleRead
    clock: int,
    fd: Fd,
    lastArm: int,            // when the timerfd was last set
    batches: nat,            // batches begun
    calls: seq<Call>,        // callbacks called, in order
    freed: seq<nat>)         // sequence numbers of deleted timers, in order

  // ----- the ordered set -----

  predicate Less(a: Entry, b: Entry) { a.when < b.when || (a.when == b.when && a.addr < b.addr) }

  ghost predicate Sorted(ts: seq<Entry>) {
    ts == [] || ((forall e | e in ts[1..] :: Less(ts[0], e)) && Sorted(ts[1..]))
  }

  function Inserted(ts: seq<Entry>, e: Entry): seq<Entry> {
    if ts == [] || Less(e, ts[0]) then [e] + ts
    else if e == ts[0] then ts
    else [ts[0]] + Inserted(ts[1..], e)
  }

  function Erased(ts: seq<Entry>, e: Entry): seq<Entry> {
    if ts == [] then [] else if ts[0] == e then ts[1..] else [ts[0]] + Erased(ts[1..], e)
  }

  /** lower_bound: the number of elements before the first that is not less than `e`. */
  function LowerBound(ts: seq<Entry>, e: Entry): (n: nat)
    ensures n <= |ts|
  {
    if ts == [] || !Less(ts[0], e) then 0 else 1 + LowerBound(ts[1..], e)
  }

  // ----- the timerfd -----

  function Max(a: int, b: int): int { if a < b then b else a }

  datatype Timespec = Timespec(sec: int, nsec: int)

  /** howMuchTimeFromNow. */
  function HowMuchTimeFromNow(when: int, clock: int): Timespec {
    var micros := Max(when - clock, 100);
    Timespec(micros / 1_000_000, micros % 1_000_000 * 1000)
  }

  function Nanos(t: Timespec): int { t.sec * 1_000_000_000 + t.nsec }

  /** resetTimerfd. */
  function Rearmed(q: Queue, when: int): Queue {
    q.(fd := Armed(q.clock + Nanos(HowMuchTimeFromNow(when, q.clock)) / 1000), lastArm := q.clock)
  }

  // ----- operations -----

  function IdAt(q: Queue, a: Addr): Id
    requires a in q.mem
  {
    Id(a, q.mem[a].seqno)
  }

  /** insert. */
  function Insert(q: Queue, a: Addr): Queue
    requires a in q.mem
  {
    q.(timers := Inserted(q.timers, Entry(q.mem[a].expiration, a)), active := q.active + {IdAt(q, a)})
  }

  function EarliestChanged(q: Queue, when: int): bool { q.timers == [] || when < q.timers[0].when }

  /** addTimerInLoop. */
  function AddInLoop(q: Queue, a: Addr): Queue
    requires a in q.mem
  {
    var when := q.mem[a].expiration;
    var added := Insert(q, a).(inFlight := q.inFlight - {a});
    if EarliestChanged(q, when) then Rearmed(added, when) else added
  }

  /** delete of the object at `a`. */
  function Freed(q: Queue, a: Addr): Queue
    requires a in q.mem
  {
    q.(mem := q.mem - {a}, freed := q.freed + [q.mem[a].seqno])
  }

  /** cancelInLoop; None where an indexed timer does not exist. */
  function CancelInLoop(q: Queue, id: Id): Option<Queue> {
    if id in q.active then
      if id.addr !in q.mem then None
      else
        var q1 := q.(timers := Erased(q.timers, Entry(q.mem[id.addr].expiration, id.addr)), active := q.active - {id});
        Some(Freed(q1, id.addr))
    else if q.calling then Some(q.(canceling := q.canceling + {id}))
    else Some(q)
  }

  ghost function IdsOf(q: Queue, es: seq<Entry>): set<Id> {
    set e | e in es && e.addr in q.mem :: Id(e.addr, q.mem[e.addr].seqno)
  }

  /** getExpired: everything before the sentinel leaves both indexes. */
  ghost function GetExpired(q: Queue, now: int): Queue {
    var n := LowerBound(q.timers, Entry(now, UINTPTR_MAX));
    q.(timers := q.timers[n..], active := q.active - IdsOf(q, q.timers[..n]), batch := q.timers[..n], ran := 0, now := now)
  }

  /** handleRead up to the first callback. */
  ghost function BeginRead(q: Queue): Queue {
    var read := q.(fd := if q.fd == Fired then Disarmed else q.fd);
    GetExpired(read, q.clock).(calling := true, canceling := {}, batches := q.batches + 1)
  }

  /** The next callback of the batch; None where its timer no longer exists. */
  function RunNext(q: Queue): Option<Queue>
    requires q.ran < |q.batch|
  {
    var a := q.batch[q.ran].addr;
    if a !in q.mem then None
    else Some(q.(ran := q.ran + 1, calls := q.calls + [Call(q.mem[a].seqno, q.batches)]))
  }

  /** One round of the loop in reset. */
  function ResetOne(q: Queue): (r: Option<Queue>)
    requires q.batch != []
    ensures r.Some? ==> |r.value.batch| == |q.batch| - 1
  {
    var a := q.batch[0].addr;
    if a !in q.mem then None
    else
      var t := q.mem[a];
      var q1 := q.(batch := q.batch[1..]);
      if t.repeat && IdAt(q, a) !in q.canceling
      then Some(Insert(q1.(mem := q1.mem[a := t.(expiration := q.now + t.delta)]), a))
      else Some(Freed(q1, a))
  }

  function ResetAll(q: Queue): Option<Queue>
    decreases |q.batch|
  {
    if q.batch == [] then Some(q)
    else
      match ResetOne(q)
      case None => None
      case Some(q1) => ResetAll(q1)
  }

  /** The end of reset: the timerfd is set for the earliest timer, if that is valid. */
  function RearmedAtEnd(q: Queue): Queue {
    if q.timers != [] && q.timers[0].when > 0 then Rearmed(q, q.timers[0].when) else q
  }

  /** handleRead after the last callback. */
  function EndRead(q: Queue): Option<Queue> {
    match ResetAll(q.(calling := false))
    case None => None
    case Some(q1) => Some(RearmedAtEnd(q1.(ran := 0)))
  }

  // ----- steps -----

  datatype Step =
    | Create(addr: Addr, when: int, delta: nat, repeat: bool)
    | Add(addr: Addr)
    | Cancel(id: Id)
    | Begin
    | Call1
    | End
    | Tick(time: int)

  /** What the code and its callers may do next. Callbacks are the steps between two calls. */
  predicate Enabled(q: Queue, s: Step) {
    match s
    case Create(a, _, _, _) => NULL < a < UINTPTR_MAX && a !in q.mem
    case Add(a) => a in q.inFlight && a in q.mem
    case Cancel(_) => true
    case Begin => !q.calling
    case Call1 => q.calling && q.ran < |q.batch|
    case End => q.calling && q.ran == |q.batch|
    case Tick(t) => t >= q.clock
  }

  ghost function Next(q: Queue, s: Step): Option<Queue>
    requires Enabled(q, s)
  {
    match s
    case Create(a, when, delta, repeat) =>
      Some(q.(mem := q.mem[a := Timer(q.created, when, delta, repeat)],
              created := q.created + 1, inFlight := q.inFlight + {a}))
    case Add(a) => Some(AddInLoop(q, a))
    case Cancel(id) => CancelInLoop(q, id)
    case Begin => Some(BeginRead(q))
    case Call1 => RunNext(q)
    case End => EndRead(q)
    case Tick(t) => Some(q.(clock := t, fd := if q.fd.Armed? && q.fd.deadline <= t then Fired else q.fd))
  }

  ghost function Initial(clock: int): Queue {
    Queue(map[], 0, {}, [], {}, false, {}, [], 0, 0, clock, Disarmed, clock, 0, [], [])
  }

  /** The state after the steps; None where a step faults or is not enabled. */
  ghost function Run(q: Queue, steps: seq<Step>): Option<Queue>
    decreases |steps|
  {
    if steps == [] then Some(q)
    else if !Enabled(q, steps[0]) then None
    else
      match Next(q, steps[0])
      case None => None
      case Some(q1) => Run(q1, steps[1..])
  }

  /** Each step is enabled when its turn comes. */
  ghost predicate Legal(q: Queue, steps: seq<Step>)
    decreases |steps|
  {
    steps == [] ||
    (Enabled(q, steps[0]) && (Next(q, steps[0]).Some? ==> Legal(Next(q, steps[0]).value, steps[1..])))
  }
}
