/** The double-buffered logger: append on any thread and the backend's loop, interleaved at
    the lock and at every buffer that is written out. */
module AsyncLog {
  import opened Basics

  const LARGE_BUFFER := 4000 * 1000

  // ----- FixedBuffer -----

  /** FixedBuffer::append on the bytes held so far: all of `s` or nothing. */
  function FixedAppend(size: nat, held: string, s: string): string {
    if size - |held| > |s| then held + s else held
  }

  /** FixedBuffer: an array and the end of the bytes in it. */
  class FixedBuffer {
    const data: array<char>
    var cur: nat

    ghost predicate Valid()
      reads this
    {
      cur <= data.Length
    }

    ghost function Held(): string
      requires Valid()
      reads this, data
    {
      data[..cur]
    }

    constructor (size: nat)
      ensures Valid() && fresh(data) && data.Length == size && Held() == ""
    {
      data := new char[size](_ => 0 as char);
      cur := 0;
    }

    function Avail(): int
      requires Valid()
      reads this
    {
      data.Length - cur
    }

    method Append(s: string)
      requires Valid()
      modifies this, data
      ensures Valid() && Held() == FixedAppend(data.Length, old(Held()), s)
    {
      if Avail() > |s| {
        for i := 0 to |s|
          invariant cur == old(cur) && data[..cur] == old(Held()) && data[cur..cur + i] == s[..i]
        {
          data[cur + i] := s[i];
        }
        cur := cur + |s|;
      }
    }

    method Reset()
      requires Valid()
      modifies this`cur
      ensures Valid() && Held() == ""
    {
      cur := 0;
    }
  }

  // ----- the two processes -----

  /** `Waiting` is the top of the backend's loop, `Writing` the part after the swap. */
  datatype Phase = Waiting | Writing

  /** Buffers are given by their contents; None is a null pointer. */
  datatype Log = Log(
    size: nat,                    // capacity of a large buffer
    current: string,              // currentBuffer_
    next: Option<string>,         // nextBuffer_
    buffers: seq<string>,         // buffers_
    phase: Phase,
    spare1: Option<string>,       // newBuffer1
    spare2: Option<string>,       // newBuffer2
    toWrite: seq<string>,         // buffersToWrite
    written: nat,                 // buffers of it already output
    output: string,               // bytes in the log file
    logged: string,               // every line handed to append that fits a buffer
    atSwap: string)               // `logged` at the last swap

  function Initial(size: nat): Log {
    Log(size, "", Some(""), [], Waiting, Some(""), Some(""), [], 0, "", "", "")
  }

  /** A line that a large buffer can hold. */
  predicate Fits(l: Log, line: string) { |line| < l.size }

  /** append, under the lock. */
  function Append(l: Log, line: string): Log {
    var noted := if Fits(l, line) then l.(logged := l.logged + line) else l;
    if l.size - |l.current| > |line| then noted.(current := FixedAppend(l.size, l.current, line))
    else
      var taken := if l.next.Some? then l.next.value else "";
      noted.(buffers := l.buffers + [l.current], next := None, current := FixedAppend(l.size, taken, line))
  }

  /** The backend's critical section, after its wait. None: a null currentBuffer_. */
  function SwapBuffers(l: Log): Option<Log> {
    if l.spare1.None? then None
    else
      var refill := l.next.None?;
      Some(l.(buffers := [], toWrite := l.buffers + [l.current], written := 0,
              current := l.spare1.value, spare1 := None,
              next := if refill then l.spare2 else l.next, spare2 := if refill then None else l.spare2,
              phase := Writing, atSwap := l.logged))
  }

  function WriteOne(l: Log): Log
    requires l.written < |l.toWrite|
  {
    l.(output := l.output + l.toWrite[l.written], written := l.written + 1)
  }

  /** One spare: kept, or taken from the end of the vector and reset. None: back() of an
      empty vector. */
  function Recycled(spare: Option<string>, vector: seq<string>): Option<(Option<string>, seq<string>)> {
    if spare.Some? then Some((spare, vector))
    else if vector == [] then None
    else Some((Some(""), vector[..|vector| - 1]))
  }

  /** The end of the backend's round: trim to two, refill both spares, clear. */
  function Recycle(l: Log): Option<Log> {
    var kept := if |l.toWrite| > 2 then l.toWrite[..2] else l.toWrite;
    match Recycled(l.spare1, kept)
    case None => None
    case Some((s1, v1)) =>
      match Recycled(l.spare2, v1)
      case None => None
      case Some((s2, _)) => Some(l.(spare1 := s1, spare2 := s2, toWrite := [], written := 0, phase := Waiting))
  }

  datatype Step = AppendLine(line: string) | SwapStep | WriteStep | RecycleStep

  predicate Enabled(l: Log, s: Step) {
    match s
    case AppendLine(_) => true
    case SwapStep => l.phase == Waiting
    case WriteStep => l.phase == Writing && l.written < |l.toWrite|
    case RecycleStep => l.phase == Writing && l.written == |l.toWrite|
  }

  function Next(l: Log, s: Step): Option<Log>
    requires Enabled(l, s)
  {
    match s
    case AppendLine(line) => Some(Append(l, line))
    case SwapStep => SwapBuffers(l)
    case WriteStep => Some(WriteOne(l))
    case RecycleStep => Recycle(l)
  }

  function Run(l: Log, steps: seq<Step>): Option<Log>
    decreases |steps|
  {
    if steps == [] then Some(l)
    else if !Enabled(l, steps[0]) then None
    else
      match Next(l, steps[0])
      case None => None
      case Some(l1) => Run(l1, steps[1..])
  }

  /** Every step is possible when its turn comes. */
  predicate Legal(l: Log, steps: seq<Step>)
    decreases |steps|
  {
    steps == [] ||
    (Enabled(l, steps[0]) && (Next(l, steps[0]).Some? ==> Legal(Next(l, steps[0]).value, steps[1..])))
  }

  // ----- conservation -----

  ghost function Concat(ss: seq<string>): string {
    if ss == [] then "" else Concat(ss[..|ss| - 1]) + ss[|ss| - 1]
  }

  lemma {:induction false} ConcatFirst(ss: seq<string>)
    requires ss != []
    ensures Concat(ss) == ss[0] + Concat(ss[1..])
    decreases |ss|
  {
    if |ss| == 1 {
      assert ss[..0] == [] && ss[1..] == [];
    } else {
      var front := ss[..|ss| - 1];
      ConcatFirst(front);
      assert ss[1..][..|ss| - 2] == front[1..];
      assert Concat(ss[1..]) == Concat(front[1..]) + ss[|ss| - 1];
    }
  }

  lemma {:induction false} ConcatSnoc(ss: seq<string>, s: string)
    ensures Concat(ss + [s]) == Concat(ss) + s
  {
    assert (ss + [s])[..|ss + [s]| - 1] == ss;
  }

  /** Output, then what the backend still has to write, then what the front end holds. */
  ghost function Everything(l: Log): string
    requires l.written <= |l.toWrite|
  {
    l.output + Concat(l.toWrite[l.written..]) + Concat(l.buffers) + l.current
  }

  ghost predicate Inv(l: Log) {
    && l.written <= |l.toWrite|
    && Everything(l) == l.logged
    && l.output + Concat(l.toWrite[l.written..]) == l.atSwap
    && l.atSwap <= l.logged
    && (l.next.None? ==> l.buffers != []) && (l.next.Some? ==> l.next.value == "")
    && (l.spare2.Some? ==> l.spare2.value == "")
    && (l.phase == Waiting ==> l.spare1 == Some("") && l.spare2.Some? && l.toWrite == [])
    && (l.phase == Writing ==> l.spare1.None? && |l.toWrite| >= 1 && (l.spare2.None? ==> |l.toWrite| >= 2))
  }

  /** What append adds to the front end. */
  lemma {:induction false} AppendAdds(l: Log, line: string)
    requires Inv(l)
    ensures var r := Append(l, line);
      && r.toWrite == l.toWrite && r.written == l.written && r.output == l.output
      && Concat(r.buffers) + r.current == Concat(l.buffers) + l.current + (if Fits(l, line) then line else "")
  {
    hide Everything;
    var r := Append(l, line);
    if l.size - |l.current| > |line| {
      assert Concat(l.buffers) + (l.current + line) == Concat(l.buffers) + l.current + line;
    } else {
      ConcatSnoc(l.buffers, l.current);
      assert r.current == if Fits(l, line) then line else "";
    }
  }

  lemma {:induction false} AppendKeeps(l: Log, line: string)
    requires Inv(l)
    ensures Inv(Append(l, line))
  {
    hide Concat, FixedAppend;
    AppendAdds(l, line);
    var r := Append(l, line);
    var added := if Fits(l, line) then line else "";
    var before := l.output + Concat(l.toWrite[l.written..]);
    assert Everything(l) == before + (Concat(l.buffers) + l.current);
    assert Everything(r) == before + (Concat(r.buffers) + r.current);
    assert before + (Concat(l.buffers) + l.current + added) == before + (Concat(l.buffers) + l.current) + added;
    assert r.logged == l.logged + added;
  }

  lemma {:induction false} SwapKeeps(l: Log)
    requires Inv(l) && l.phase == Waiting
    ensures SwapBuffers(l).Some? && Inv(SwapBuffers(l).value)
  {
    var r := SwapBuffers(l).value;
    ConcatSnoc(l.buffers, l.current);
    assert l.toWrite[l.written..] == [] && r.toWrite[0..] == r.toWrite;
    assert Everything(l) == l.output + "" + Concat(l.buffers) + l.current;
    assert r.output + Concat(r.toWrite) == l.output + (Concat(l.buffers) + l.current) == Everything(l);
    assert Everything(r) == r.output + Concat(r.toWrite) + "" + "" == Everything(l);
  }

  lemma {:induction false} WriteKeeps(l: Log)
    requires Inv(l) && Enabled(l, WriteStep)
    ensures Inv(WriteOne(l))
  {
    var rest := l.toWrite[l.written..];
    ConcatFirst(rest);
    assert rest[1..] == l.toWrite[l.written + 1..];
    assert l.output + (rest[0] + Concat(rest[1..])) == (l.output + rest[0]) + Concat(rest[1..]);
  }

  lemma {:induction false} RecycleKeeps(l: Log)
    requires Inv(l) && Enabled(l, RecycleStep)
    ensures Recycle(l).Some? && Inv(Recycle(l).value)
  {
    assert l.toWrite[l.written..] == [];
  }

  lemma {:induction false} StepKeeps(l: Log, s: Step)
    requires Inv(l) && Enabled(l, s)
    ensures Next(l, s).Some? && Inv(Next(l, s).value)
  {
    hide Inv, Append, SwapBuffers, WriteOne, Recycle;
    match s
    case AppendLine(line) => AppendKeeps(l, line);
    case SwapStep => SwapKeeps(l);
    case WriteStep => WriteKeeps(l);
    case RecycleStep => RecycleKeeps(l);
  }

  lemma {:induction false} RunKeeps(l: Log, steps: seq<Step>)
    requires Inv(l) && Legal(l, steps)
    ensures Run(l, steps).Some? && Inv(Run(l, steps).value)
    decreases |steps|
  {
    hide Inv, Next;
    if steps != [] {
      StepKeeps(l, steps[0]);
      RunKeeps(Next(l, steps[0]).value, steps[1..]);
    }
  }

  /** The lines of a run that fit a large buffer, one after the other. */
  ghost function Lines(size: nat, steps: seq<Step>): string
    decreases |steps|
  {
    if steps == [] then ""
    else (if steps[0].AppendLine? && |steps[0].line| < size then steps[0].line else "") + Lines(size, steps[1..])
  }

  lemma {:induction false} StepLogs(l: Log, s: Step)
    requires Enabled(l, s) && Next(l, s).Some?
    ensures Next(l, s).value.size == l.size
    ensures Next(l, s).value.logged == l.logged + (if s.AppendLine? && |s.line| < l.size then s.line else "")
  {
    assert l.logged + "" == l.logged;
  }

  lemma {:induction false} RunLogs(l: Log, steps: seq<Step>)
    requires Run(l, steps).Some?
    ensures Run(l, steps).value.logged == l.logged + Lines(l.size, steps)
    decreases |steps|
  {
    if steps == [] {
      assert l.logged + "" == l.logged;
    } else {
      StepLogs(l, steps[0]);
      var l1 := Next(l, steps[0]).value;
      RunLogs(l1, steps[1..]);
      assert l1.logged + Lines(l.size, steps[1..]) == l.logged + Lines(l.size, steps);
    }
  }

  lemma {:induction false} InitialInv(size: nat)
    ensures Inv(Initial(size))
  {
    var l := Initial(size);
    assert Concat([]) == "" && Everything(l) == "";
  }

  /** Under every interleaving, the bytes in the file, then those the backend holds, then
      those of the front end, are exactly the lines shorter than a large buffer, in order.
      No step takes a buffer that is not there. */
  lemma {:induction false} Conservation(size: nat, steps: seq<Step>)
    requires Legal(Initial(size), steps)
    ensures Run(Initial(size), steps).Some?
    ensures var l := Run(Initial(size), steps).value;
      l.written <= |l.toWrite| && Everything(l) == Lines(size, steps)
  {
    InitialInv(size);
    RunKeeps(Initial(size), steps);
    RunLogs(Initial(size), steps);
    assert "" + Lines(size, steps) == Lines(size, steps);
  }

  /** When a round of the backend has written its buffers, the file holds everything that
      was logged before the round's swap. */
  lemma {:induction false} RoundFlushes(size: nat, steps: seq<Step>)
    requires Legal(Initial(size), steps)
    ensures Run(Initial(size), steps).Some?
    ensures var l := Run(Initial(size), steps).value;
      l.written == |l.toWrite| ==> l.output == l.atSwap
  {
    InitialInv(size);
    RunKeeps(Initial(size), steps);
    var l := Run(Initial(size), steps).value;
    if l.written == |l.toWrite| {
      assert l.toWrite[l.written..] == [];
      assert l.output + "" == l.output;
    }
  }

  /** A buffer is given to the backend exactly if the line does not fit it: it is then full up to the
      line, the line begins the next one, and the spare is used before a new one is made. */
  lemma {:induction false} AppendExact(l: Log, line: string)
    requires Inv(l)
    ensures var r := Append(l, line);
      if |l.current| + |line| < l.size
      then r.buffers == l.buffers && r.current == l.current + line && r.next == l.next
      else r.buffers == l.buffers + [l.current] && r.next == None && r.current == (if |line| < l.size then line else "")
  {
    hide Concat;
    assert "" + line == line;
  }

  /** What a round leaves the front end: two empty buffers, whatever it had. */
  lemma {:induction false} SwapExact(l: Log)
    requires Inv(l) && l.phase == Waiting
    ensures SwapBuffers(l).Some?
    ensures var r := SwapBuffers(l).value;
      r.current == "" && r.next == Some("") && r.buffers == [] && r.toWrite == l.buffers + [l.current] && r.output == l.output
  {
    SwapKeeps(l);
  }

  /** A line as long as a large buffer is dropped: exactly the shorter ones are kept. */
  lemma {:induction false} KeptIffFits(l: Log, line: string)
    requires Inv(l) && line != ""
    ensures Everything(Append(l, line)) == Everything(l) + line <==> |line| < l.size
  {
    AppendKeeps(l, line);
    StepLogs(l, AppendLine(line));
    assert |Everything(l) + line| > |Everything(l)|;
  }
}
