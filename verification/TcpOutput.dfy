/** The output side of TcpConnection on the loop thread: direct writes, the output buffer,
    write interest, and the half-close that waits for the buffer to drain. */
module TcpOutput {
  import opened Basics

  datatype ConnState = Connecting | Connected | Disconnecting | Disconnected

  /** What ::write does: takes some of the bytes, or fails. `Broken` is EPIPE or ECONNRESET. */
  datatype WriteResult = Wrote(n: nat) | WouldBlock | Broken | OtherError

  datatype Conn = Conn(
    state: ConnState,
    out: string,                  // outputBuffer_
    writing: bool,                // the channel's write interest
    highWaterMark: nat,
    wire: string,                 // every byte the kernel took
    accepted: string,             // every message taken over, in order
    halfCloses: nat,              // calls of shutdownWrite
    finAfter: Option<nat>,        // bytes on the wire at the first of them
    completions: nat,             // write-complete callbacks queued
    highWaters: nat)              // high-water callbacks queued

  function Fresh(highWaterMark: nat): Conn {
    Conn(Connecting, "", false, highWaterMark, "", "", 0, None, 0, 0)
  }

  // ----- the operations -----

  /** The tail of sendInLoop: bytes that were not written wait in the buffer. */
  function Buffered(c: Conn, left: string): Conn {
    if left == "" then c
    else
      var crossed := |c.out| + |left| >= c.highWaterMark && |c.out| < c.highWaterMark;
      c.(out := c.out + left, writing := true, highWaters := c.highWaters + (if crossed then 1 else 0))
  }

  /** sendInLoop. */
  function SendInLoop(c: Conn, msg: string, w: WriteResult): Conn
    requires w.Wrote? ==> w.n <= |msg|
  {
    if c.state == Disconnected then c
    else if c.writing || c.out != "" then Buffered(c, msg).(accepted := c.accepted + msg)
    else
      match w
      case Wrote(n) =>
        var written := c.(wire := c.wire + msg[..n], accepted := c.accepted + msg,
                          completions := c.completions + (if n == |msg| then 1 else 0));
        Buffered(written, msg[n..])
      case Broken => c
      case _ => Buffered(c, msg).(accepted := c.accepted + msg)
  }

  function Send(c: Conn, msg: string, w: WriteResult): Conn
    requires w.Wrote? ==> w.n <= |msg|
  {
    if c.state == Connected then SendInLoop(c, msg, w) else c
  }

  function ShutdownInLoop(c: Conn): Conn {
    if c.writing then c
    else c.(halfCloses := c.halfCloses + 1,
            finAfter := if c.finAfter == None then Some(|c.wire|) else c.finAfter)
  }

  function Shutdown(c: Conn): Conn {
    if c.state == Connected then ShutdownInLoop(c.(state := Disconnecting)) else c
  }

  /** handleWrite. */
  function HandleWrite(c: Conn, w: WriteResult): Conn
    requires w.Wrote? ==> w.n <= |c.out|
  {
    if !c.writing || !w.Wrote? || w.n == 0 then c
    else
      var left := c.out[w.n..];
      var c1 := c.(wire := c.wire + c.out[..w.n], out := left);
      var c2 := if left == "" then c1.(writing := false, completions := c.completions + 1) else c1;
      if c2.state == Disconnecting then ShutdownInLoop(c2) else c2
  }

  /** handleClose, and connectDestroyed on a live connection. */
  function HandleClose(c: Conn): Conn { c.(state := Disconnected, writing := false) }

  datatype Event =
    | Establish
    | SendMsg(msg: string, result: WriteResult)
    | ShutdownCall
    | Writable(result: WriteResult)
    | Close

  predicate Enabled(c: Conn, e: Event) {
    match e
    case Establish => c.state == Connecting
    case SendMsg(msg, w) => w.Wrote? ==> w.n <= |msg|
    case Writable(w) => w.Wrote? ==> w.n <= |c.out|
    case _ => true
  }

  function Next(c: Conn, e: Event): Conn
    requires Enabled(c, e)
  {
    match e
    case Establish => c.(state := Connected)
    case SendMsg(msg, w) => Send(c, msg, w)
    case ShutdownCall => Shutdown(c)
    case Writable(w) => HandleWrite(c, w)
    case Close => HandleClose(c)
  }

  // ----- what every event keeps -----

  ghost predicate Inv(c: Conn) {
    && c.wire + c.out == c.accepted
    && (c.state != Disconnected ==> (c.writing <==> c.out != ""))
    && (c.state == Disconnected ==> !c.writing)
    && (c.state == Connecting ==> c.accepted == "")
    && (c.state == Connecting || c.state == Connected ==> c.halfCloses == 0)
    && (c.state == Disconnecting ==> (c.halfCloses == 1 <==> c.out == ""))
    && c.halfCloses <= 1
    && (c.halfCloses == 0 <==> c.finAfter == None)
    && (c.halfCloses == 1 ==> c.finAfter == Some(|c.wire|) && c.wire == c.accepted)
  }

  lemma {:induction false} SendKeeps(c: Conn, msg: string, w: WriteResult)
    requires Inv(c) && (w.Wrote? ==> w.n <= |msg|)
    ensures Inv(Send(c, msg, w))
  {
    if c.state == Connected && !c.writing && w.Wrote? {
      assert c.out == "";
      assert c.wire + "" == c.wire;
      assert msg[..w.n] + msg[w.n..] == msg;
      assert (c.wire + msg[..w.n]) + ("" + msg[w.n..]) == c.wire + msg;
    } else if c.state == Connected {
      assert c.wire + (c.out + msg) == (c.wire + c.out) + msg;
    }
  }

  lemma {:induction false} WriteKeeps(c: Conn, w: WriteResult)
    requires Inv(c) && (w.Wrote? ==> w.n <= |c.out|)
    ensures Inv(HandleWrite(c, w))
  {
    if c.writing && w.Wrote? {
      assert (c.wire + c.out[..w.n]) + c.out[w.n..] == c.wire + c.out;
      assert c.out[w.n..] == "" ==> c.wire + c.out[..w.n] + "" == c.wire + c.out[..w.n];
    }
  }

  lemma {:induction false} StepKeeps(c: Conn, e: Event)
    requires Inv(c) && Enabled(c, e)
    ensures Inv(Next(c, e))
  {
    match e
    case SendMsg(msg, w) => SendKeeps(c, msg, w);
    case Writable(w) => WriteKeeps(c, w);
    case ShutdownCall => assert c.out == "" ==> c.wire + c.out == c.wire;
    case _ =>
  }

  // ----- whole runs -----

  function Run(c: Conn, events: seq<Event>): Option<Conn>
    decreases |events|
  {
    if events == [] then Some(c)
    else if Enabled(c, events[0]) then Run(Next(c, events[0]), events[1..])
    else None
  }

  /** The messages taken over in a run: those sent while connected, except one that meets a
      broken connection on an empty buffer. */
  ghost function Taken(c: Conn, events: seq<Event>): string
    requires Run(c, events).Some?
    decreases |events|
  {
    if events == [] then ""
    else
      var e := events[0];
      var taken := e.SendMsg? && c.state == Connected && !(e.result == Broken && c.out == "");
      (if taken then e.msg else "") + Taken(Next(c, e), events[1..])
  }

  lemma {:induction false} StepTakes(c: Conn, e: Event)
    requires Inv(c) && Enabled(c, e)
    ensures Next(c, e).accepted == c.accepted +
      (if e.SendMsg? && c.state == Connected && !(e.result == Broken && c.out == "") then e.msg else "")
    ensures c.wire <= Next(c, e).wire
    ensures c.halfCloses == 1 ==> Next(c, e).wire == c.wire
  {
    assert c.accepted + "" == c.accepted;
    if c.halfCloses == 1 { assert c.state != Connected; assert c.out == "" by { assert |c.wire + c.out| == |c.accepted|; } }
  }

  /** For every sequence of calls and every behaviour of the kernel: the wire and the buffer
      hold the messages taken over, in order and without loss; write interest is on exactly
      while bytes wait; the half-close is sent at most once, after the last byte, and once
      shutdown is asked for it is outstanding exactly while bytes wait. */
  lemma {:induction false} OutputStream(c: Conn, events: seq<Event>)
    requires Inv(c) && Run(c, events).Some?
    ensures var r := Run(c, events).value;
      && r.wire + r.out == c.accepted + Taken(c, events)
      && (r.state != Disconnected ==> (r.writing <==> r.out != ""))
      && r.halfCloses <= 1
      && (r.halfCloses == 1 ==> r.finAfter == Some(|r.wire|) && r.out == "" && r.wire == r.accepted)
      && (r.state == Disconnecting ==> (r.halfCloses == 1 <==> r.out == ""))
      && (r.state == Connected ==> r.halfCloses == 0)
    decreases |events|
  {
    if events == [] {
      assert c.accepted + "" == c.accepted;
      assert c.halfCloses == 1 ==> |c.wire + c.out| == |c.wire|;
    } else {
      StepKeeps(c, events[0]);
      StepTakes(c, events[0]);
      var c1 := Next(c, events[0]);
      OutputStream(c1, events[1..]);
      assert c1.accepted + Taken(c1, events[1..]) == c.accepted + Taken(c, events);
    }
  }

  /** After the half-close no byte follows, whatever happens. */
  lemma {:induction false} SilentAfterHalfClose(c: Conn, events: seq<Event>)
    requires Inv(c) && c.halfCloses == 1 && Run(c, events).Some?
    ensures Run(c, events).value.wire == c.wire && Run(c, events).value.halfCloses == 1
    decreases |events|
  {
    if events != [] {
      StepKeeps(c, events[0]);
      StepTakes(c, events[0]);
      assert Next(c, events[0]).halfCloses == 1;
      SilentAfterHalfClose(Next(c, events[0]), events[1..]);
    }
  }

  /** A write-complete callback is queued exactly when an event leaves no byte waiting: the
      last waiting byte goes out, or a message goes out in one write. */
  lemma {:induction false} CompletionExact(c: Conn, e: Event)
    requires Inv(c) && Enabled(c, e)
    ensures var r := Next(c, e);
      r.completions == c.completions + 1 <==>
        || (c.out != "" && r.out == "")
        || (e.SendMsg? && c.state == Connected && c.out == "" && e.result == Wrote(|e.msg|))
    ensures Next(c, e).completions > c.completions ==> Next(c, e).wire == Next(c, e).accepted
  {
    StepKeeps(c, e);
    var r := Next(c, e);
    assert r.out == "" ==> r.wire + "" == r.wire;
  }

  /** The high-water callback is queued exactly when the waiting bytes rise past the mark. */
  lemma {:induction false} HighWaterExact(c: Conn, e: Event)
    requires Inv(c) && Enabled(c, e)
    ensures Next(c, e).highWaters == c.highWaters + 1 <==> |c.out| < c.highWaterMark <= |Next(c, e).out|
  {}

  // ----- what the kernel took -----

  /** The bytes that the kernel takes at an event: of a message sent while nothing waits, or of
      the bytes that wait. It says how many. */
  ghost function Took(c: Conn, e: Event): string
    requires Enabled(c, e)
  {
    if e.SendMsg? && e.result.Wrote? && c.state == Connected && c.out == "" then e.msg[..e.result.n]
    else if e.Writable? && e.result.Wrote? && c.writing then c.out[..e.result.n]
    else ""
  }

  ghost function TookAll(c: Conn, events: seq<Event>): string
    requires Run(c, events).Some?
    decreases |events|
  {
    if events == [] then "" else Took(c, events[0]) + TookAll(Next(c, events[0]), events[1..])
  }

  lemma {:induction false} StepTook(c: Conn, e: Event)
    requires Inv(c) && Enabled(c, e)
    ensures Next(c, e).wire == c.wire + Took(c, e)
  {
    assert c.wire + "" == c.wire;
  }

  /** The wire is what the kernel took, in order, and what waits is the rest of what was taken
      over: no byte is sent twice and none is dropped. */
  lemma {:induction false} WireExact(c: Conn, events: seq<Event>)
    requires Inv(c) && Run(c, events).Some?
    ensures var r := Run(c, events).value;
      r.wire == c.wire + TookAll(c, events) && c.wire + TookAll(c, events) + r.out == c.accepted + Taken(c, events)
    decreases |events|
  {
    hide Next, Took, Inv, Taken;
    OutputStream(c, events);
    if events == [] {
      assert c.wire + "" == c.wire;
    } else {
      StepKeeps(c, events[0]);
      StepTook(c, events[0]);
      var c1 := Next(c, events[0]);
      WireExact(c1, events[1..]);
      assert c.wire + Took(c, events[0]) + TookAll(c1, events[1..]) == c.wire + TookAll(c, events);
    }
  }

  // ----- states -----

  /** Where a run leaves the connection: closed once it was closed, else shutting down once that was
      asked for while connected. */
  ghost function StateAfter(s: ConnState, events: seq<Event>): ConnState
    decreases |events|
  {
    if events == [] then s
    else
      var e := events[0];
      var s1 :=
        if e.Close? then Disconnected
        else if e.Establish? then Connected
        else if e.ShutdownCall? && s == Connected then Disconnecting
        else s;
      StateAfter(s1, events[1..])
  }

  lemma {:induction false} StateExact(c: Conn, events: seq<Event>)
    requires Run(c, events).Some?
    ensures Run(c, events).value.state == StateAfter(c.state, events)
    decreases |events|
  {
    if events != [] { StateExact(Next(c, events[0]), events[1..]); }
  }

  /** After a shutdown while connected the connection is shutting down until it is closed, and
      after a close it is closed; in both nothing is taken over any more, and after a close
      nothing is written. */
  lemma {:induction false} AcceptsNoMore(c: Conn, events: seq<Event>)
    requires Inv(c) && (c.state == Disconnecting || c.state == Disconnected) && Run(c, events).Some?
    ensures var r := Run(c, events).value;
      && r.accepted == c.accepted
      && r.state == (if c.state == Disconnected || Close in events then Disconnected else Disconnecting)
      && (c.state == Disconnected ==> r.wire == c.wire && r.halfCloses == c.halfCloses)
    decreases |events|
  {
    if events != [] {
      StepKeeps(c, events[0]);
      AcceptsNoMore(Next(c, events[0]), events[1..]);
      assert events == [events[0]] + events[1..];
    }
  }

  lemma {:induction false} ShutdownBegins(c: Conn, events: seq<Event>)
    requires Inv(c) && c.state == Connected && Run(Next(c, ShutdownCall), events).Some?
    ensures var r := Run(Next(c, ShutdownCall), events).value;
      && Next(c, ShutdownCall).state == Disconnecting
      && r.accepted == c.accepted
      && r.state == (if Close in events then Disconnected else Disconnecting)
  {
    StepKeeps(c, ShutdownCall);
    AcceptsNoMore(Next(c, ShutdownCall), events);
  }

  // ----- the object -----

  /** TcpConnection's output fields. The results of ::write come from the caller. */
  class Connection {
    var state: ConnState
    var out: string
    var writing: bool
    const highWaterMark: nat
    ghost var wire: string
    ghost var accepted: string
    ghost var halfCloses: nat
    ghost var finAfter: Option<nat>
    ghost var completions: nat
    ghost var highWaters: nat

    ghost function Abs(): Conn
      reads this
    {
      Conn(state, out, writing, highWaterMark, wire, accepted, halfCloses, finAfter, completions, highWaters)
    }

    constructor (highWaterMark: nat := 64 * 1024 * 1024)
      ensures Abs() == Fresh(highWaterMark) && Inv(Abs())
    {
      state, out, writing := Connecting, "", false;
      this.highWaterMark := highWaterMark;
      wire, accepted, halfCloses, finAfter, completions, highWaters := "", "", 0, None, 0, 0;
    }

    method ConnectEstablished()
      requires Inv(Abs()) && state == Connecting
      modifies this
      ensures Inv(Abs()) && Abs() == old(Abs()).(state := Connected)
    {
      state := Connected;
    }

    /** send on the loop thread. */
    method SendNow(msg: string, w: WriteResult)
      requires Inv(Abs()) && (w.Wrote? ==> w.n <= |msg|)
      modifies this
      ensures Inv(Abs()) && Abs() == Send(old(Abs()), msg, w)
    {
      SendKeeps(Abs(), msg, w);
      if state == Connected {
        SendOut(msg, w);
      }
    }

    /** sendInLoop. */
    method SendOut(msg: string, w: WriteResult)
      requires w.Wrote? ==> w.n <= |msg|
      modifies this
      ensures Abs() == SendInLoop(old(Abs()), msg, w)
    {
      if state == Disconnected { return; }
      var nwrote, remaining, faultError := 0, |msg|, false;
      if !writing && out == "" {
        match w {
          case Wrote(n) =>
            nwrote, remaining := n, |msg| - n;
            wire := wire + msg[..n];
            if remaining == 0 { completions := completions + 1; }
          case Broken => faultError := true;
          case WouldBlock =>
          case OtherError =>
        }
      }
      if !faultError { accepted := accepted + msg; }
      if !faultError && remaining > 0 {
        Keep(msg[nwrote..]);
      }
      assert msg[0..] == msg;
    }

    /** The end of sendInLoop: what was not written is buffered. */
    method Keep(left: string)
      requires left != ""
      modifies this`out, this`writing, this`highWaters
      ensures Abs() == Buffered(old(Abs()), left)
    {
      var oldLen, remaining := |out|, |left|;
      if oldLen + remaining >= highWaterMark && oldLen < highWaterMark { highWaters := highWaters + 1; }
      out := out + left;
      if !writing { writing := true; }
    }

    method ShutdownNow()
      requires Inv(Abs())
      modifies this
      ensures Inv(Abs()) && Abs() == Shutdown(old(Abs()))
    {
      StepKeeps(Abs(), ShutdownCall);
      if state == Connected {
        state := Disconnecting;
        HalfClose();
      }
    }

    /** shutdownInLoop. */
    method HalfClose()
      modifies this
      ensures Abs() == ShutdownInLoop(old(Abs()))
    {
      if !writing {
        halfCloses := halfCloses + 1;
        if finAfter == None { finAfter := Some(|wire|); }
      }
    }

    method OnWritable(w: WriteResult)
      requires Inv(Abs()) && (w.Wrote? ==> w.n <= |out|)
      modifies this
      ensures Inv(Abs()) && Abs() == HandleWrite(old(Abs()), w)
    {
      WriteKeeps(Abs(), w);
      if writing && w.Wrote? && w.n > 0 {
        wire := wire + out[..w.n];
        out := out[w.n..];
        if out == "" {
          writing := false;
          completions := completions + 1;
        }
        if state == Disconnecting { HalfClose(); }
      }
    }

    method OnClose()
      requires Inv(Abs())
      modifies this
      ensures Inv(Abs()) && Abs() == HandleClose(old(Abs()))
    {
      state := Disconnected;
      writing := false;
    }
  }
}
