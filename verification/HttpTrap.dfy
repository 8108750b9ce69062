/** States that the parser does not get out of, whatever bytes follow: inside a header line
    after its pointers are lost, with a field that was never sent, or past a request that
    ended too early. */
module HttpTrap {
  import opened Basics
  import opened HttpMessage
  import opened HttpParser
  import opened HttpRoundTrip
  import opened HttpStream

  // ----- inside a header line -----

  /** The states of the header machine inside a field's line. */
  predicate InLine(h: HState) { h == Key || h == Colon || h == Spaces || h == Value || h == Cr }

  ghost predicate Lost(c: Cursor) { InLine(c.h) && c.keyStart.None? && c.keyEnd.None? }

  lemma {:induction false} LostScan(c: Cursor, data: string, i: nat)
    requires i <= |data| && Lost(c)
    ensures var s := ScanFrom(c, data, i); s.HeadersFault? || ((s.HeadersBroken? || s.HeadersAgain?) && InLine(s.h))
    decreases |data| - i
  {
    if i < |data| {
      var s := OnChar(c, data, i);
      if s.More? { LostScan(s.cursor, data, i + 1); }
    }
  }

  ghost predicate Trapped(c: Context) { c.state == ParseHeaders && InLine(c.hState) }

  lemma {:induction false} TrappedServe(c: Context, data: string, now: int, beyond: char)
    requires Trapped(c)
    ensures var s := Serve(c, data, now, beyond); s.requests == [] && Trapped(s.context)
  {
    LostScan(Cursor(c.hState, c.request, None, None, None, None), data, 0);
  }

  /** Once a delivery has ended inside a header line, no request is ever completed again,
      whatever is delivered. */
  lemma {:induction false} TrappedForGood(c: Context, rest: string, ds: seq<Delivery>)
    requires Trapped(c)
    ensures ServeAll(c, rest, ds).requests == []
    decreases |ds|
  {
    hide Serve;
    if ds != [] {
      TrappedServe(c, rest + ds[0].bytes, ds[0].time, ds[0].beyond);
      var s := Serve(c, rest + ds[0].bytes, ds[0].time, ds[0].beyond);
      if s.outcome != Crashed { TrappedForGood(s.context, s.rest, ds[1..]); }
    }
  }

  /** Between CR and LF of the empty line with something else in front: every delivery fails. */
  lemma {:induction false} StuckForGood(c: Context, rest: string, ds: seq<Delivery>)
    requires c.state == ParseHeaders && c.hState == EndCr && rest != "" && rest[0] != '\n'
    ensures ServeAll(c, rest, ds).requests == []
    decreases |ds|
  {
    hide Serve;
    if ds != [] {
      StuckServe(c, rest + ds[0].bytes, ds[0].time, ds[0].beyond);
      StuckForGood(c, rest + ds[0].bytes, ds[1..]);
    }
  }

  lemma {:induction false} StuckServe(c: Context, data: string, now: int, beyond: char)
    requires c.state == ParseHeaders && c.hState == EndCr && data != "" && data[0] != '\n'
    ensures Serve(c, data, now, beyond) == Served([], Bad, c, data)
  {
    assert OnChar(Cursor(EndCr, c.request, None, None, None, None), data, 0).Broken?;
  }

  /** A line that is no request line in front: every delivery fails, and the bytes stay. */
  lemma {:induction false} NoLineForGood(c: Context, line: string, rest: string, ds: seq<Delivery>)
    requires c.state == ParseUri && Free(line, '\r') && MethodOf(line[..Find(line, ' ')]) == Invalid
    requires rest != "" && line + "\r" <= rest
    ensures var f := ServeAll(c, rest, ds); f.requests == [] && !Idle(f.context, f.rest)
    decreases |ds|
  {
    hide Serve;
    if ds != [] {
      var data := rest + ds[0].bytes;
      assert line + "\r" <= data;
      NoLineServe(c, line, data, ds[0].time, ds[0].beyond);
      NoLineForGood(Serve(c, data, ds[0].time, ds[0].beyond).context, line, data, ds[1..]);
    }
  }

  lemma {:induction false} NoLineServe(c: Context, line: string, data: string, now: int, beyond: char)
    requires c.state == ParseUri && Free(line, '\r') && MethodOf(line[..Find(line, ' ')]) == Invalid
    requires line + "\r" <= data
    ensures var s := Serve(c, data, now, beyond);
      s.requests == [] && s.outcome == Bad && s.context.state == ParseUri && s.rest == data
  {
    hide MethodOf;
    var n := |line|;
    assert data[..n + 1] == line + "\r";
    assert data == line + ['\r'] + data[n + 1..];
    FindAt(line, '\r', data[n + 1..]);
    assert data[..n] == line;
  }

  // ----- a field that was never sent -----

  lemma {:induction false} ScanKeeps(c: Cursor, data: string, i: nat, x: string)
    requires i <= |data| && x in c.request.headers
    ensures var s := ScanFrom(c, data, i); s.HeadersFault? || x in s.request.headers
    decreases |data| - i
  {
    if i < |data| {
      var s := OnChar(c, data, i);
      if s.More? { ScanKeeps(s.cursor, data, i + 1, x); }
    }
  }

  ghost predicate Tainted(c: Context, x: string) { c.state != ParseUri && x in c.request.headers }

  lemma {:induction false} TaintedParse(c: Context, data: string, now: int, beyond: char, x: string)
    requires Tainted(c, x) && c.state != Finish
    ensures Tainted(Parse(c, data, now, beyond).context, x)
    decreases Rank(c.state)
  {
    hide Stoul;
    match c.state
    case ParseHeaders =>
      ScanKeeps(Cursor(c.hState, c.request, None, None, None, None), data, 0, x);
      var s := HeaderStep(c.hState, c.request, data);
      if s.HeadersDone? {
        TaintedParse(Context(if s.request.verb == Post then RecvBody else Analysis, s.h, s.request), data[s.used..], now, beyond, x);
      }
    case _ =>
  }

  /** A field in the request stays in it: the next request handed over has it. */
  lemma {:induction false} TaintedForGood(c: Context, rest: string, ds: seq<Delivery>, x: string)
    requires Tainted(c, x) && c.state != Finish
    ensures var f := ServeAll(c, rest, ds); f.requests != [] ==> x in f.requests[0].headers
    decreases |ds|
  {
    hide Parse, Serve;
    if ds != [] {
      var data, now, beyond := rest + ds[0].bytes, ds[0].time, ds[0].beyond;
      TaintedServe(c, data, now, beyond, x);
      var s := Serve(c, data, now, beyond);
      if s.outcome != Crashed && s.requests == [] { TaintedForGood(s.context, s.rest, ds[1..], x); }
    }
  }

  lemma {:induction false} TaintedServe(c: Context, data: string, now: int, beyond: char, x: string)
    requires Tainted(c, x) && c.state != Finish
    ensures var s := Serve(c, data, now, beyond);
      if s.requests == [] then Tainted(s.context, x) else x in s.requests[0].headers
  {
    hide Parse;
    TaintedParse(c, data, now, beyond, x);
  }

  // ----- past a request that ended too early -----

  ghost predicate Idle(c: Context, rest: string) { c == FRESH && rest == "" }

  lemma {:induction false} ParseGoesOn(c: Context, data: string, now: int, beyond: char)
    requires c.state != Finish && c.state != ParseUri
    ensures Parse(c, data, now, beyond).context.state != ParseUri
    decreases Rank(c.state)
  {
    hide Stoul, ScanFrom;
    if c.state == ParseHeaders {
      var s := HeaderStep(c.hState, c.request, data);
      if s.HeadersDone? {
        ParseGoesOn(Context(if s.request.verb == Post then RecvBody else Analysis, s.h, s.request), data[s.used..], now, beyond);
      }
    }
  }

  /** Bytes do not vanish: after some, the parser is idle only by way of a request. */
  lemma {:induction false} NeverIdle(c: Context, data: string, now: int, beyond: char)
    requires c.state != Finish && data != ""
    ensures var s := Serve(c, data, now, beyond); s.requests == [] ==> !Idle(s.context, s.rest)
  {
    hide HeaderStep, LineStep;
    if c.state != ParseUri {
      ParseGoesOn(c, data, now, beyond);
    } else {
      var u := UriStep(c.request, data, beyond);
      if u.flag == Success {
        ParseGoesOn(c.(state := ParseHeaders, request := u.request.(receiveTime := now)), u.rest, now, beyond);
      }
    }
  }

  ghost predicate AllSome(ds: seq<Delivery>) { forall i | 0 <= i < |ds| :: ds[i].bytes != "" }

  lemma {:induction false} NeverIdleAgain(c: Context, rest: string, ds: seq<Delivery>)
    requires c.state != Finish && AllSome(ds) && (Idle(c, rest) ==> ds != [])
    ensures var f := ServeAll(c, rest, ds); f.requests == [] ==> !Idle(f.context, f.rest)
    decreases |ds|
  {
    hide Serve, Idle;
    if ds != [] {
      var data := rest + ds[0].bytes;
      assert |data| > 0;
      NeverIdle(c, data, ds[0].time, ds[0].beyond);
      var s := Serve(c, data, ds[0].time, ds[0].beyond);
      if s.outcome != Crashed && s.requests == [] { NeverIdleAgain(s.context, s.rest, ds[1..]); }
    }
  }

  // ----- requests without header fields -----

  predicate Blank(s: string) { forall x :: 0 <= x < |s| ==> s[x] == '\r' || s[x] == '\n' }

  ghost function Joined(ds: seq<Delivery>): string { if ds == [] then "" else ds[0].bytes + Joined(ds[1..]) }

  lemma {:induction false} BlankForGood(r: Request, rest: string, ds: seq<Delivery>)
    requires Blank(rest) && forall i | 0 <= i < |ds| :: Blank(ds[i].bytes)
    ensures var c := Context(ParseHeaders, Start, r);
      ServeAll(c, rest, ds) == Served([], Waiting, c, rest + Joined(ds))
    decreases |ds|
  {
    hide Serve, Blank;
    if ds == [] {
      assert rest + Joined(ds) == rest;
    } else {
      var data := rest + ds[0].bytes;
      BlankConcat(rest, ds[0].bytes);
      BlankServe(r, data, ds[0].time, ds[0].beyond);
      BlankForGood(r, data, ds[1..]);
      assert data + Joined(ds[1..]) == rest + Joined(ds);
      assert [] + ServeAll(Context(ParseHeaders, Start, r), data, ds[1..]).requests == [];
    }
  }

  lemma {:induction false} BlankConcat(s: string, t: string)
    requires Blank(s) && Blank(t)
    ensures Blank(s + t)
  {}

  lemma {:induction false} BlankServe(r: Request, data: string, now: int, beyond: char)
    requires Blank(data)
    ensures var c := Context(ParseHeaders, Start, r); Serve(c, data, now, beyond) == Served([], Waiting, c, data)
  {
    WalkBlank(Cursor(Start, r, None, None, None, None), data, 0);
  }

  /** A request with no header field is never complete, however many line ends follow it in
      however many deliveries. */
  lemma {:induction false} HeaderlessNeverCompletes(m: Message, blank: string, time: int, beyond: char, ds: seq<Delivery>)
    requires WellLine(m) && Blank(blank) && forall i | 0 <= i < |ds| :: Blank(ds[i].bytes)
    ensures ServeAll(FRESH, "", [Delivery(LineText(m) + "\r\n" + blank, time, beyond)] + ds)
         == Served([], Waiting, Context(ParseHeaders, Start, LineRequest(m).(receiveTime := time)), blank + Joined(ds))
  {
    hide LineText, Serve;
    var first := Delivery(LineText(m) + "\r\n" + blank, time, beyond);
    HeaderlessWaits(m, blank, time, beyond);
    assert "" + first.bytes == first.bytes;
    assert ([first] + ds)[1..] == ds;
    BlankForGood(LineRequest(m).(receiveTime := time), blank, ds);
    assert [] + ServeAll(Context(ParseHeaders, Start, LineRequest(m).(receiveTime := time)), blank, ds).requests == [];
  }

  /** A request that can be printed is parsed back exactly if it has a header field. */
  lemma {:induction false} CompletesIffHeaders(m: Message, time: int, beyond: char)
    requires WellLine(m) && WellHeaders(m.headers) && WellBody(m.verb, HeaderMap(m.headers), m.body)
    ensures var s := Serve(FRESH, Print(m), time, beyond);
      && (s.requests != [] <==> m.headers != [])
      && (m.headers != [] ==> s == Served([Meaning(m, time)], Waiting, FRESH, ""))
      && (m.headers == [] ==> s.outcome == Waiting && s.context.state == ParseHeaders && s.rest == "\r\n")
  {
    hide Serve, LineText;
    if m.headers != [] {
      PipelineEmpties([m], time, beyond);
      assert [m][1..] == [];
      assert PrintAll([m]) == Print(m) + "" == Print(m);
      assert Meanings([m], time) == [Meaning(m, time)];
    } else {
      HeaderlessWaits(m, "\r\n", time, beyond);
      assert Print(m) == LineText(m) + "\r\n" + "\r\n";
    }
  }
}
