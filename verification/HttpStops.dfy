/** One request in deliveries, with anything behind it: where they may end, and the deliveries that do no harm. */
module HttpStops {
  import opened Basics
  import opened HttpMessage
  import opened HttpParser
  import opened HttpRoundTrip
  import opened HttpSplit
  import opened HttpStream
  import opened HttpTrap

  /** Where a delivery ends inside the request, when it comes, and the byte behind it in memory. */
  datatype Stop = Stop(at: nat, time: int, beyond: char)

  ghost predicate Inside(m: Message, i: nat, stops: seq<Stop>)
    requires WellLine(m)
    decreases |stops|
  {
    stops == [] || (i < stops[0].at < |Print(m)| && Inside(m, stops[0].at, stops[1..]))
  }

  /** What comes in the delivery with the request's last byte, and in those after it. */
  datatype Onward = Onward(tail: string, time: int, beyond: char, more: seq<Delivery>)

  /** The deliveries of the request from byte `i` on, and what follows. */
  ghost function Deliveries(m: Message, i: nat, stops: seq<Stop>, o: Onward): seq<Delivery>
    requires WellLine(m) && Inside(m, i, stops) && i <= |Print(m)|
    decreases |stops|
  {
    if stops == [] then [Delivery(Print(m)[i..] + o.tail, o.time, o.beyond)] + o.more
    else [Delivery(Print(m)[i..stops[0].at], stops[0].time, stops[0].beyond)] + Deliveries(m, stops[0].at, stops[1..], o)
  }

  /** What follows the request, alone. */
  ghost function Following(o: Onward): seq<Delivery> { [Delivery(o.tail, o.time, o.beyond)] + o.more }

  /** A request handed over, after an error or not, and then what `f` says. */
  ghost function Then(error: bool, q: Request, f: Served): Served {
    f.(requests := [q] + f.requests, outcome := if f.outcome == Waiting && error then Bad else f.outcome)
  }

  ghost predicate AtCr(m: Message, i: nat)
    requires WellLine(m)
  {
    i == LineLen(m) + 1
  }

  /** Behind the CR, where the byte in memory after it happens to be LF. */
  ghost predicate StaleLf(m: Message, s: Stop)
    requires WellLine(m)
  {
    AtCr(m, s.at) && s.beyond == '\n'
  }

  /** Behind a header line. */
  ghost predicate AtField(m: Message, i: nat)
    requires WellLine(m)
  {
    exists j :: 1 <= j <= |m.headers| && i == FieldPos(m, j)
  }

  /** Stops that do no harm: clean or behind the request line's CR; and where a stale LF was taken
      for the line's end (`cr`: before them), none behind a header line. */
  ghost predicate SafeStops(m: Message, cr: bool, stops: seq<Stop>)
    requires WellLine(m)
  {
    && (forall x | 0 <= x < |stops| :: CleanCut(m, stops[x].at) || AtCr(m, stops[x].at))
    && (cr || (exists x :: 0 <= x < |stops| && StaleLf(m, stops[x])) ==>
          forall x | 0 <= x < |stops| :: !AtField(m, stops[x].at))
  }

  /** A stop behind the CR with another byte after it: the request line is an error, once. */
  ghost predicate HasError(m: Message, stops: seq<Stop>)
    requires WellLine(m)
  {
    exists x :: 0 <= x < |stops| && AtCr(m, stops[x].at) && !StaleLf(m, stops[x])
  }

  /** A stale LF, and a stop between CR and LF of the empty line. */
  ghost predicate EndsEarly(m: Message, cr: bool, stops: seq<Stop>)
    requires WellLine(m)
  {
    && (cr || exists x :: 0 <= x < |stops| && StaleLf(m, stops[x]))
    && (exists x :: 0 <= x < |stops| && stops[x].at == HeadLen(m) - 1)
  }

  /** The first field's name is free of spaces, and there is no body. */
  ghost predicate Plain(m: Message)
    requires m.headers != []
  {
    Free(m.headers[0].0, ' ') && m.body == ""
  }

  ghost predicate Nothing(o: Onward) { o.tail == "" && o.more == [] }

  /** The request is lost or altered, or what it leaves in the buffer is not what follows it. The
      last case is left open: an early end, with other bytes to come, of a request that has a
      body or a space in its first field's name. */
  ghost predicate Spoiled(m: Message, cr: bool, stops: seq<Stop>, o: Onward, f: Served)
    requires WellFormed(m)
  {
    || f.requests == []
    || f.outcome == Crashed
    || f.requests[0].headers != HeaderMap(m.headers)
    || (Plain(m) && |f.requests| <= 1 && !Idle(f.context, f.rest))
    || (Nothing(o) && !(|f.requests| == 1 && Idle(f.context, f.rest)))
    || (!Plain(m) && !Nothing(o) && EndsEarly(m, cr, stops))
  }

  // ----- stops -----

  lemma {:induction false} StopsAhead(m: Message, i: nat, stops: seq<Stop>)
    requires WellLine(m) && Inside(m, i, stops)
    ensures forall x | 0 <= x < |stops| :: i < stops[x].at < |Print(m)|
    decreases |stops|
  {
    if stops != [] {
      StopsAhead(m, stops[0].at, stops[1..]);
      forall x | 0 <= x < |stops| ensures i < stops[x].at < |Print(m)| {
        if x > 0 { assert stops[x] == stops[1..][x - 1]; }
      }
    }
  }

  lemma {:induction false} FieldPlaces(m: Message)
    requires WellFormed(m)
    ensures forall j | 1 <= j <= |m.headers| :: LineLen(m) + 2 < FieldPos(m, j) <= HeadLen(m) - 2
    ensures FieldPos(m, 0) == LineLen(m) + 2 && HeadLen(m) <= |Print(m)|
  {
    hide FieldsText, LineText;
    PrintParts(m);
    NoFields();
    assert m.headers[..0] == [];
    forall j | 1 <= j <= |m.headers| ensures LineLen(m) + 2 < FieldPos(m, j) <= HeadLen(m) - 2 {
      FieldsTextGrows(m.headers, 0, j);
      FieldCut(m, j);
    }
  }

  /** Where a stop can be. */
  lemma {:induction false} CutKinds(m: Message, k: nat)
    requires WellFormed(m)
    ensures CleanCut(m, k) <==> k <= LineLen(m) || k == LineLen(m) + 2 || AtField(m, k) || k >= HeadLen(m)
    ensures AtField(m, k) ==> LineLen(m) + 2 < k < HeadLen(m)
  {
    hide Print, FieldPos;
    FieldPlaces(m);
  }

  /** The first stop and the others. */
  lemma {:induction false} SafeNext(m: Message, i: nat, cr: bool, stops: seq<Stop>)
    requires WellFormed(m) && Inside(m, i, stops) && stops != []
    ensures var s := stops[0];
      SafeStops(m, cr, stops) <==>
        && (CleanCut(m, s.at) || AtCr(m, s.at)) && !(cr && AtField(m, s.at))
        && SafeStops(m, cr || StaleLf(m, s), stops[1..])
  {
    hide CleanCut, Print, FieldPos;
    var s, rest := stops[0], stops[1..];
    assert forall x | 0 <= x < |rest| :: rest[x] == stops[x + 1];
    assert forall x | 1 <= x < |stops| :: stops[x] == rest[x - 1];
    StopsAhead(m, s.at, rest);
    FieldPlaces(m);
    assert AtField(m, s.at) ==> !AtCr(m, s.at) && forall x | 0 <= x < |rest| :: !AtCr(m, rest[x].at);
    if SafeStops(m, cr || StaleLf(m, s), rest) && (exists x :: 0 <= x < |stops| && StaleLf(m, stops[x])) {
      var x :| 0 <= x < |stops| && StaleLf(m, stops[x]);
      assert x == 0 || StaleLf(m, rest[x - 1]);
    }
  }

  lemma {:induction false} OthersNext(m: Message, i: nat, cr: bool, stops: seq<Stop>)
    requires WellFormed(m) && Inside(m, i, stops) && stops != []
    ensures HasError(m, stops) <==> (AtCr(m, stops[0].at) && !StaleLf(m, stops[0])) || HasError(m, stops[1..])
    ensures AtCr(m, stops[0].at) ==> !HasError(m, stops[1..])
    ensures EndsEarly(m, cr || StaleLf(m, stops[0]), stops[1..]) ==> EndsEarly(m, cr, stops)
  {
    hide CleanCut, Print, FieldPos;
    var s, rest := stops[0], stops[1..];
    assert forall x | 0 <= x < |rest| :: rest[x] == stops[x + 1];
    assert forall x | 1 <= x < |stops| :: stops[x] == rest[x - 1];
    StopsAhead(m, s.at, rest);
    if HasError(m, stops) {
      var x :| 0 <= x < |stops| && AtCr(m, stops[x].at) && !StaleLf(m, stops[x]);
      assert x == 0 || (AtCr(m, rest[x - 1].at) && !StaleLf(m, rest[x - 1]));
    }
    if HasError(m, rest) {
      var x :| 0 <= x < |rest| && AtCr(m, rest[x].at) && !StaleLf(m, rest[x]);
      assert AtCr(m, stops[x + 1].at) && !StaleLf(m, stops[x + 1]);
    }
    if EndsEarly(m, cr || StaleLf(m, s), rest) {
      var x :| 0 <= x < |rest| && rest[x].at == HeadLen(m) - 1;
      assert stops[x + 1].at == HeadLen(m) - 1;
      if !cr && !StaleLf(m, s) {
        var y :| 0 <= y < |rest| && StaleLf(m, rest[y]);
        assert StaleLf(m, stops[y + 1]);
      }
    }
  }

  /** Behind the header section every stop is safe. */
  lemma {:induction false} SafePastHead(m: Message, i: nat, cr: bool, stops: seq<Stop>)
    requires WellFormed(m) && Inside(m, i, stops) && i >= HeadLen(m)
    ensures SafeStops(m, cr, stops) && !HasError(m, stops)
  {
    hide Print, FieldPos;
    StopsAhead(m, i, stops);
    FieldPlaces(m);
  }

  // ----- one delivery -----

  /** The delivery to the next stop, and the rest. */
  lemma {:induction false} FeedStep(c: Context, rest: string, m: Message, i: nat, stops: seq<Stop>, o: Onward)
    requires WellLine(m) && Inside(m, i, stops) && stops != [] && c.state != Finish && i <= |Print(m)|
    ensures var s := Serve(c, rest + Print(m)[i..stops[0].at], stops[0].time, stops[0].beyond);
      var more := ServeAll(s.context, s.rest, Deliveries(m, stops[0].at, stops[1..], o));
      ServeAll(c, rest, Deliveries(m, i, stops, o))
        == if s.outcome == Crashed then s
           else more.(requests := s.requests + more.requests, outcome := Worse(s.outcome, more.outcome))
  {
    hide Serve, Print;
    assert Deliveries(m, i, stops, o)[1..] == Deliveries(m, stops[0].at, stops[1..], o);
  }

  /** A delivery that hands nothing over and brings no error adds nothing. */
  lemma {:induction false} QuietStep(c: Context, rest: string, m: Message, i: nat, stops: seq<Stop>, o: Onward)
    requires WellLine(m) && Inside(m, i, stops) && stops != [] && c.state != Finish && i <= |Print(m)|
    requires var s := Serve(c, rest + Print(m)[i..stops[0].at], stops[0].time, stops[0].beyond);
      s.outcome == Waiting && s.requests == []
    ensures var s := Serve(c, rest + Print(m)[i..stops[0].at], stops[0].time, stops[0].beyond);
      ServeAll(c, rest, Deliveries(m, i, stops, o)) == ServeAll(s.context, s.rest, Deliveries(m, stops[0].at, stops[1..], o))
  {
    hide Serve, Print, Deliveries;
    FeedStep(c, rest, m, i, stops, o);
    var s := Serve(c, rest + Print(m)[i..stops[0].at], stops[0].time, stops[0].beyond);
    var more := ServeAll(s.context, s.rest, Deliveries(m, stops[0].at, stops[1..], o));
    assert s.requests + more.requests == more.requests;
  }

  /** The delivery that completes the request. */
  lemma {:induction false} LastStep(c: Context, rest: string, m: Message, i: nat, o: Onward, q: Context)
    requires WellLine(m) && c.state != Finish && i < |Print(m)| && q.state == Finish
    requires Parse(c, rest + Print(m)[i..] + o.tail, o.time, o.beyond) == Parsed(Waiting, q, o.tail)
    ensures ServeAll(c, rest, Deliveries(m, i, [], o)) == Then(false, q.request, ServeAll(FRESH, "", Following(o)))
  {
    hide Serve, Parse, Print;
    var data := rest + Print(m)[i..] + o.tail;
    assert rest + (Print(m)[i..] + o.tail) == data;
    assert |data| > 0;
    ServeComplete(c, data, o.time, o.beyond);
    assert "" + o.tail == o.tail;
    assert Deliveries(m, i, [], o)[1..] == o.more && Following(o)[1..] == o.more;
    var s := Serve(FRESH, o.tail, o.time, o.beyond);
    if s.outcome != Crashed {
      var more := ServeAll(s.context, s.rest, o.more);
      assert [q.request] + s.requests + more.requests == [q.request] + (s.requests + more.requests);
    }
  }

  /** Header fields after a line feed that the request line left behind. */
  lemma {:induction false} HeadersAfterLf(r: Request, hs: seq<(string, string)>, tail: string)
    requires hs != [] && WellHeaders(hs)
    ensures HeaderStep(Start, r, "\n" + (FieldsText(hs) + "\r\n" + tail))
         == HeadersDone(EndLf, r.(headers := r.headers + HeaderMap(hs)), |FieldsText(hs)| + 3)
  {
    hide ScanFrom, FieldsText, HeaderMap;
    var data, j := "\n" + (FieldsText(hs) + "\r\n" + tail), |FieldsText(hs)| + 1;
    var c := Cursor(Start, r, None, None, None, None);
    WalkOne(c, data, 0);
    assert data[1..j] == FieldsText(hs);
    var c1 := WalkFields(c, data, 1, hs);
    WalkOn(c, data, 0, 1, j);
    WalkThenScan(c, data, 0, j);
    ScanTerminator(c1, data, j);
  }

  /** The first delivery ends with the CR and the byte after it reads as LF. */
  lemma {:induction false} CrAtEnd(m: Message, t: int, b: char)
    requires WellFormed(m)
    ensures var d := Serve(FRESH, LineText(m) + "\r", t, b);
      if b == '\n'
      then d == Served([], Waiting, Context(ParseHeaders, Start, LineRequest(m).(receiveTime := t)), "")
      else d == Served([], Bad, FRESH.(request := LineRequest(m)), LineText(m) + "\r")
  {
    hide LineText, LineStep, OnChar;
    var line := LineText(m);
    var data := line + "\r";
    LineHasNoCr(m);
    LineParses(m);
    FindAt(line, '\r', "");
    assert data == line + ['\r'] + "";
    assert data[..|line|] == line;
    assert UriStep(NO_REQUEST, data, b) ==
      if b == '\n' then UriResult(Success, LineRequest(m), "") else UriResult(Error, LineRequest(m), data);
  }

  lemma {:induction false} HeadAfterLf(m: Message, time: int, n: nat, tail: string, now: int, beyond: char)
    requires WellFormed(m) && n <= |m.body| && (n < |m.body| ==> tail == "")
    ensures var p := Parse(Context(ParseHeaders, Start, HeadRequest(m, time).(headers := map[])),
                           "\n" + (FieldsText(m.headers) + "\r\n" + (m.body[..n] + tail)), now, beyond);
      p == if n == |m.body| then Parsed(Waiting, Complete(m, time), tail)
           else Parsed(Waiting, Context(RecvBody, EndLf, HeadRequest(m, time)), m.body[..n])
  {
    hide HeaderStep, FieldsText, HeaderMap, Stoul;
    var rest := m.body[..n] + tail;
    var data := "\n" + (FieldsText(m.headers) + "\r\n" + rest);
    HeadersAfterLf(HeadRequest(m, time).(headers := map[]), m.headers, rest);
    assert map[] + HeaderMap(m.headers) == HeaderMap(m.headers);
    assert data[|FieldsText(m.headers)| + 3..] == rest;
    if n == |m.body| {
      assert m.body[..n] == m.body;
      BodyParses(m, time, tail, now, beyond);
    } else {
      assert rest == m.body[..n];
      BodyOnlyPost(m);
      RestInBody(m, time, n, now, beyond);
    }
  }

  /** Behind the CR, with the LF still to come or left in the buffer. */
  ghost predicate PastCr(c: Context, rest: string, m: Message, i: nat, time: int)
    requires WellLine(m)
  {
    && c == Context(ParseHeaders, Start, HeadRequest(m, time).(headers := map[]))
    && ((i == LineLen(m) + 1 && rest == "") || (i == LineLen(m) + 2 && rest == "\n"))
  }

  lemma {:induction false} PastCrBytes(c: Context, rest: string, m: Message, i: nat, time: int, k: nat)
    requires WellFormed(m) && PastCr(c, rest, m, i, time) && i < k <= |Print(m)|
    ensures LineLen(m) + 2 <= k && rest + Print(m)[i..k] == "\n" + Print(m)[LineLen(m) + 2..k]
  {
    hide LineText, FieldsText;
    PrintParts(m);
    assert Print(m)[LineLen(m) + 1] == '\n';
    assert Print(m)[LineLen(m) + 1..k] == ['\n'] + Print(m)[LineLen(m) + 2..k];
  }

  /** From behind the CR into the body. */
  lemma {:induction false} LfThenBody(c: Context, rest: string, m: Message, i: nat, time: int, k: nat, now: int, beyond: char)
    requires WellFormed(m) && PastCr(c, rest, m, i, time) && i < k < |Print(m)| && HeadLen(m) <= k
    ensures var s := Serve(c, rest + Print(m)[i..k], now, beyond);
      s.outcome == Waiting && s.requests == [] && Resting(s.context, s.rest, m, k, time)
  {
    hide Parse, Serve, HeaderStep, FieldsText, LineText, HeaderMap, Stoul;
    PrintParts(m);
    PastCrBytes(c, rest, m, i, time, k);
    var n := k - HeadLen(m);
    assert Print(m)[LineLen(m) + 2..k] == FieldsText(m.headers) + "\r\n" + (m.body[..n] + "");
    HeadAfterLf(m, time, n, "", now, beyond);
    ServeWaiting(c, rest + Print(m)[i..k], now, beyond);
    assert InBody(Context(RecvBody, EndLf, HeadRequest(m, time)), m.body[..n], m, k, time);
  }

  /** From behind the CR to the end. */
  lemma {:induction false} LfThenEnd(c: Context, rest: string, m: Message, i: nat, time: int, o: Onward)
    requires WellFormed(m) && PastCr(c, rest, m, i, time) && i < |Print(m)|
    ensures ServeAll(c, rest, Deliveries(m, i, [], o)) == Then(false, Meaning(m, time), ServeAll(FRESH, "", Following(o)))
  {
    hide Parse, ServeAll, HeaderStep, FieldsText, LineText, HeaderMap, Stoul;
    PrintParts(m);
    PastCrBytes(c, rest, m, i, time, |Print(m)|);
    assert Print(m)[i..|Print(m)|] == Print(m)[i..];
    assert m.body[..|m.body|] == m.body;
    assert Print(m)[LineLen(m) + 2..|Print(m)|] == FieldsText(m.headers) + "\r\n" + m.body;
    assert rest + Print(m)[i..] + o.tail == "\n" + (FieldsText(m.headers) + "\r\n" + (m.body + o.tail));
    HeadAfterLf(m, time, |m.body|, o.tail, o.time, o.beyond);
    LastStep(c, rest, m, i, o, Complete(m, time));
  }

  /** Up to the CR. */
  lemma {:induction false} ToCr(c: Context, rest: string, m: Message, i: nat, time: int, now: int, beyond: char)
    requires WellFormed(m) && Resting(c, rest, m, i, time) && i < LineLen(m) + 1
    ensures LineLen(m) + 1 <= |Print(m)| && c.state != Finish
    ensures var s := Serve(c, rest + Print(m)[i..LineLen(m) + 1], now, beyond);
      s.requests == [] &&
      if beyond == '\n' then s.outcome == Waiting && PastCr(s.context, s.rest, m, LineLen(m) + 1, now)
      else s == Served([], Bad, FRESH.(request := LineRequest(m)), LineText(m) + "\r")
  {
    hide LineText, FieldsText, Serve, HeaderMap;
    PrintParts(m);
    FieldPlaces(m);
    forall j | 0 <= j <= |m.headers| ensures LineLen(m) + 2 <= FieldPos(m, j) {
      FieldCut(m, j);
    }
    assert c == FRESH && rest == Print(m)[..i];
    assert rest + Print(m)[i..LineLen(m) + 1] == LineText(m) + "\r";
    CrAtEnd(m, now, beyond);
    assert LineRequest(m).(receiveTime := now) == HeadRequest(m, now).(headers := map[]);
  }

  // ----- after an error behind the CR: the line is read again -----

  /** The fields of the line are set again to what they are. */
  lemma {:induction false} LineAgain(m: Message)
    requires WellLine(m)
    ensures LineStep(LineRequest(m), LineText(m)) == LineStep(NO_REQUEST, LineText(m))
  {
    hide Find, MethodOf, VersionOf;
    LineParses(m);
    LineQuery(m);
  }

  lemma {:induction false} LineQuery(m: Message)
    requires WellLine(m)
    ensures var line := LineText(m);
      var space := Find(line, ' ');
      && space < |line|
      && var tail := line[space + 1..];
      var space2 := Find(tail, ' ');
      && space2 < |tail| && MethodOf(line[..space]) == m.verb && tail[..space2] == Target(m.path, m.query)
      && VersionOf(tail[space2 + 1..]) == m.version
      && (Find(tail[..space2], '?') == |tail[..space2]| ==> m.query == "")
  {
    hide LineStep;
    var target := Target(m.path, m.query);
    MethodWord(m.verb);
    VersionWord(m.version);
    TargetParts(m.path, m.query);
    var rest := target + " " + VersionText(m.version);
    assert LineText(m) == MethodText(m.verb) + " " + rest;
    SplitAtSpace(MethodText(m.verb), rest);
    SplitAtSpace(target, VersionText(m.version));
  }

  lemma {:induction false} LineServedAgain(m: Message, data: string, now: int, beyond: char)
    requires WellLine(m) && LineText(m) + "\r\n" <= data
    ensures Serve(FRESH.(request := LineRequest(m)), data, now, beyond) == Serve(FRESH, data, now, beyond)
  {
    hide LineText, LineStep;
    var line := LineText(m);
    var rest := data[|line| + 2..];
    assert data == line + "\r\n" + rest;
    LineHasNoCr(m);
    FindAt(line, '\r', "\n" + rest);
    assert data == line + ['\r'] + ("\n" + rest);
    assert data[..|line|] == line;
    LineAgain(m);
    assert UriStep(LineRequest(m), data, beyond) == UriStep(NO_REQUEST, data, beyond);
    UriParses(m, rest, beyond);
    var c := FRESH.(request := LineRequest(m));
    assert Parse(c, data, now, beyond) == Parse(FRESH, data, now, beyond);
  }

  /** So the deliveries that follow such an error do what they would do from the start. */
  lemma {:induction false} Recovers(m: Message, stops: seq<Stop>, o: Onward)
    requires WellFormed(m) && LineLen(m) + 1 <= |Print(m)| && Inside(m, LineLen(m) + 1, stops)
    ensures Inside(m, 0, stops)
    ensures ServeAll(FRESH.(request := LineRequest(m)), LineText(m) + "\r", Deliveries(m, LineLen(m) + 1, stops, o))
         == ServeAll(FRESH, "", Deliveries(m, 0, stops, o))
  {
    hide Serve, LineText, FieldsText, Print, Deliveries;
    CrParts(m);
    var i, rest := LineLen(m) + 1, LineText(m) + "\r";
    StopsAhead(m, i, stops);
    FieldPlaces(m);
    var a, b := Deliveries(m, i, stops, o), Deliveries(m, 0, stops, o);
    SameButFirst(m, i, stops, o);
    var data := rest + a[0].bytes;
    LineServedAgain(m, data, a[0].time, a[0].beyond);
    assert "" + b[0].bytes == b[0].bytes;
  }

  lemma {:induction false} CrParts(m: Message)
    requires WellFormed(m)
    ensures LineLen(m) + 2 <= |Print(m)| && Print(m)[..LineLen(m) + 1] == LineText(m) + "\r"
    ensures Print(m)[..LineLen(m) + 2] == LineText(m) + "\r\n"
  {
    hide LineText, FieldsText;
    PrintParts(m);
  }

  /** From byte 0 and from byte `i` the deliveries differ in the first `i` bytes alone. */
  lemma {:induction false} SameButFirst(m: Message, i: nat, stops: seq<Stop>, o: Onward)
    requires WellFormed(m) && i < |Print(m)| && Inside(m, i, stops) && i == LineLen(m) + 1
    ensures Inside(m, 0, stops)
    ensures var a, b := Deliveries(m, i, stops, o), Deliveries(m, 0, stops, o);
      && a != [] && b != [] && a[1..] == b[1..] && a[0].time == b[0].time && a[0].beyond == b[0].beyond
      && b[0].bytes == Print(m)[..i] + a[0].bytes && Print(m)[..LineLen(m) + 2] <= b[0].bytes
  {
    hide Print;
    if stops == [] {
      assert Print(m)[0..] == Print(m)[..i] + Print(m)[i..];
      assert Print(m)[0..] + o.tail == Print(m)[..i] + (Print(m)[i..] + o.tail);
    } else {
      assert Print(m)[0..stops[0].at] == Print(m)[..i] + Print(m)[i..stops[0].at];
    }
  }
}
