/** Streams of requests in any deliveries: which cuts are harmless. */
module HttpStreamCut {
  import opened Basics
  import opened HttpMessage
  import opened HttpParser
  import opened HttpRoundTrip
  import opened HttpSplit
  import opened HttpStream
  import opened HttpTrap
  import opened HttpStops
  import opened HttpHarm
  import opened HttpEarly
  import opened HttpCut

  // ----- the deliveries of the first request -----

  /** The ends of deliveries inside `m`, of which the deliveries begin with byte `i`. */
  ghost function Stopped(m: Message, i: nat, ds: seq<Delivery>): seq<Stop>
    requires WellLine(m)
    decreases |ds|
  {
    if ds == [] then []
    else
      var k := i + |ds[0].bytes|;
      if k < |Print(m)| then [Stop(k, ds[0].time, ds[0].beyond)] + Stopped(m, k, ds[1..]) else []
  }

  /** What comes with and after its last byte. */
  ghost function Beyond(m: Message, i: nat, ds: seq<Delivery>): Onward
    requires WellLine(m) && i <= |Print(m)|
    decreases |ds|
  {
    if ds == [] then Onward("", 0, ' ', [])
    else
      var k := i + |ds[0].bytes|;
      if k < |Print(m)| then Beyond(m, k, ds[1..])
      else Onward(ds[0].bytes[|Print(m)| - i..], ds[0].time, ds[0].beyond, ds[1..])
  }

  /** The deliveries of the requests that follow. */
  ghost function Others(o: Onward): seq<Delivery> { if o.tail == "" then o.more else Following(o) }

  lemma {:induction false} Splits(m: Message, i: nat, ds: seq<Delivery>)
    requires WellLine(m) && i < |Print(m)| && AllSome(ds) && Print(m)[i..] <= Joined(ds)
    ensures var stops, o := Stopped(m, i, ds), Beyond(m, i, ds);
      && Inside(m, i, stops) && Deliveries(m, i, stops, o) == ds
      && AllSome(o.more) && Joined(Following(o)) == Joined(ds)[|Print(m)| - i..]
    decreases |ds|
  {
    hide Print;
    assert |Print(m)[i..]| > 0 && ds != [];
    var d, rest := ds[0].bytes, Joined(ds[1..]);
    var k := i + |d|;
    assert Joined(ds) == d + rest;
    assert forall x | 0 <= x < |Print(m)| - i :: Print(m)[i + x] == Print(m)[i..][x] == (d + rest)[x];
    if k < |Print(m)| {
      assert d == Print(m)[i..k];
      assert Print(m)[k..] == rest[..|Print(m)| - k];
      Splits(m, k, ds[1..]);
      var stops, o := Stopped(m, i, ds), Beyond(m, i, ds);
      assert stops[1..] == Stopped(m, k, ds[1..]);
      assert ds == [ds[0]] + ds[1..];
      assert (d + rest)[|Print(m)| - i..] == rest[|Print(m)| - k..];
    } else {
      var o := Beyond(m, i, ds);
      assert d == Print(m)[i..] + o.tail;
      assert ds == [Delivery(Print(m)[i..] + o.tail, o.time, o.beyond)] + o.more;
      assert Following(o)[1..] == o.more;
      assert (d + rest)[|Print(m)| - i..] == o.tail + rest;
    }
  }

  lemma {:induction false} OthersServed(o: Onward)
    ensures ServeAll(FRESH, "", Following(o)) == ServeAll(FRESH, "", Others(o))
  {
    hide Serve;
    if o.tail == "" {
      ServeNothing(o.time, o.beyond);
      assert "" + o.tail == "" && Following(o)[1..] == o.more;
      var more := ServeAll(FRESH, "", o.more);
      assert [] + more.requests == more.requests;
    }
  }

  lemma {:induction false} OthersJoined(o: Onward)
    requires AllSome(o.more)
    ensures AllSome(Others(o)) && Joined(Others(o)) == Joined(Following(o))
    ensures Joined(Following(o)) == "" <==> Nothing(o)
  {
    assert Following(o)[1..] == o.more;
    assert Joined(Following(o)) == o.tail + Joined(o.more);
    JoinedSome(o.more);
  }

  // ----- streams -----

  /** In every request the ends of deliveries do no harm. */
  ghost predicate StreamSafe(ms: seq<Message>, ds: seq<Delivery>)
    requires AllWell(ms)
    decreases |ms|
  {
    ms == [] || (SafeStops(ms[0], false, Stopped(ms[0], 0, ds)) && StreamSafe(ms[1..], Others(Beyond(ms[0], 0, ds))))
  }

  /** In some request a delivery ends behind the CR with a byte other than LF after it. */
  ghost predicate StreamError(ms: seq<Message>, ds: seq<Delivery>)
    requires AllWell(ms)
    decreases |ms|
  {
    ms != [] && (HasError(ms[0], Stopped(ms[0], 0, ds)) || StreamError(ms[1..], Others(Beyond(ms[0], 0, ds))))
  }

  /** Some request that others follow, with a body or a space in its first field's name, has an
      end of a delivery both behind the CR with a stale LF and inside the empty line. */
  ghost predicate EarlyInside(ms: seq<Message>, ds: seq<Delivery>)
    requires AllWell(ms)
    decreases |ms|
  {
    ms != [] &&
    ((|ms| > 1 && !Plain(ms[0]) && EndsEarly(ms[0], false, Stopped(ms[0], 0, ds)))
      || EarlyInside(ms[1..], Others(Beyond(ms[0], 0, ds))))
  }

  /** The requests are handed over in order, as they were sent, and nothing is left. */
  ghost predicate AllHanded(ms: seq<Message>, f: Served) {
    f.outcome != Crashed && Idle(f.context, f.rest) && UntimedAll(f.requests) == UntimedAll(Meanings(ms, 0))
  }

  lemma {:induction false} HandedNext(ms: seq<Message>, error: bool, time: int, f: Served)
    requires ms != []
    ensures var g := Then(error, Meaning(ms[0], time), f);
      && (AllHanded(ms, g) <==> AllHanded(ms[1..], f))
      && (g.outcome == Waiting <==> f.outcome == Waiting && !error)
  {
    UntimedFirst(Meaning(ms[0], time), f.requests);
    UntimedFirst(Meaning(ms[0], 0), Meanings(ms[1..], 0));
    assert forall s, t: seq<Request>, x: Request :: [x] + s == [x] + t ==> ([x] + s)[1..] == ([x] + t)[1..];
    var x := Untimed(Meaning(ms[0], 0));
    var s, t := UntimedAll(f.requests), UntimedAll(Meanings(ms[1..], 0));
    assert ([x] + s)[1..] == s && ([x] + t)[1..] == t;
  }

  lemma {:induction false} SpoiledStream(ms: seq<Message>, stops: seq<Stop>, o: Onward, f: Served)
    requires AllWell(ms) && ms != [] && Spoiled(ms[0], false, stops, o, f)
    requires |ms| == 1 <==> Nothing(o)
    requires |ms| > 1 && !Plain(ms[0]) ==> !EndsEarly(ms[0], false, stops)
    ensures !AllHanded(ms, f)
  {
    hide HeaderMap, EndsEarly, Idle;
    UntimedLength(f.requests);
    UntimedLength(Meanings(ms, 0));
    MeaningsLength(ms);
  }

  lemma {:induction false} MeaningsLength(ms: seq<Message>)
    ensures |Meanings(ms, 0)| == |ms|
    ensures ms != [] ==> Meanings(ms, 0)[0] == Meaning(ms[0], 0)
    decreases |ms|
  {
    if ms != [] { MeaningsLength(ms[1..]); }
  }

  /** The exact set of harmless cuts of a stream of requests, in any deliveries: all requests are
      handed over in order and as sent exactly if in each of them the ends of deliveries do no
      harm, and without an error exactly if none of them is behind a CR with a byte other than LF
      after it. */
  lemma {:induction false} HarmlessStreams(ms: seq<Message>, ds: seq<Delivery>)
    requires AllWell(ms) && AllSome(ds) && Joined(ds) == PrintAll(ms) && !EarlyInside(ms, ds)
    ensures var f := ServeAll(FRESH, "", ds);
      && (AllHanded(ms, f) <==> StreamSafe(ms, ds))
      && (AllHanded(ms, f) ==> (f.outcome == Waiting <==> !StreamError(ms, ds)))
    decreases |ms|
  {
    hide Print, SafeStops, HasError, EndsEarly, Deliveries, Serve, AllHanded, Spoiled, Plain, Stopped, Beyond, ServeAll;
    if ms == [] {
      EmptyStream(ds);
    } else {
      StreamSplits(ms, ds);
      var m, stops, o := ms[0], Stopped(ms[0], 0, ds), Beyond(ms[0], 0, ds);
      FreshRests(m, 0);
      var stamp := FedFromRest(FRESH, "", m, 0, 0, stops, o);
      var f := ServeAll(FRESH, "", ds);
      if SafeStops(m, false, stops) {
        OthersServed(o);
        HarmlessStreams(ms[1..], Others(o));
        HandedNext(ms, HasError(m, stops), stamp, ServeAll(FRESH, "", Others(o)));
      } else {
        SpoiledStream(ms, stops, o, f);
      }
    }
  }

  lemma {:induction false} EmptyStream(ds: seq<Delivery>)
    requires AllSome(ds) && Joined(ds) == ""
    ensures AllHanded([], ServeAll(FRESH, "", ds)) && ServeAll(FRESH, "", ds).outcome == Waiting
  {
    JoinedSome(ds);
  }

  lemma {:induction false} JoinedSome(ds: seq<Delivery>)
    requires AllSome(ds)
    ensures Joined(ds) == "" <==> ds == []
  {
    if ds != [] { assert |Joined(ds)| == |ds[0].bytes| + |Joined(ds[1..])|; }
  }

  lemma {:induction false} StreamSplits(ms: seq<Message>, ds: seq<Delivery>)
    requires AllWell(ms) && ms != [] && AllSome(ds) && Joined(ds) == PrintAll(ms)
    ensures var m := ms[0];
      var stops, o := Stopped(m, 0, ds), Beyond(m, 0, ds);
      && WellFormed(m) && 0 < |Print(m)| && Inside(m, 0, stops) && Deliveries(m, 0, stops, o) == ds
      && AllSome(Others(o)) && Joined(Others(o)) == PrintAll(ms[1..])
      && (|ms| == 1 <==> Nothing(o))
  {
    hide Print, Stopped, Beyond, Deliveries;
    var m := ms[0];
    PrintNonEmpty(m);
    var n := |Print(m)|;
    assert PrintAll(ms) == Print(m) + PrintAll(ms[1..]);
    assert Print(m)[0..] == Print(m) <= Joined(ds);
    Splits(m, 0, ds);
    var o := Beyond(m, 0, ds);
    assert Joined(ds)[n..] == PrintAll(ms[1..]);
    OthersJoined(o);
    if |ms| > 1 {
      PrintNonEmpty(ms[1]);
      assert PrintAll(ms[1..]) == Print(ms[1]) + PrintAll(ms[1..][1..]);
    }
  }

  // ----- the case left open -----

  /** A request whose header line reads like its request line. */
  const TWIN := Message(Get, Http11, "/a:", "", [("GET /a", "HTTP/1.1")], "")

  lemma {:induction false} TwinText()
    ensures WellFormed(TWIN) && !Plain(TWIN)
    ensures LineText(TWIN) == "GET /a: HTTP/1.1"
    ensures FieldText(TWIN.headers[0]) == LineText(TWIN) + "\r\n" && FieldsText(TWIN.headers) == FieldText(TWIN.headers[0])
    ensures HeaderMap(TWIN.headers + TWIN.headers) == HeaderMap(TWIN.headers)
  {
    hide LineText, FieldText, FieldsText, HeaderMap, WellFormed;
    TwinLine();
    TwinField();
    TwinWell();
    OneFieldText(TWIN.headers[0]);
    assert TWIN.headers == [TWIN.headers[0]];
    SameTwice(TWIN.headers[0]);
    assert TWIN.headers + TWIN.headers == [TWIN.headers[0], TWIN.headers[0]];
  }

  lemma {:induction false} TwinLine()
    ensures LineText(TWIN) == "GET /a: HTTP/1.1"
  {
    assert MethodText(Get) + " " + "/a:" == "GET /a:";
    assert "GET /a:" + " " + VersionText(Http11) == "GET /a: HTTP/1.1";
  }

  lemma {:induction false} TwinField()
    ensures FieldText(TWIN.headers[0]) == "GET /a: HTTP/1.1" + "\r\n"
  {
    assert "GET /a" + ": " + "HTTP/1.1" == "GET /a: HTTP/1.1";
  }

  lemma {:induction false} TwinWell()
    ensures WellFormed(TWIN) && !Plain(TWIN)
  {
    hide HeaderMap, Stoul;
    var h := TWIN.headers[0];
    assert h.0[3] == ' ';
    assert WellKey(h.0) && WellValue(h.1);
  }

  lemma {:induction false} SameTwice(h: (string, string))
    ensures HeaderMap([h, h]) == HeaderMap([h])
  {
    assert [h][..0] == [] && [h, h][..1] == [h];
    assert HeaderMap([h]) == map[h.0 := h.1];
  }

  /** Line ends, then a header section, from the start of the header machine. */
  lemma {:induction false} HeadersAfterBlank(r: Request, hs: seq<(string, string)>)
    requires hs != [] && WellHeaders(hs)
    ensures var data := "\r\n" + (FieldsText(hs) + "\r\n");
      HeaderStep(Start, r, data) == HeadersDone(EndLf, r.(headers := r.headers + HeaderMap(hs)), |data|)
  {
    hide ScanFrom, FieldsText, HeaderMap;
    var data, j := "\r\n" + (FieldsText(hs) + "\r\n"), |FieldsText(hs)| + 2;
    var c := Cursor(Start, r, None, None, None, None);
    WalkOne(c, data, 0);
    WalkOne(c, data, 1);
    WalkOn(c, data, 0, 1, 2);
    assert data[2..j] == FieldsText(hs);
    var c1 := WalkFields(c, data, 2, hs);
    WalkOn(c, data, 0, 2, j);
    WalkThenScan(c, data, 0, j);
    ScanTerminator(c1, data, j);
  }

  /** The header line of one twin and the whole of the next are read as one request: the next. */
  lemma {:induction false} TwinsMerge(now: int, beyond: char)
    requires WellFormed(TWIN)
    ensures Parse(FRESH, FieldsText(TWIN.headers) + "\r\n" + Print(TWIN), now, beyond)
         == Parsed(Waiting, Complete(TWIN, now), "")
  {
    hide HeaderStep, LineText, FieldsText, FieldText, HeaderMap, UriStep;
    TwinText();
    PrintParts(TWIN);
    var h, line, field := TWIN.headers[0], LineText(TWIN), FieldText(TWIN.headers[0]);
    var two := TWIN.headers + TWIN.headers;
    assert FieldsText(two) == field + field by { TwoFields(h); assert two == [h, h]; }
    var tail := "\r\n" + (FieldsText(two) + "\r\n");
    assert FieldsText(TWIN.headers) + "\r\n" + Print(TWIN) == line + "\r\n" + tail;
    UriParses(TWIN, tail, beyond);
    var r := LineRequest(TWIN).(receiveTime := now);
    HeadersAfterBlank(r, two);
    assert r.headers + HeaderMap(two) == HeaderMap(TWIN.headers);
    assert tail[|tail|..] == "";
    var done := Context(Analysis, EndLf, HeadRequest(TWIN, now));
    assert Parse(done, "", now, beyond) == Parsed(Waiting, Complete(TWIN, now), "");
  }

  lemma {:induction false} TwoFields(h: (string, string))
    ensures FieldsText([h, h]) == FieldText(h) + FieldText(h)
  {
    assert [h, h][..1] == [h];
    OneFieldText(h);
  }

  /** The deliveries of two twins: one ends behind the CR with a stale LF, one inside the empty line. */
  ghost function TwinStops(): seq<Stop>
    requires WellLine(TWIN)
  {
    [Stop(LineLen(TWIN) + 1, 0, '\n'), Stop(HeadLen(TWIN) - 1, 0, ' ')]
  }

  /** Why that case is open: two twins are handed over as sent although the ends of deliveries in
      the first are not safe, for what it leaves makes up for what it takes. */
  lemma {:induction false} TwinsHanded()
    ensures WellFormed(TWIN) && Inside(TWIN, 0, TwinStops()) && !SafeStops(TWIN, false, TwinStops())
    ensures AllHanded([TWIN, TWIN], ServeAll(FRESH, "", Deliveries(TWIN, 0, TwinStops(), Onward(Print(TWIN), 0, ' ', []))))
  {
    hide Serve, Parse, Print, LineText, FieldsText, HeaderMap, ServeAll, Deliveries, CleanCut, Resting;
    TwinText();
    TwinPlaces();
    var m, o, stops := TWIN, Onward(Print(TWIN), 0, ' ', []), TwinStops();
    var rest := stops[1..];
    assert rest == [stops[1]] && rest[1..] == [];
    FreshRests(m, 0);
    ToCr(FRESH, "", m, 0, 0, 0, '\n');
    QuietStep(FRESH, "", m, 0, stops, o);
    var s := Serve(FRESH, "" + Print(m)[0..LineLen(m) + 1], 0, '\n');
    LfToUnclean(s.context, s.rest, m, LineLen(m) + 1, 0, HeadLen(m) - 1, 0, ' ');
    QuietStep(s.context, s.rest, m, LineLen(m) + 1, rest, o);
    TwinNotTrapped(s.context, s.rest);
    var s2 := Serve(s.context, s.rest + Print(m)[LineLen(m) + 1..HeadLen(m) - 1], 0, ' ');
    TwinEnds(s2.context, s2.rest, o);
  }

  lemma {:induction false} TwinPlaces()
    requires WellFormed(TWIN)
    ensures LineLen(TWIN) + 2 < HeadLen(TWIN) - 1 < |Print(TWIN)| && Inside(TWIN, 0, TwinStops())
    ensures !CleanCut(TWIN, HeadLen(TWIN) - 1) && !SafeStops(TWIN, false, TwinStops())
  {
    hide LineText, FieldsText, Print;
    PrintParts(TWIN);
    FieldPlaces(TWIN);
    var stops := TwinStops();
    assert stops[1..] == [stops[1]] && stops[1..][1..] == [];
    CutKinds(TWIN, HeadLen(TWIN) - 1);
    assert !AtCr(TWIN, stops[1].at);
  }

  /** Behind the stale LF all of the header line is entered, and the machine wants the last LF. */
  lemma {:induction false} TwinNotTrapped(c: Context, rest: string)
    requires WellFormed(TWIN) && PastCr(c, rest, TWIN, LineLen(TWIN) + 1, 0)
    ensures LineLen(TWIN) + 1 < HeadLen(TWIN) - 1 <= |Print(TWIN)|
    ensures !Trapped(Serve(c, rest + Print(TWIN)[LineLen(TWIN) + 1..HeadLen(TWIN) - 1], 0, ' ').context)
  {
    hide OnChar, LineText, HeaderMap, FieldsText;
    var m := TWIN;
    PrintParts(m);
    FieldPlaces(m);
    var k := HeadLen(m) - 1;
    PastCrBytes(c, rest, m, LineLen(m) + 1, 0, k);
    EndCut(m);
    var part := Print(m)[LineLen(m) + 2..k];
    var data, cur := "\n" + part, Cursor(Start, c.request, None, None, None, None);
    var p := |FieldsText(m.headers)| + 1;
    SkipsLf(cur, "\n", part);
    assert data[1..p] == part[..p - 1];
    var c1 := WalkFields(cur, data, 1, m.headers);
    WalkOn(cur, data, 0, 1, p);
    WalkOn(cur, data, 0, p, |data|);
    assert data[p..] == part[p - 1..];
    StopsBeforeEnd(c1, data, p);
    WalkThenScan(cur, data, 0, |data|);
  }

  lemma {:induction false} TwinEnds(c: Context, rest: string, o: Onward)
    requires WellFormed(TWIN) && LineLen(TWIN) + 2 < HeadLen(TWIN) - 1 < |Print(TWIN)|
    requires c == Context(ParseHeaders, EndCr, HeadRequest(TWIN, 0)) && o == Onward(Print(TWIN), 0, ' ', [])
    requires rest == "\n" + Print(TWIN)[LineLen(TWIN) + 2..HeadLen(TWIN) - 1]
    ensures AllHanded([TWIN, TWIN], ServeAll(c, rest, Deliveries(TWIN, HeadLen(TWIN) - 1, [], o)))
  {
    hide Serve, Parse, LineText, FieldsText, HeaderMap, Print;
    var m, i := TWIN, HeadLen(TWIN) - 1;
    HeadBytes(m);
    var part := FieldsText(m.headers) + "\r\n" + Print(m);
    var ds := Deliveries(m, i, [], o);
    var data := rest + ds[0].bytes;
    CutApart(Print(m), LineLen(m) + 2, i, Print(m));
    assert data == "\n" + part;
    BodilessEndsAtOnce(c, part, m, 0, 0, ' ');
    TwinsMerge(0, ' ');
    TwoDone(c, data, part, Complete(m, 0));
    OneDelivery(c, rest, ds, Serve(c, data, 0, ' '));
    TwoMeanings(m);
  }

  lemma {:induction false} HeadBytes(m: Message)
    requires WellFormed(m) && m.body == ""
    ensures LineLen(m) + 2 <= |Print(m)| && Print(m)[LineLen(m) + 2..] == FieldsText(m.headers) + "\r\n"
  {
    hide LineText, FieldsText;
    PrintParts(m);
  }

  lemma {:induction false} CutApart(s: string, a: nat, i: nat, t: string)
    requires a <= i <= |s|
    ensures "\n" + s[a..i] + (s[i..] + t) == "\n" + (s[a..] + t)
  {}

  lemma {:induction false} TwoDone(c: Context, data: string, part: string, q: Context)
    requires c.state != Finish && data != "" && part != "" && q.state == Finish
    requires Parse(c, data, 0, ' ') == Parsed(Waiting, q, part) && Parse(FRESH, part, 0, ' ') == Parsed(Waiting, q, "")
    ensures Serve(c, data, 0, ' ') == Served([q.request, q.request], Waiting, FRESH, "")
  {
    hide Serve, Parse;
    ServeComplete(c, data, 0, ' ');
    ServeComplete(FRESH, part, 0, ' ');
    ServeNothing(0, ' ');
  }

  lemma {:induction false} OneDelivery(c: Context, rest: string, ds: seq<Delivery>, s: Served)
    requires |ds| == 1 && c.state != Finish && s == Serve(c, rest + ds[0].bytes, ds[0].time, ds[0].beyond)
    requires s.outcome == Waiting
    ensures ServeAll(c, rest, ds) == s
  {
    hide Serve;
    assert ds[1..] == [] && s.requests + [] == s.requests;
  }

  lemma {:induction false} TwoMeanings(m: Message)
    ensures Meanings([m, m], 0) == [Meaning(m, 0), Meaning(m, 0)]
  {
    assert [m, m][1..] == [m] && [m][1..] == [];
    assert Meanings([m], 0) == [Meaning(m, 0)];
  }
}
