/** The empty line that ends too early: an LF left in the buffer is taken for its own. */
module HttpEarly {
  import opened Basics
  import opened HttpMessage
  import opened HttpParser
  import opened HttpNumbers
  import opened HttpRoundTrip
  import opened HttpSplit
  import opened HttpStream
  import opened HttpTrap
  import opened HttpStops
  import opened HttpHarm

  // ----- behind the CR: the empty line that ends too early -----

  lemma {:induction false} LfToUnclean(c: Context, rest: string, m: Message, i: nat, time: int, k: nat, now: int, beyond: char)
    requires WellFormed(m) && PastCr(c, rest, m, i, time) && i < k < HeadLen(m) && LineLen(m) + 2 <= k && !CleanCut(m, k)
    ensures k <= |Print(m)|
    ensures var s := Serve(c, rest + Print(m)[i..k], now, beyond);
      && s.outcome == Waiting && s.requests == [] && s.rest == "\n" + Print(m)[LineLen(m) + 2..k]
      && (Trapped(s.context) || (k == HeadLen(m) - 1 && s.context == Context(ParseHeaders, EndCr, HeadRequest(m, time))))
  {
    hide HeaderStep, LineText, FieldsText, HeaderMap, CleanCut;
    PrintParts(m);
    PastCrBytes(c, rest, m, i, time, k);
    var h', r' := StuckInHeaders(Start, c.request, "\n", m, k);
    assert map[] + HeaderMap(m.headers) == HeaderMap(m.headers);
  }

  /** The header section ended one byte into the buffer: all of it is still there. */
  ghost predicate Early(c: Context, rest: string, m: Message, i: nat, time: int)
    requires WellLine(m)
  {
    && HeadLen(m) <= i <= |Print(m)|
    && c == Context(RecvBody, EndLf, HeadRequest(m, time))
    && rest == Print(m)[LineLen(m) + 2..i]
    && m.verb == Post && CONTENT_LENGTH in HeaderMap(m.headers)
  }

  /** From there: the request is handed over with bytes to spare, or waits for its body with
      more to come than it wants. */
  lemma {:induction false} EarlyServe(c: Context, m: Message, k: nat, time: int, now: int, beyond: char)
    requires WellFormed(m) && HeadLen(m) <= k <= |Print(m)|
    requires c == Context(RecvBody, EndLf, HeadRequest(m, time)) && m.verb == Post && CONTENT_LENGTH in HeaderMap(m.headers)
    ensures var data := Print(m)[LineLen(m) + 2..k];
      var p := Parse(c, data, now, beyond);
      if p.context.state == Finish then p.rest != "" || k < |Print(m)|
      else p.outcome == Waiting && k < |Print(m)| && Early(p.context, p.rest, m, k, time)
  {
    hide LineText, FieldsText, HeaderMap, Stoul;
    PrintParts(m);
    LengthRead(m.verb, HeaderMap(m.headers), m.body);
    assert |Print(m)[LineLen(m) + 2..k]| == |FieldsText(m.headers)| + 2 + (k - HeadLen(m));
  }

  lemma {:induction false} FeedSome(m: Message, i: nat, stops: seq<Stop>, o: Onward)
    requires WellLine(m) && Inside(m, i, stops) && i < |Print(m)| && Nothing(o)
    ensures AllSome(Deliveries(m, i, stops, o))
    decreases |stops|
  {
    hide Print;
    if stops == [] {
      assert |Print(m)[i..]| > 0;
    } else {
      FeedSome(m, stops[0].at, stops[1..], o);
      assert |Print(m)[i..stops[0].at]| > 0;
    }
  }

  /** Not one request and an empty buffer. */
  ghost predicate Off(f: Served) { !(|f.requests| == 1 && Idle(f.context, f.rest)) }

  /** A delivery up to `k` that hands over a request and leaves bytes, there or to come. */
  lemma {:induction false} EarlyDone(c: Context, data: string, now: int, beyond: char, ds: seq<Delivery>)
    requires c.state != Finish && data != "" && AllSome(ds)
    requires var p := Parse(c, data, now, beyond); p.context.state == Finish && (p.rest != "" || ds != [])
    ensures var s := Serve(c, data, now, beyond);
      var f := ServeAll(s.context, s.rest, ds);
      if s.outcome == Crashed then Off(s) else Off(f.(requests := s.requests + f.requests))
  {
    hide Serve, Parse, Idle;
    var p := Parse(c, data, now, beyond);
    ServeComplete(c, data, now, beyond);
    var more := Serve(FRESH, p.rest, now, beyond);
    if p.rest != "" { NeverIdle(FRESH, p.rest, now, beyond); } else { ServeNothing(now, beyond); }
    if more.requests == [] && more.outcome != Crashed {
      NeverIdleAgain(more.context, more.rest, ds);
    }
  }

  lemma {:induction false} EarlyHarms(c: Context, rest: string, m: Message, i: nat, time: int, stops: seq<Stop>, o: Onward)
    requires WellFormed(m) && Early(c, rest, m, i, time) && i < |Print(m)| && Inside(m, i, stops) && Nothing(o)
    ensures Off(ServeAll(c, rest, Deliveries(m, i, stops, o)))
    decreases |stops|
  {
    hide Serve, Parse, Print, HeaderMap, FieldsText, Deliveries;
    var k := if stops == [] then |Print(m)| else stops[0].at;
    var ds := Deliveries(m, i, stops, o);
    FeedHead(m, i, stops, o);
    var data := rest + ds[0].bytes;
    assert data == Print(m)[LineLen(m) + 2..k];
    FeedSome(m, i, stops, o);
    EarlyServe(c, m, k, time, ds[0].time, ds[0].beyond);
    assert |data| > 0;
    if Parse(c, data, ds[0].time, ds[0].beyond).context.state == Finish {
      EarlyDone(c, data, ds[0].time, ds[0].beyond, ds[1..]);
    } else {
      ServeWaiting(c, data, ds[0].time, ds[0].beyond);
      var s := Serve(c, data, ds[0].time, ds[0].beyond);
      EarlyHarms(s.context, s.rest, m, k, time, stops[1..], o);
      assert s.requests + ServeAll(s.context, s.rest, ds[1..]).requests == ServeAll(s.context, s.rest, ds[1..]).requests;
    }
  }

  /** The first delivery, where nothing follows the request. */
  lemma {:induction false} FeedHead(m: Message, i: nat, stops: seq<Stop>, o: Onward)
    requires WellLine(m) && Inside(m, i, stops) && i < |Print(m)| && Nothing(o)
    ensures var ds, k := Deliveries(m, i, stops, o), if stops == [] then |Print(m)| else stops[0].at;
      && ds != [] && ds[0].bytes == Print(m)[i..k]
      && (k < |Print(m)| ==> ds[1..] == Deliveries(m, k, stops[1..], o) && ds[1..] != [])
  {
    hide Print;
    if stops == [] {
      assert Print(m)[i..] + "" == Print(m)[i..|Print(m)|];
    } else {
      assert Deliveries(m, i, stops, o)[1..] == Deliveries(m, stops[0].at, stops[1..], o);
    }
  }

  /** The LF in the buffer ends the header section, and the header lines are read as what follows. */
  lemma {:induction false} EndsAtOnce(c: Context, part: string, m: Message, k: nat, time: int, now: int, beyond: char)
    requires WellFormed(m) && HeadLen(m) <= k <= |Print(m)| && part == Print(m)[LineLen(m) + 2..k]
    requires c == Context(ParseHeaders, EndCr, HeadRequest(m, time))
    ensures var p := Parse(c, "\n" + part, now, beyond);
      if p.context.state == Finish then p.rest != "" || k < |Print(m)|
      else p.outcome == Waiting && k < |Print(m)| && Early(p.context, p.rest, m, k, time)
  {
    hide Print, HeaderMap, FieldsText, LineText, Stoul;
    var data := "\n" + part;
    assert HeaderStep(EndCr, c.request, data) == HeadersDone(EndLf, c.request, 1);
    assert data[1..] == part;
    PrintParts(m);
    FieldPlaces(m);
    assert part != "" by { assert |part| == k - LineLen(m) - 2; }
    var body := Context(RecvBody, EndLf, HeadRequest(m, time));
    assert Parse(body.(state := Analysis), part, now, beyond) == Parsed(Waiting, body.(state := Finish), part);
    if m.verb == Post && CONTENT_LENGTH in HeaderMap(m.headers) {
      EarlyServe(body, m, k, time, now, beyond);
    } else {
      assert m.verb == Post ==> Parse(body, part, now, beyond) == Parsed(Waiting, body.(state := Finish), part);
    }
  }

  lemma {:induction false} EndCrHarms(c: Context, rest: string, m: Message, time: int, stops: seq<Stop>, o: Onward)
    requires WellFormed(m) && HeadLen(m) - 1 < |Print(m)| && Inside(m, HeadLen(m) - 1, stops) && Nothing(o)
    requires c == Context(ParseHeaders, EndCr, HeadRequest(m, time))
    requires rest == "\n" + Print(m)[LineLen(m) + 2..HeadLen(m) - 1]
    ensures Off(ServeAll(c, rest, Deliveries(m, HeadLen(m) - 1, stops, o)))
  {
    hide Serve, Parse, Print, HeaderMap, FieldsText, LineText, Deliveries;
    var i := HeadLen(m) - 1;
    var k := if stops == [] then |Print(m)| else stops[0].at;
    var ds := Deliveries(m, i, stops, o);
    FeedHead(m, i, stops, o);
    FeedSome(m, i, stops, o);
    FieldPlaces(m);
    var part := Print(m)[LineLen(m) + 2..k];
    var data := rest + ds[0].bytes;
    assert data == "\n" + part;
    EndsAtOnce(c, part, m, k, time, ds[0].time, ds[0].beyond);
    if Parse(c, data, ds[0].time, ds[0].beyond).context.state == Finish {
      EarlyDone(c, data, ds[0].time, ds[0].beyond, ds[1..]);
    } else {
      ServeWaiting(c, data, ds[0].time, ds[0].beyond);
      var s := Serve(c, data, ds[0].time, ds[0].beyond);
      EarlyHarms(s.context, s.rest, m, k, time, stops[1..], o);
      assert s.requests + ServeAll(s.context, s.rest, ds[1..]).requests == ServeAll(s.context, s.rest, ds[1..]).requests;
    }
  }

  /** The same of a plain request, whatever follows it: its first field is no request line. */
  lemma {:induction false} PlainEndCrHarms(c: Context, rest: string, m: Message, time: int, o: Onward)
    requires WellFormed(m) && Plain(m) && HeadLen(m) - 1 < |Print(m)|
    requires c == Context(ParseHeaders, EndCr, HeadRequest(m, time))
    requires rest == "\n" + Print(m)[LineLen(m) + 2..HeadLen(m) - 1]
    ensures var f := ServeAll(c, rest, Deliveries(m, HeadLen(m) - 1, [], o)); |f.requests| <= 1 && !Idle(f.context, f.rest)
  {
    hide Serve, Parse, Print, HeaderMap, FieldsText, LineText, FieldText;
    var i, ds := HeadLen(m) - 1, Deliveries(m, HeadLen(m) - 1, [], o);
    PlainHead(m, o.tail);
    FieldPlaces(m);
    var part := FieldText(m.headers[0]) + PlainRest(m, o.tail);
    var data := rest + ds[0].bytes;
    assert Print(m)[LineLen(m) + 2..i] + Print(m)[i..] == Print(m)[LineLen(m) + 2..];
    assert data == "\n" + (Print(m)[LineLen(m) + 2..] + o.tail) == "\n" + part;
    BodilessEndsAtOnce(c, part, m, time, o.time, o.beyond);
    ServeComplete(c, data, o.time, o.beyond);
    var line := m.headers[0].0 + ": " + m.headers[0].1;
    PlainLine(m);
    FieldIsLine(m.headers[0], PlainRest(m, o.tail));
    NoLineServe(FRESH, line, part, o.time, o.beyond);
    var more := Serve(FRESH, part, o.time, o.beyond);
    NoLineForGood(more.context, line, part, o.more);
    assert ds[1..] == o.more;
  }

  ghost function PlainRest(m: Message, tail: string): string
    requires m.headers != [] && |FieldText(m.headers[0])| <= |FieldsText(m.headers)|
  {
    FieldsText(m.headers)[|FieldText(m.headers[0])|..] + "\r\n" + tail
  }

  lemma {:induction false} PlainHead(m: Message, tail: string)
    requires WellFormed(m) && Plain(m)
    ensures |FieldText(m.headers[0])| <= |FieldsText(m.headers)| && HeadLen(m) == |Print(m)|
    ensures Print(m)[LineLen(m) + 2..] + tail == FieldText(m.headers[0]) + PlainRest(m, tail)
  {
    hide LineText, FieldText, FieldsText;
    PrintParts(m);
    FieldsTextSplit(m.headers, 1);
    assert m.headers[..1] == [m.headers[0]];
    OneFieldText(m.headers[0]);
    assert Print(m)[LineLen(m) + 2..] == FieldsText(m.headers) + "\r\n";
  }

  lemma {:induction false} FieldIsLine(h: (string, string), rest: string)
    ensures h.0 + ": " + h.1 + "\r" <= FieldText(h) + rest
  {
    assert FieldText(h) == h.0 + ": " + h.1 + "\r" + "\n";
  }

  /** A line that begins with a name and a colon has no method. */
  lemma {:induction false} PlainLine(m: Message)
    requires WellFormed(m) && Plain(m)
    ensures var line := m.headers[0].0 + ": " + m.headers[0].1;
      Free(line, '\r') && MethodOf(line[..Find(line, ' ')]) == Invalid
  {
    var k, v := m.headers[0].0, m.headers[0].1;
    var line, word := k + ": " + v, k + ":";
    assert line == word + [' '] + v;
    FindAt(word, ' ', v);
    assert line[..|word|] == word;
    assert word[|word| - 1] == ':';
    assert forall s: string | s == "GET" || s == "POST" || s == "HEAD" || s == "PUT" || s == "DELETE" :: s[|s| - 1] != ':';
  }

  lemma {:induction false} BodilessEndsAtOnce(c: Context, part: string, m: Message, time: int, now: int, beyond: char)
    requires WellFormed(m) && m.body == "" && c == Context(ParseHeaders, EndCr, HeadRequest(m, time))
    ensures Parse(c, "\n" + part, now, beyond) == Parsed(Waiting, Complete(m, time), part)
  {
    hide HeaderMap, FieldsText, LineText, Stoul;
    var data := "\n" + part;
    assert HeaderStep(EndCr, c.request, data) == HeadersDone(EndLf, c.request, 1);
    assert data[1..] == part && part[0..] == part && part[..0] == "";
    LengthRead(m.verb, HeaderMap(m.headers), m.body);
    var body := Context(RecvBody, EndLf, HeadRequest(m, time));
    assert Parse(body.(state := Analysis), part, now, beyond) == Parsed(Waiting, body.(state := Finish), part);
    assert m.verb == Post ==> Parse(body, part, now, beyond) == Parsed(Waiting, body.(state := Finish), part);
  }

  lemma {:induction false} LfUncleanHarms(c: Context, rest: string, m: Message, i: nat, time: int, stops: seq<Stop>, o: Onward)
    requires WellFormed(m) && PastCr(c, rest, m, i, time) && Inside(m, i, stops) && stops != [] && i <= |Print(m)|
    requires LineLen(m) + 2 <= stops[0].at < HeadLen(m) && !CleanCut(m, stops[0].at)
    ensures Spoiled(m, true, stops, o, ServeAll(c, rest, Deliveries(m, i, stops, o)))
  {
    hide Serve, Print, CleanCut, HeaderMap, Deliveries, Idle, FieldsText, LineText, ServeAll;
    var k := stops[0].at;
    StopsAhead(m, i, stops);
    LfToUnclean(c, rest, m, i, time, k, stops[0].time, stops[0].beyond);
    QuietStep(c, rest, m, i, stops, o);
    FieldPlaces(m);
    var s := Serve(c, rest + Print(m)[i..k], stops[0].time, stops[0].beyond);
    if Trapped(s.context) {
      TrappedForGood(s.context, s.rest, Deliveries(m, k, stops[1..], o));
    } else if Nothing(o) {
      EndCrHarms(s.context, s.rest, m, time, stops[1..], o);
    } else if Plain(m) {
      PlainHead(m, "");
      StopsAhead(m, k, stops[1..]);
      assert stops[1..] == [];
      PlainEndCrHarms(s.context, s.rest, m, time, o);
    }
  }
}
