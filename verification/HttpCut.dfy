/** One request in any number of deliveries: the exact set of harmless cuts. */
module HttpCut {
  import opened Basics
  import opened HttpMessage
  import opened HttpParser
  import opened HttpRoundTrip
  import opened HttpSplit
  import opened HttpStream
  import opened HttpTrap
  import opened HttpStops
  import opened HttpHarm
  import opened HttpEarly

  // ----- all deliveries -----

  lemma {:induction false} LfAlone(c: Context, rest: string, m: Message, i: nat, time: int, now: int, beyond: char)
    requires WellFormed(m) && PastCr(c, rest, m, i, time) && i < LineLen(m) + 2 <= |Print(m)|
    ensures var s := Serve(c, rest + Print(m)[i..LineLen(m) + 2], now, beyond);
      s.outcome == Waiting && s.requests == [] && PastCr(s.context, s.rest, m, LineLen(m) + 2, time)
  {
    hide Serve, Print;
    PastCrBytes(c, rest, m, i, time, LineLen(m) + 2);
    assert "\n" + Print(m)[LineLen(m) + 2..LineLen(m) + 2] == "\n";
    BlankServe(c.request, "\n", now, beyond);
  }

  /** The rest of a request, from behind the CR. */
  lemma {:induction false} FedFromCr(c: Context, rest: string, m: Message, i: nat, time: int, stops: seq<Stop>, o: Onward)
    returns (stamp: int)
    requires WellFormed(m) && PastCr(c, rest, m, i, time) && Inside(m, i, stops) && i < |Print(m)|
    ensures var f := ServeAll(c, rest, Deliveries(m, i, stops, o));
      && !HasError(m, stops)
      && if SafeStops(m, true, stops) then f == Then(false, Meaning(m, stamp), ServeAll(FRESH, "", Following(o)))
         else Spoiled(m, true, stops, o, f)
    decreases |stops|
  {
    hide Serve, Print, CleanCut, HeaderMap, FieldPos, SafeStops, Resting, AtField, Spoiled, HasError, EndsEarly, Deliveries;
    stamp := time;
    if stops == [] {
      NoStops(m);
      LfThenEnd(c, rest, m, i, time, o);
    } else {
      var k, now, beyond, tail := stops[0].at, stops[0].time, stops[0].beyond, stops[1..];
      StopsAhead(m, i, stops);
      FieldPlaces(m);
      SafeNext(m, i, true, stops);
      OthersNext(m, i, true, stops);
      CutKinds(m, k);
      NoCrAhead(m, i, stops);
      if k >= HeadLen(m) {
        LfThenBody(c, rest, m, i, time, k, now, beyond);
        SafePastHead(m, k, true, tail);
        SafePastHead(m, k, false, tail);
        QuietStep(c, rest, m, i, stops, o);
        var s := Serve(c, rest + Print(m)[i..k], now, beyond);
        stamp := FedFromRest(s.context, s.rest, m, k, time, tail, o);
      } else if k == LineLen(m) + 2 {
        LfAlone(c, rest, m, i, time, now, beyond);
        QuietStep(c, rest, m, i, stops, o);
        var s := Serve(c, rest + Print(m)[i..k], now, beyond);
        stamp := FedFromCr(s.context, s.rest, m, k, time, tail, o);
        SpoiledNext(m, true, stops, tail, o, ServeAll(s.context, s.rest, Deliveries(m, k, tail, o)));
      } else if AtField(m, k) {
        FieldStopHarms(c, rest, m, i, time, stops, o);
        WrongSpoils(m, true, stops, o, ServeAll(c, rest, Deliveries(m, i, stops, o)));
      } else {
        LfUncleanHarms(c, rest, m, i, time, stops, o);
      }
    }
  }

  lemma {:induction false} NoStops(m: Message)
    requires WellLine(m)
    ensures !HasError(m, []) && SafeStops(m, true, []) && SafeStops(m, false, [])
  {}

  /** Behind the CR there is no stop at it. */
  lemma {:induction false} NoCrAhead(m: Message, i: nat, stops: seq<Stop>)
    requires WellLine(m) && Inside(m, i, stops) && i >= LineLen(m) + 1
    ensures !HasError(m, stops) && forall x | 0 <= x < |stops| :: !StaleLf(m, stops[x])
  {
    hide Print;
    StopsAhead(m, i, stops);
  }

  lemma {:induction false} SpoiledNext(m: Message, cr: bool, stops: seq<Stop>, tail: seq<Stop>, o: Onward, f: Served)
    requires WellFormed(m) && (EndsEarly(m, cr, tail) ==> EndsEarly(m, cr, stops))
    ensures Spoiled(m, cr, tail, o, f) ==> Spoiled(m, cr, stops, o, f)
  {}

  lemma {:induction false} WrongSpoils(m: Message, cr: bool, stops: seq<Stop>, o: Onward, f: Served)
    requires WellFormed(m)
    ensures f.requests == [] || f.outcome == Crashed || f.requests[0].headers != HeaderMap(m.headers) ==>
      Spoiled(m, cr, stops, o, f)
  {}

  /** A stale LF seen or yet to be seen spoils alike. */
  lemma {:induction false} SpoiledFrom(m: Message, stops: seq<Stop>, o: Onward, f: Served)
    requires WellFormed(m) && stops != [] && (EndsEarly(m, StaleLf(m, stops[0]), stops[1..]) ==> EndsEarly(m, false, stops))
    ensures Spoiled(m, StaleLf(m, stops[0]), stops[1..], o, f) ==> Spoiled(m, false, stops, o, f)
  {}

  /** Errors before and after add up. */
  lemma {:induction false} ThenWorse(q: Request, f: Served)
    ensures var g := Then(false, q, f); g.(outcome := Worse(Bad, g.outcome)) == Then(true, q, f)
  {}

  lemma {:induction false} SpoiledWorse(m: Message, cr: bool, stops: seq<Stop>, o: Onward, f: Served)
    requires WellFormed(m)
    ensures Spoiled(m, cr, stops, o, f) ==> Spoiled(m, cr, stops, o, f.(outcome := Worse(Bad, f.outcome)))
  {}

  /** The rest of a request, from a state in which the parser rests. */
  lemma {:induction false} FedFromRest(c: Context, rest: string, m: Message, i: nat, time: int, stops: seq<Stop>, o: Onward)
    returns (stamp: int)
    requires WellFormed(m) && Resting(c, rest, m, i, time) && Inside(m, i, stops) && i < |Print(m)|
    ensures c.state != Finish
    ensures var f := ServeAll(c, rest, Deliveries(m, i, stops, o));
      if SafeStops(m, false, stops) then f == Then(HasError(m, stops), Meaning(m, stamp), ServeAll(FRESH, "", Following(o)))
      else Spoiled(m, false, stops, o, f)
    decreases |stops|
  {
    hide Serve, Print, CleanCut, HeaderMap, FieldPos, SafeStops, Resting, AtField, PastCr, Spoiled, HasError, EndsEarly, Deliveries;
    if stops == [] {
      NoStops(m);
      stamp := Completes(c, rest, m, i, time, o.tail, o.time, o.beyond);
      LastStep(c, rest, m, i, o, Complete(m, stamp));
    } else {
      var k, now, beyond, tail := stops[0].at, stops[0].time, stops[0].beyond, stops[1..];
      StopsAhead(m, i, stops);
      FieldPlaces(m);
      SafeNext(m, i, false, stops);
      OthersNext(m, i, false, stops);
      CutKinds(m, k);
      if CleanCut(m, k) {
        var stamp1 := DeliveredWithin(c, rest, m, i, time, k, now, beyond);
        QuietStep(c, rest, m, i, stops, o);
        var s := Serve(c, rest + Print(m)[i..k], now, beyond);
        stamp := FedFromRest(s.context, s.rest, m, k, stamp1, tail, o);
        SpoiledFrom(m, stops, o, ServeAll(s.context, s.rest, Deliveries(m, k, tail, o)));
      } else if k == LineLen(m) + 1 {
        stamp := FedOverCr(c, rest, m, i, time, stops, o);
      } else {
        stamp := time;
        UncleanHarms(c, rest, m, i, time, stops, o);
        WrongSpoils(m, false, stops, o, ServeAll(c, rest, Deliveries(m, i, stops, o)));
      }
    }
  }

  lemma {:induction false} FedOverCr(c: Context, rest: string, m: Message, i: nat, time: int, stops: seq<Stop>, o: Onward)
    returns (stamp: int)
    requires WellFormed(m) && Resting(c, rest, m, i, time) && Inside(m, i, stops) && i < |Print(m)|
    requires stops != [] && AtCr(m, stops[0].at)
    ensures c.state != Finish
    ensures var f := ServeAll(c, rest, Deliveries(m, i, stops, o));
      if SafeStops(m, false, stops) then f == Then(HasError(m, stops), Meaning(m, stamp), ServeAll(FRESH, "", Following(o)))
      else Spoiled(m, false, stops, o, f)
    decreases |stops|, 0
  {
    hide Serve, Print, CleanCut, HeaderMap, FieldPos, SafeStops, Resting, AtField, PastCr, Spoiled, HasError, EndsEarly, Deliveries;
    var k, now, beyond, tail := stops[0].at, stops[0].time, stops[0].beyond, stops[1..];
    StopsAhead(m, i, stops);
    FieldPlaces(m);
    SafeNext(m, i, false, stops);
    OthersNext(m, i, false, stops);
    CutKinds(m, k);
    ToCr(c, rest, m, i, time, now, beyond);
    var s := Serve(c, rest + Print(m)[i..k], now, beyond);
    if beyond == '\n' {
      QuietStep(c, rest, m, i, stops, o);
      stamp := FedFromCr(s.context, s.rest, m, k, now, tail, o);
      SpoiledFrom(m, stops, o, ServeAll(s.context, s.rest, Deliveries(m, k, tail, o)));
    } else {
      FeedStep(c, rest, m, i, stops, o);
      Recovers(m, tail, o);
      FreshRests(m, now);
      stamp := FedFromRest(FRESH, "", m, 0, now, tail, o);
      var f := ServeAll(FRESH, "", Deliveries(m, 0, tail, o));
      assert s.requests + f.requests == f.requests;
      ThenWorse(Meaning(m, stamp), ServeAll(FRESH, "", Following(o)));
      SpoiledWorse(m, false, tail, o, f);
      SpoiledFrom(m, stops, o, f.(outcome := Worse(Bad, f.outcome)));
    }
  }

  // ----- one request alone -----

  /** The request is handed over once, as it was sent, and nothing is left. */
  ghost predicate Handed(m: Message, f: Served) {
    f.outcome != Crashed && Idle(f.context, f.rest) && UntimedAll(f.requests) == [Untimed(Meaning(m, 0))]
  }

  /** The exact set of harmless cuts of one request, in any number of deliveries. It is handed
      over as sent exactly if every cut is clean or behind the request line's CR, and where a stale
      LF in memory was taken for the line's end none is behind a header line. There is no error
      on the way exactly if a cut behind the CR has that LF. */
  lemma {:induction false} HarmlessCuts(m: Message, stops: seq<Stop>, time: int, beyond: char)
    requires WellFormed(m) && Inside(m, 0, stops)
    ensures var f := ServeAll(FRESH, "", Deliveries(m, 0, stops, Onward("", time, beyond, [])));
      && (Handed(m, f) <==> SafeStops(m, false, stops))
      && (Handed(m, f) ==> (f.outcome == Waiting <==> !HasError(m, stops)))
  {
    hide Print, SafeStops, HasError, Deliveries, Serve;
    FieldPlaces(m);
    FreshRests(m, 0);
    var o := Onward("", time, beyond, []);
    var stamp := FedFromRest(FRESH, "", m, 0, 0, stops, o);
    var f := ServeAll(FRESH, "", Deliveries(m, 0, stops, o));
    NothingServed(o);
    UntimedLength(f.requests);
    if SafeStops(m, false, stops) {
      UntimedFirst(Meaning(m, stamp), []);
      NoMeanings();
      assert [Untimed(Meaning(m, 0))] + [] == [Untimed(Meaning(m, 0))];
    }
  }

  lemma {:induction false} NothingServed(o: Onward)
    requires Nothing(o)
    ensures ServeAll(FRESH, "", Following(o)) == Served([], Waiting, FRESH, "")
  {
    ServeNothing(o.time, o.beyond);
    assert "" + o.tail == "" && Following(o)[1..] == [];
  }

  lemma {:induction false} UntimedLength(rs: seq<Request>)
    ensures |UntimedAll(rs)| == |rs|
    ensures rs != [] ==> UntimedAll(rs)[0] == Untimed(rs[0])
    decreases |rs|
  {
    if rs != [] { UntimedLength(rs[1..]); }
  }
}
