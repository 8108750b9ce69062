/** Streams of requests cut into deliveries at clean points. */
module HttpStream {
  import opened HttpMessage
  import opened HttpParser
  import opened HttpRoundTrip
  import opened HttpSplit

  /** A request without its time of arrival. */
  ghost function Untimed(r: Request): Request { r.(receiveTime := 0) }

  ghost function UntimedAll(rs: seq<Request>): seq<Request> {
    if rs == [] then [] else [Untimed(rs[0])] + UntimedAll(rs[1..])
  }

  lemma {:induction false} UntimedConcat(a: seq<Request>, b: seq<Request>)
    ensures UntimedAll(a + b) == UntimedAll(a) + UntimedAll(b)
  {
    if a == [] {
      assert a + b == b;
    } else {
      assert (a + b)[1..] == a[1..] + b;
      UntimedConcat(a[1..], b);
    }
  }

  lemma {:induction false} UntimedMeanings(ms: seq<Message>, t: int, u: int)
    ensures UntimedAll(Meanings(ms, t)) == UntimedAll(Meanings(ms, u))
    decreases |ms|
  {
    if ms != [] {
      UntimedMeanings(ms[1..], t, u);
      assert forall x :: ([Meaning(ms[0], x)] + Meanings(ms[1..], x))[1..] == Meanings(ms[1..], x);
    }
  }

  lemma {:induction false} MeaningsConcat(a: seq<Message>, b: seq<Message>, t: int)
    ensures Meanings(a + b, t) == Meanings(a, t) + Meanings(b, t)
    decreases |a|
  {
    if a == [] {
      assert a + b == b;
    } else {
      assert (a + b)[1..] == a[1..] + b;
      MeaningsConcat(a[1..], b, t);
    }
  }

  // ----- positions in a stream -----

  /** Byte `i` of request `a`; the end of the stream is byte 0 after the last request. */
  ghost predicate Position(ms: seq<Message>, a: nat, i: nat)
    requires AllWell(ms)
  {
    if a < |ms| then i < |Print(ms[a])| && CleanCut(ms[a], i) else a == |ms| && i == 0
  }

  ghost predicate Before(a: nat, i: nat, b: nat, k: nat) { a < b || (a == b && i <= k) }

  /** The bytes from one position to a later one. */
  ghost function Between(ms: seq<Message>, a: nat, i: nat, b: nat, k: nat): string
    requires AllWell(ms) && Position(ms, a, i) && Position(ms, b, k) && Before(a, i, b, k)
  {
    if a == b then (if a == |ms| then "" else Print(ms[a])[i..k])
    else Print(ms[a])[i..] + PrintAll(ms[a + 1..b]) + (if b == |ms| then "" else Print(ms[b])[..k])
  }

  /** The parser waits at a position. */
  ghost predicate Waits(c: Context, rest: string, ms: seq<Message>, a: nat, i: nat)
    requires AllWell(ms) && Position(ms, a, i)
  {
    if a == |ms| then c == FRESH && rest == "" else exists time :: Resting(c, rest, ms[a], i, time)
  }

  lemma {:induction false} ServeWaiting(c: Context, data: string, now: int, beyond: char)
    requires c.state != Finish && Parse(c, data, now, beyond).context.state != Finish
    ensures var p := Parse(c, data, now, beyond);
      Serve(c, data, now, beyond) == if data == "" then Served([], Waiting, c, "") else Served([], p.outcome, p.context, p.rest)
  {}

  lemma {:induction false} ServeComplete(c: Context, data: string, now: int, beyond: char)
    requires c.state != Finish && data != "" && Parse(c, data, now, beyond).context.state == Finish
    ensures var p := Parse(c, data, now, beyond);
      var more := Serve(FRESH, p.rest, now, beyond);
      Serve(c, data, now, beyond) == more.(requests := [p.context.request] + more.requests)
  {}

  /** A delivery that stays inside one request. */
  lemma {:induction false} DeliveredWithin(c: Context, rest: string, m: Message, i: nat, time: int, k: nat, now: int, beyond: char)
    returns (stamp: int)
    requires WellFormed(m) && i <= k < |Print(m)| && Resting(c, rest, m, i, time) && CleanCut(m, k)
    ensures c.state != Finish
    ensures var s := Serve(c, rest + Print(m)[i..k], now, beyond);
      s.outcome == Waiting && s.requests == [] && Resting(s.context, s.rest, m, k, stamp)
  {
    hide Parse, Serve, Resting, CleanCut, Print;
    stamp := Advances(c, rest, m, i, time, k, now, beyond);
    var data := rest + Print(m)[i..k];
    ServeWaiting(c, data, now, beyond);
    if data == "" {
      stamp := time;
      assert |Print(m)[i..k]| == 0;
    }
  }

  lemma {:induction false} RestingInside(c: Context, rest: string, m: Message, i: nat, time: int)
    requires WellFormed(m) && i < |Print(m)|
    ensures rest + Print(m)[i..] != ""
  {
    assert |Print(m)[i..]| > 0;
  }

  lemma {:induction false} FreshRests(m: Message, time: int)
    requires WellFormed(m)
    ensures Resting(FRESH, "", m, 0, time)
  {
    assert Print(m)[..0] == "";
  }

  /** The part of a delivery that follows the request it completes. */
  lemma {:induction false} DeliveredAfter(ms: seq<Message>, a: nat, b: nat, k: nat, now: int, beyond: char)
    requires AllWell(ms) && a <= b <= |ms| && Position(ms, b, k)
    ensures AllWell(ms[a..b])
    ensures var s := Serve(FRESH, PrintAll(ms[a..b]) + (if b == |ms| then "" else Print(ms[b])[..k]), now, beyond);
      s.outcome == Waiting && s.requests == Meanings(ms[a..b], now) && Waits(s.context, s.rest, ms, b, k)
  {
    hide Parse, Serve, Resting, CleanCut, Print, PrintAll, Meanings;
    if b == |ms| {
      PipelineServed(ms[a..b], "", now, beyond);
      ServeNothing(now, beyond);
    } else {
      var tail := Print(ms[b])[..k];
      PipelineServed(ms[a..b], tail, now, beyond);
      FreshRests(ms[b], now);
      var stamp := DeliveredWithin(FRESH, "", ms[b], 0, now, k, now, beyond);
      assert "" + Print(ms[b])[0..k] == tail;
    }
  }

  lemma {:induction false} ServeNothing(now: int, beyond: char)
    ensures Serve(FRESH, "", now, beyond) == Served([], Waiting, FRESH, "")
  {}

  /** A delivery that completes the request the parser is in. */
  lemma {:induction false} DeliveredPast(c: Context, rest: string, ms: seq<Message>, a: nat, i: nat, time: int, b: nat, k: nat, now: int, beyond: char)
    requires AllWell(ms) && a < b && Position(ms, a, i) && Position(ms, b, k) && Resting(c, rest, ms[a], i, time)
    ensures c.state != Finish
    ensures var s := Serve(c, rest + Between(ms, a, i, b, k), now, beyond);
      && s.outcome == Waiting && Waits(s.context, s.rest, ms, b, k)
      && UntimedAll(s.requests) == UntimedAll(Meanings(ms[a..b], 0))
  {
    hide Parse, Serve, Resting, CleanCut, Print, PrintAll, Waits, WellBody, WellHeaders, HeaderMap;
    var tail := PrintAll(ms[a + 1..b]) + (if b == |ms| then "" else Print(ms[b])[..k]);
    var data := rest + Between(ms, a, i, b, k);
    assert data == rest + Print(ms[a])[i..] + tail;
    var stamp := Completes(c, rest, ms[a], i, time, tail, now, beyond);
    RestingInside(c, rest, ms[a], i, time);
    ServeComplete(c, data, now, beyond);
    DeliveredAfter(ms, a + 1, b, k, now, beyond);
    var first, more := Meaning(ms[a], stamp), Meanings(ms[a + 1..b], now);
    UntimedFirst(first, more);
    UntimedFirst(Meaning(ms[a], 0), Meanings(ms[a + 1..b], 0));
    UntimedMeanings(ms[a + 1..b], now, 0);
    assert ms[a..b][0] == ms[a] && ms[a..b][1..] == ms[a + 1..b];
  }

  lemma {:induction false} UntimedFirst(r: Request, rs: seq<Request>)
    ensures UntimedAll([r] + rs) == [Untimed(r)] + UntimedAll(rs)
  {
    assert ([r] + rs)[1..] == rs;
  }

  /** One delivery, from a position to a later one. */
  lemma {:induction false} Delivered(c: Context, rest: string, ms: seq<Message>, a: nat, i: nat, b: nat, k: nat, now: int, beyond: char)
    requires AllWell(ms) && Position(ms, a, i) && Position(ms, b, k) && Before(a, i, b, k)
    requires Waits(c, rest, ms, a, i)
    ensures c.state != Finish
    ensures var s := Serve(c, rest + Between(ms, a, i, b, k), now, beyond);
      && s.outcome == Waiting && Waits(s.context, s.rest, ms, b, k)
      && UntimedAll(s.requests) == UntimedAll(Meanings(ms[a..b], 0))
  {
    hide Parse, Serve, Resting, CleanCut, Print, PrintAll, WellFormed;
    if a == |ms| {
      ServeNothing(now, beyond);
      assert rest + Between(ms, a, i, b, k) == "";
      assert ms[a..b] == [];
    } else {
      var time :| Resting(c, rest, ms[a], i, time);
      if a == b {
        var stamp := DeliveredWithin(c, rest, ms[a], i, time, k, now, beyond);
        assert ms[a..b] == [];
      } else {
        DeliveredPast(c, rest, ms, a, i, time, b, k, now, beyond);
      }
    }
  }

  // ----- any number of deliveries -----

  /** A delivery that ends at byte `off` of request `at`. */
  datatype Cut = Cut(at: nat, off: nat, time: int, beyond: char)

  ghost predicate GoodCuts(ms: seq<Message>, a: nat, i: nat, cuts: seq<Cut>)
    requires AllWell(ms)
    decreases |cuts|
  {
    && Position(ms, a, i)
    && (cuts == [] ||
        (Position(ms, cuts[0].at, cuts[0].off) && Before(a, i, cuts[0].at, cuts[0].off) &&
         GoodCuts(ms, cuts[0].at, cuts[0].off, cuts[1..])))
  }

  /** onMessage called once per delivery; it stops where a delivery is answered with an error. */
  ghost function Feed(c: Context, rest: string, ms: seq<Message>, a: nat, i: nat, cuts: seq<Cut>): Served
    requires AllWell(ms) && GoodCuts(ms, a, i, cuts) && c.state != Finish
    decreases |cuts|
  {
    if cuts == [] then Served([], Waiting, c, rest)
    else
      var s := Serve(c, rest + Between(ms, a, i, cuts[0].at, cuts[0].off), cuts[0].time, cuts[0].beyond);
      if s.outcome != Waiting then s
      else
        var more := Feed(s.context, s.rest, ms, cuts[0].at, cuts[0].off, cuts[1..]);
        more.(requests := s.requests + more.requests)
  }

  ghost function EndAt(a: nat, cuts: seq<Cut>): nat { if cuts == [] then a else cuts[|cuts| - 1].at }

  lemma {:induction false} CutsForward(ms: seq<Message>, a: nat, i: nat, cuts: seq<Cut>)
    requires AllWell(ms) && GoodCuts(ms, a, i, cuts)
    ensures a <= EndAt(a, cuts) <= |ms|
    decreases |cuts|
  {
    if cuts != [] {
      CutsForward(ms, cuts[0].at, cuts[0].off, cuts[1..]);
      assert cuts[1..] != [] ==> cuts[1..][|cuts| - 2] == cuts[|cuts| - 1];
    }
  }

  lemma {:induction false} FedFrom(c: Context, rest: string, ms: seq<Message>, a: nat, i: nat, cuts: seq<Cut>)
    requires AllWell(ms) && GoodCuts(ms, a, i, cuts) && Waits(c, rest, ms, a, i)
    ensures c.state != Finish && a <= EndAt(a, cuts) <= |ms|
    ensures var f := Feed(c, rest, ms, a, i, cuts);
      && f.outcome == Waiting
      && UntimedAll(f.requests) == UntimedAll(Meanings(ms[a..EndAt(a, cuts)], 0))
      && (EndAt(a, cuts) == |ms| ==> f.context == FRESH && f.rest == "")
    decreases |cuts|
  {
    hide Serve, Resting, CleanCut, Print, PrintAll, Between, Meanings, UntimedAll, WellFormed;
    CutsForward(ms, a, i, cuts);
    if cuts == [] {
      assert c.state != Finish by { Delivered(c, rest, ms, a, i, a, i, 0, '\n'); }
      assert ms[a..a] == [];
      NoMeanings();
    } else {
      var b, k := cuts[0].at, cuts[0].off;
      Delivered(c, rest, ms, a, i, b, k, cuts[0].time, cuts[0].beyond);
      var s := Serve(c, rest + Between(ms, a, i, b, k), cuts[0].time, cuts[0].beyond);
      CutsForward(ms, b, k, cuts[1..]);
      FedFrom(s.context, s.rest, ms, b, k, cuts[1..]);
      var e := EndAt(b, cuts[1..]);
      assert e == EndAt(a, cuts) by { assert cuts[1..] != [] ==> cuts[1..][|cuts| - 2] == cuts[|cuts| - 1]; }
      var more := Feed(s.context, s.rest, ms, b, k, cuts[1..]);
      UntimedConcat(s.requests, more.requests);
      assert ms[a..e] == ms[a..b] + ms[b..e];
      MeaningsConcat(ms[a..b], ms[b..e], 0);
      UntimedConcat(Meanings(ms[a..b], 0), Meanings(ms[b..e], 0));
    }
  }

  lemma {:induction false} NoMeanings()
    ensures Meanings([], 0) == [] && UntimedAll([]) == []
  {}

  /** However a stream of requests is cut at clean points, the server gets the same requests
      as from a single delivery, and nothing is left over. */
  lemma {:induction false} SegmentationTransparent(ms: seq<Message>, cuts: seq<Cut>, now: int, beyond: char)
    requires AllWell(ms) && ms != [] && GoodCuts(ms, 0, 0, cuts) && EndAt(0, cuts) == |ms|
    ensures var f, whole := Feed(FRESH, "", ms, 0, 0, cuts), Serve(FRESH, PrintAll(ms), now, beyond);
      f == whole.(requests := f.requests) && UntimedAll(f.requests) == UntimedAll(whole.requests)
  {
    hide Serve, Resting, CleanCut, Print, PrintAll, Between, Meanings, UntimedAll, Feed, GoodCuts;
    FreshRests(ms[0], now);
    FedFrom(FRESH, "", ms, 0, 0, cuts);
    PipelineEmpties(ms, now, beyond);
    UntimedMeanings(ms, now, 0);
    assert ms[0..|ms|] == ms;
  }
}
