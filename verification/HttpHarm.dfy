/** Deliveries that end inside the header section and cost the request, or leave an LF that does. */
module HttpHarm {
  import opened Basics
  import opened HttpMessage
  import opened HttpParser
  import opened HttpRoundTrip
  import opened HttpSplit
  import opened HttpStream
  import opened HttpTrap
  import opened HttpStops

  // ----- deliveries that end inside the header section -----

  /** The characters `p..` of `data` are the beginning of a header line. */
  ghost predicate PartOfField(data: string, p: nat, k: string, v: string) {
    && p < |data| && |data| - p < |FieldText((k, v))|
    && data[p..] == FieldText((k, v))[..|data| - p]
  }

  lemma {:induction false} PartChars(data: string, p: nat, k: string, v: string)
    requires PartOfField(data, p, k, v) && WellKey(k) && WellValue(v)
    ensures forall x :: p <= x < |data| && x < p + |k| ==> data[x] != ':' && data[x] != '\r' && data[x] != '\n'
    ensures p + |k| < |data| ==> data[p + |k|] == ':'
    ensures p + |k| + 1 < |data| ==> data[p + |k| + 1] == ' '
    ensures forall x :: p + |k| + 2 <= x < |data| && x < p + |k| + 2 + |v| ==> data[x] != '\r' && data[x] != '\n'
    ensures p + |k| + 2 + |v| < |data| ==> data[p + |k| + 2 + |v|] == '\r' && |data| == p + |k| + |v| + 3
  {
    var full := data[..p] + FieldText((k, v));
    assert full[p..] == FieldText((k, v));
    FieldChars(full, p, k, v);
    assert forall x :: p <= x < |data| ==> data[x] == data[p..][x - p] == FieldText((k, v))[x - p] == full[x];
  }

  /** A delivery that ends inside a header line leaves the machine inside it. */
  lemma {:induction false} StopsInside(c: Cursor, data: string, p: nat, k: string, v: string) returns (c': Cursor)
    requires PartOfField(data, p, k, v) && WellKey(k) && WellValue(v) && (c.h == Start || c.h == Lf)
    ensures Walk(c, data, p, |data|) == Some(c') && InLine(c'.h)
  {
    PartChars(data, p, k, v);
    var n, e := |data|, p + |k|;
    WalkOne(c, data, p);
    WalkOn(c, data, p, p + 1, n);
    var c1 := KeyCursor(c, p);
    if n <= e {
      WalkKey(c1, data, p + 1, n);
      c' := c1;
    } else {
      WalkKey(c1, data, p + 1, e);
      WalkOn(c1, data, p + 1, e, n);
      WalkOne(c1, data, e);
      WalkOn(c1, data, e, e + 1, n);
      var c2 := c1.(h := Colon, keyEnd := Some(e));
      c' := c2;
      if n > e + 1 {
        WalkOne(c2, data, e + 1);
        WalkOn(c2, data, e + 1, e + 2, n);
        c' := c2.(h := Spaces);
        if n > e + 2 { c' := StopsInValue(c', data, e + 2, v); }
      }
    }
  }

  lemma {:induction false} StopsInValue(c: Cursor, data: string, s: nat, v: string) returns (c': Cursor)
    requires s < |data| && c.h == Spaces
    requires forall x :: s <= x < |data| && x < s + |v| ==> data[x] != '\r' && data[x] != '\n'
    requires s + |v| < |data| ==> data[s + |v|] == '\r' && |data| == s + |v| + 1
    ensures Walk(c, data, s, |data|) == Some(c') && InLine(c'.h)
  {
    var n := |data|;
    WalkOne(c, data, s);
    WalkOn(c, data, s, s + 1, n);
    var c1 := c.(h := Value, valStart := Some(s));
    if n <= s + |v| {
      WalkValue(c1, data, s + 1, n);
      c' := c1;
    } else if v == "" {
      c' := c1;
    } else {
      WalkValue(c1, data, s + 1, s + |v|);
      WalkOn(c1, data, s + 1, s + |v|, n);
      WalkOne(c1, data, s + |v|);
      c' := c1.(h := Cr, valEnd := Some(s + |v|));
    }
  }

  /** Where a cut inside the header section falls: after `j` whole lines, inside the next
      line or between the CR and LF of the empty line. */
  lemma {:induction false} Located(m: Message, i: nat) returns (j: nat)
    requires WellFormed(m) && LineLen(m) + 2 <= i < HeadLen(m) && !CleanCut(m, i)
    ensures j <= |m.headers| && FieldPos(m, j) < i
    ensures j < |m.headers| ==> i < FieldPos(m, j + 1)
  {
    hide LineText, FieldsText, Print, WellHeaders, WellBody;
    j := 0;
    FieldPlaces(m);
    while j < |m.headers| && FieldPos(m, j + 1) < i
      invariant j <= |m.headers| && FieldPos(m, j) <= i
    {
      j := j + 1;
    }
    assert i != FieldPos(m, j);
    if j < |m.headers| { assert i != FieldPos(m, j + 1); }
  }

  /** The header bytes of a delivery that stops inside line `j`. */
  lemma {:induction false} LineCut(m: Message, i: nat, j: nat)
    requires WellFormed(m) && j < |m.headers| && FieldPos(m, j) < i < FieldPos(m, j + 1)
    ensures i <= |Print(m)|
    ensures var data, p := Print(m)[LineLen(m) + 2..i], |FieldsText(m.headers[..j])|;
      p < |data| && data[..p] == FieldsText(m.headers[..j]) && PartOfField(data, p, m.headers[j].0, m.headers[j].1)
  {
    hide LineText, Print, FieldText, HeaderMap;
    FieldCut(m, j);
    FieldCut(m, j + 1);
    PrintParts(m);
    var data, p := Print(m)[LineLen(m) + 2..i], |FieldsText(m.headers[..j])|;
    assert m.headers[..j + 1][..j] == m.headers[..j];
    var f := FieldText(m.headers[j]);
    var upTo := FieldsText(m.headers[..j]) + f;
    assert FieldsText(m.headers[..j + 1]) == upTo;
    assert Print(m)[LineLen(m) + 2..FieldPos(m, j + 1)] == Print(m)[..FieldPos(m, j + 1)][LineLen(m) + 2..] == upTo;
    assert data == upTo[..i - LineLen(m) - 2];
    assert data[p..] == f[..|data| - p];
  }

  /** The header bytes of a delivery that stops between the last CR and LF. */
  lemma {:induction false} EndCut(m: Message)
    requires WellFormed(m)
    ensures HeadLen(m) - 1 <= |Print(m)|
    ensures var data, p := Print(m)[LineLen(m) + 2..HeadLen(m) - 1], |FieldsText(m.headers)|;
      p < |data| && data[..p] == FieldsText(m.headers) && data[p..] == "\r"
  {
    hide LineText, FieldsText;
    PrintParts(m);
    var data := Print(m)[LineLen(m) + 2..HeadLen(m) - 1];
    assert data == FieldsText(m.headers) + "\r";
  }

  lemma {:induction false} StopsBeforeEnd(c: Cursor, data: string, p: nat)
    requires p < |data| && data[p..] == "\r" && c.h == Lf
    ensures Walk(c, data, p, |data|) == Some(c.(h := EndCr))
  {
    assert |data| == p + 1 && data[p] == data[p..][0] == '\r';
    WalkOne(c, data, p);
  }

  /** Header bytes that stop at an unclean cut, behind an LF or not: the machine waits inside a
      line, or between CR and LF of the empty line with all fields entered. */
  lemma {:induction false} StuckInHeaders(h: HState, r: Request, pre: string, m: Message, i: nat) returns (h': HState, r': Request)
    requires WellFormed(m) && LineLen(m) + 2 <= i < HeadLen(m) && !CleanCut(m, i)
    requires (pre == "" && (h == Start || h == Lf)) || (pre == "\n" && h == Start)
    ensures i <= |Print(m)| && HeaderStep(h, r, pre + Print(m)[LineLen(m) + 2..i]) == HeadersAgain(h', r')
    ensures InLine(h') || (h' == EndCr && i == HeadLen(m) - 1 && r' == r.(headers := r.headers + HeaderMap(m.headers)))
  {
    hide OnChar, LineText, HeaderMap, FieldsText, CleanCut, Print, FieldText, WellKey, WellValue;
    var j := Located(m, i);
    if j < |m.headers| {
      LineCut(m, i, j);
    } else {
      assert m.headers[..j] == m.headers;
      BeforeEnd(m, i);
      EndCut(m);
    }
    var part, p := Print(m)[LineLen(m) + 2..i], |FieldsText(m.headers[..j])|;
    var data, q := pre + part, |pre| + p;
    var c := Cursor(h, r, None, None, None, None);
    SkipsLf(c, pre, part);
    assert data[|pre|..q] == part[..p];
    var c1 := WalkFields(c, data, |pre|, m.headers[..j]);
    WalkOn(c, data, 0, |pre|, q);
    WalkOn(c, data, 0, q, |data|);
    assert data[q..] == part[p..];
    if j < |m.headers| {
      var c2 := StopsInside(c1, data, q, m.headers[j].0, m.headers[j].1);
      h', r' := c2.h, c2.request;
    } else {
      StopsBeforeEnd(c1, data, q);
      h', r' := EndCr, c1.request;
    }
    WalkThenScan(c, data, 0, |data|);
  }

  lemma {:induction false} SkipsLf(c: Cursor, pre: string, part: string)
    requires pre == "" || (pre == "\n" && c.h == Start)
    ensures Walk(c, pre + part, 0, |pre|) == Some(c)
  {
    if pre != "" { WalkOne(c, pre + part, 0); }
  }

  lemma {:induction false} BeforeEnd(m: Message, i: nat)
    requires WellFormed(m) && FieldPos(m, |m.headers|) < i < HeadLen(m)
    ensures i == HeadLen(m) - 1
  {
    assert m.headers[..|m.headers|] == m.headers;
  }

  lemma {:induction false} FirstField(hs: seq<(string, string)>, tail: string)
    requires hs != []
    ensures FieldAt(FieldsText(hs) + tail, 0, hs[0].0, hs[0].1)
  {
    FieldsTextSplit(hs, 1);
    assert hs[..1][..0] == [];
    assert FieldsText(hs[..1]) == "" + FieldText(hs[0]);
  }

  /** The first byte of the header section is no LF. */
  lemma {:induction false} FirstByte(m: Message, k: nat)
    requires WellFormed(m) && LineLen(m) + 2 < k <= |Print(m)|
    ensures Print(m)[LineLen(m) + 2..k][0] != '\n'
  {
    hide LineText, FieldsText;
    PrintParts(m);
    var rest := "\r\n" + m.body;
    FirstField(m.headers, rest);
    FieldChars(FieldsText(m.headers) + rest, 0, m.headers[0].0, m.headers[0].1);
    assert Print(m)[LineLen(m) + 2..k][0] == Print(m)[LineLen(m) + 2] == (FieldsText(m.headers) + rest)[0];
  }

  /** From a resting state into the header section, to an unclean cut. */
  lemma {:induction false} RestToUnclean(c: Context, rest: string, m: Message, i: nat, time: int, k: nat, now: int, beyond: char)
    requires WellFormed(m) && Resting(c, rest, m, i, time) && i < k < HeadLen(m) && LineLen(m) + 2 <= k && !CleanCut(m, k)
    ensures k <= |Print(m)| && c.state != Finish
    ensures var s := Serve(c, rest + Print(m)[i..k], now, beyond);
      && s.outcome == Waiting && s.requests == [] && s.rest == Print(m)[LineLen(m) + 2..k]
      && s.context.state == ParseHeaders && (InLine(s.context.hState) || s.context.hState == EndCr)
  {
    hide UriStep, LineText, LineStep, HeaderMap, FieldsText, CleanCut, HeaderStep, Stoul;
    PrintParts(m);
    var data := Print(m)[LineLen(m) + 2..k];
    if i <= LineLen(m) && c == FRESH && rest == Print(m)[..i] {
      assert rest + Print(m)[i..k] == Print(m)[..k] == LineText(m) + "\r\n" + data;
      UriParses(m, data, beyond);
      var r := LineRequest(m).(receiveTime := now);
      var h', r' := StuckInHeaders(Start, r, "", m, k);
      assert "" + data == data;
    } else {
      var j :| 0 <= j <= |m.headers| && InHeaders(c, rest, m, i, time, j);
      FieldCut(m, j);
      assert rest + Print(m)[i..k] == data;
      var h', r' := StuckInHeaders(c.hState, c.request, "", m, k);
      assert "" + data == data;
    }
  }

  lemma {:induction false} UncleanHarms(c: Context, rest: string, m: Message, i: nat, time: int, stops: seq<Stop>, o: Onward)
    requires WellFormed(m) && Resting(c, rest, m, i, time) && Inside(m, i, stops) && stops != [] && i <= |Print(m)|
    requires LineLen(m) + 2 <= stops[0].at < HeadLen(m) && !CleanCut(m, stops[0].at)
    ensures c.state != Finish && ServeAll(c, rest, Deliveries(m, i, stops, o)).requests == []
  {
    hide Serve, Print, CleanCut, Resting, HeaderMap, Deliveries;
    var k := stops[0].at;
    StopsAhead(m, i, stops);
    RestToUnclean(c, rest, m, i, time, k, stops[0].time, stops[0].beyond);
    QuietStep(c, rest, m, i, stops, o);
    var s := Serve(c, rest + Print(m)[i..k], stops[0].time, stops[0].beyond);
    var ds := Deliveries(m, k, stops[1..], o);
    if InLine(s.context.hState) {
      TrappedForGood(s.context, s.rest, ds);
    } else {
      CutKinds(m, k);
      FirstByte(m, k);
      StuckForGood(s.context, s.rest, ds);
    }
  }

  // ----- behind the CR: the LF that stays in the buffer -----

  /** A name with an LF in front, entered when the first field is read again. */
  ghost function Ghostly(m: Message): string
    requires m.headers != []
  {
    "\n" + m.headers[0].0
  }

  lemma {:induction false} NotSent(m: Message)
    requires WellFormed(m)
    ensures Ghostly(m) !in HeaderMap(m.headers)
  {
    KeysWell(m.headers);
    assert Ghostly(m)[0] == '\n';
  }

  lemma {:induction false} KeysWell(hs: seq<(string, string)>)
    requires WellHeaders(hs)
    ensures forall k | k in HeaderMap(hs) :: WellKey(k)
    decreases |hs|
  {
    if hs != [] { KeysWell(hs[..|hs| - 1]); }
  }

  /** The first field, read from the state behind a header line with an LF in front of it. */
  lemma {:induction false} LfBecomesName(r: Request, data: string, k: string, v: string)
    requires WellKey(k) && WellValue(v) && FieldAt(data, 0, "\n" + k, v)
    ensures var s := HeaderStep(Lf, r, data); s.HeadersFault? || "\n" + k in s.request.headers
  {
    hide Trim, Trimmed, FieldText;
    var name := "\n" + k;
    FieldChars(data, 0, name, v);
    var c, e, s, n := Cursor(Lf, r, None, None, None, None), |name|, |name| + 2, |name| + |v| + 4;
    assert data[0] == data[0..e][0] == '\n';
    assert forall x :: 1 <= x < e ==> data[x] == data[0..e][x] == k[x - 1];
    WalkOne(c, data, 0);
    WalkOn(c, data, 0, 1, n);
    var c1 := KeyCursor(c, 0);
    WalkKey(c1, data, 1, e);
    WalkOn(c1, data, 1, e, n);
    WalkOne(c1, data, e);
    WalkOn(c1, data, e, e + 1, n);
    var c2 := c1.(h := Colon, keyEnd := Some(e));
    WalkOne(c2, data, e + 1);
    WalkOn(c2, data, e + 1, s, n);
    var c3 := c2.(h := Spaces);
    WalkOne(c3, data, s);
    WalkOn(c3, data, s, s + 1, n);
    var c4 := c3.(h := Value, valStart := Some(s));
    var c5;
    if v == "" {
      c5 := NoValue(c4, data, 0, name);
    } else {
      c5 := ValueEnd(c4, data, 0, name, v);
    }
    WalkThenScan(c, data, 0, n);
    ScanKeeps(c5, data, n, name);
  }

  lemma {:induction false} LfTaints(r: Request, m: Message, data: string, now: int, beyond: char)
    requires WellFormed(m) && FieldAt(data, 0, Ghostly(m), m.headers[0].1)
    ensures var s := Serve(Context(ParseHeaders, Lf, r), data, now, beyond);
      || s.outcome == Crashed
      || (if s.requests == [] then Tainted(s.context, Ghostly(m)) else Ghostly(m) in s.requests[0].headers)
  {
    hide ScanFrom, Stoul, FieldText, LineText;
    LfBecomesName(r, data, m.headers[0].0, m.headers[0].1);
    var s := HeaderStep(Lf, r, data);
    if s.HeadersDone? {
      TaintedParse(Context(if s.request.verb == Post then RecvBody else Analysis, s.h, s.request), data[s.used..], now, beyond, Ghostly(m));
    }
  }

  lemma {:induction false} LfTaintsForGood(r: Request, m: Message, rest: string, ds: seq<Delivery>)
    requires WellFormed(m) && "\n" + FieldText(m.headers[0]) <= rest
    ensures var f := ServeAll(Context(ParseHeaders, Lf, r), rest, ds);
      f.requests == [] || f.outcome == Crashed || Ghostly(m) in f.requests[0].headers
  {
    hide Serve, FieldText;
    if ds != [] {
      var data := rest + ds[0].bytes;
      assert "\n" + FieldText(m.headers[0]) <= data;
      assert data == "\n" + data[1..];
      assert data[1..][..|FieldText(m.headers[0])|] == FieldText(m.headers[0]);
      LfInFront(data[1..], m.headers[0].0, m.headers[0].1);
      LfTaints(r, m, data, ds[0].time, ds[0].beyond);
      var s := Serve(Context(ParseHeaders, Lf, r), data, ds[0].time, ds[0].beyond);
      if s.outcome != Crashed && s.requests == [] {
        TaintedForGood(s.context, s.rest, ds[1..], Ghostly(m));
      }
    }
  }

  lemma {:induction false} OneFieldText(h: (string, string))
    ensures FieldsText([h]) == FieldText(h)
  {
    assert [h][..0] == [];
    assert "" + FieldText(h) == FieldText(h);
  }

  lemma {:induction false} LfInFront(part: string, k: string, v: string)
    requires FieldText((k, v)) <= part
    ensures FieldAt("\n" + part, 0, "\n" + k, v)
  {
    var f := FieldText((k, v));
    assert part[..|f|] == f;
    assert ("\n" + part)[0..|f| + 1] == "\n" + f;
    assert "\n" + f == FieldText(("\n" + k, v));
  }

  lemma {:induction false} LfThenFields(c: Context, rest: string, m: Message, i: nat, time: int, j: nat, now: int, beyond: char)
    requires WellFormed(m) && PastCr(c, rest, m, i, time) && 1 <= j <= |m.headers|
    ensures i < FieldPos(m, j) <= |Print(m)|
    ensures var s := Serve(c, rest + Print(m)[i..FieldPos(m, j)], now, beyond);
      && s.outcome == Waiting && s.requests == [] && s.rest == "\n" + Print(m)[LineLen(m) + 2..FieldPos(m, j)]
      && s.context.state == ParseHeaders && s.context.hState == Lf
  {
    hide OnChar, LineText, HeaderMap, FieldsText;
    FieldPlaces(m);
    FieldCut(m, j);
    var k, hs := FieldPos(m, j), m.headers[..j];
    PastCrBytes(c, rest, m, i, time, k);
    var part := Print(m)[LineLen(m) + 2..k];
    assert part == Print(m)[..k][LineLen(m) + 2..] == FieldsText(hs);
    var data, cur := "\n" + part, Cursor(Start, c.request, None, None, None, None);
    SkipsLf(cur, "\n", part);
    assert data[1..|data|] == FieldsText(hs);
    var c1 := WalkFields(cur, data, 1, hs);
    WalkOn(cur, data, 0, 1, |data|);
    WalkThenScan(cur, data, 0, |data|);
  }

  lemma {:induction false} FirstFieldText(m: Message, j: nat)
    requires WellFormed(m) && 1 <= j <= |m.headers|
    ensures FieldPos(m, j) <= |Print(m)|
    ensures FieldText(m.headers[0]) <= Print(m)[LineLen(m) + 2..FieldPos(m, j)]
  {
    hide LineText, FieldsText, FieldText;
    PrintParts(m);
    FieldCut(m, j);
    var hs := m.headers[..j];
    assert Print(m)[LineLen(m) + 2..FieldPos(m, j)] == Print(m)[..FieldPos(m, j)][LineLen(m) + 2..] == FieldsText(hs);
    FieldsTextSplit(hs, 1);
    assert hs[..1] == [m.headers[0]];
    OneFieldText(m.headers[0]);
  }

  /** Behind the CR, a stop behind a header line: the LF becomes part of a name. */
  lemma {:induction false} FieldStopHarms(c: Context, rest: string, m: Message, i: nat, time: int, stops: seq<Stop>, o: Onward)
    requires WellFormed(m) && PastCr(c, rest, m, i, time) && Inside(m, i, stops) && stops != [] && AtField(m, stops[0].at)
    requires i <= |Print(m)|
    ensures var f := ServeAll(c, rest, Deliveries(m, i, stops, o));
      f.requests == [] || f.outcome == Crashed || f.requests[0].headers != HeaderMap(m.headers)
  {
    hide Serve, Print, HeaderMap, FieldsText, FieldPos, FieldText, Deliveries;
    var k := stops[0].at;
    var j :| 1 <= j <= |m.headers| && k == FieldPos(m, j);
    LfThenFields(c, rest, m, i, time, j, stops[0].time, stops[0].beyond);
    QuietStep(c, rest, m, i, stops, o);
    var s := Serve(c, rest + Print(m)[i..k], stops[0].time, stops[0].beyond);
    FirstFieldText(m, j);
    LfTaintsForGood(s.context.request, m, s.rest, Deliveries(m, k, stops[1..], o));
    NotSent(m);
  }
}
