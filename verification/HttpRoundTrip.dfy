/** Parsing inverts printing: the request line, the header section and the body. */
module HttpRoundTrip {
  import opened Basics
  import opened HttpMessage
  import opened HttpParser
  import opened HttpNumbers

  // ----- the request line -----

  /** The request after its request line is parsed. */
  ghost function LineRequest(m: Message): Request {
    NO_REQUEST.(verb := m.verb, version := m.version, path := m.path, query := m.query)
  }

  lemma {:induction false} FreeConcat(s: string, t: string, c: char)
    ensures Free(s + t, c) <==> Free(s, c) && Free(t, c)
  {
    if Free(s + t, c) {
      assert forall i :: 0 <= i < |s| ==> (s + t)[i] == s[i];
      assert forall i :: 0 <= i < |t| ==> (s + t)[|s| + i] == t[i];
    }
  }

  lemma {:induction false} MethodWord(v: Method)
    requires v != Invalid
    ensures MethodOf(MethodText(v)) == v
    ensures Free(MethodText(v), ' ') && Free(MethodText(v), '\r')
  {}

  lemma {:induction false} VersionWord(v: Version)
    requires v != Unknown
    ensures VersionOf(VersionText(v)) == v && Free(VersionText(v), '\r')
  {}

  lemma {:induction false} TargetParts(path: string, query: string)
    requires Free(path, ' ') && Free(path, '?') && Free(path, '\r')
    requires Free(query, ' ') && Free(query, '\r')
    ensures Free(Target(path, query), ' ') && Free(Target(path, query), '\r')
    ensures var q := Find(Target(path, query), '?');
      if query == "" then q == |Target(path, query)| && Target(path, query) == path
      else q == |path| < |Target(path, query)| && Target(path, query)[..q] == path && Target(path, query)[q + 1..] == query
  {
    if query == "" {
      FindNone(path, '?');
    } else {
      FindAt(path, '?', query);
      assert path + ['?'] + query == Target(path, query);
      FreeConcat(path + "?", query, ' ');
      FreeConcat(path, "?", ' ');
      FreeConcat(path + "?", query, '\r');
      FreeConcat(path, "?", '\r');
    }
  }

  lemma {:induction false} SplitAtSpace(word: string, rest: string)
    requires Free(word, ' ')
    ensures var s := word + " " + rest;
      Find(s, ' ') == |word| < |s| && s[..|word|] == word && s[|word| + 1..] == rest
  {
    FindAt(word, ' ', rest);
    assert word + [' '] + rest == word + " " + rest;
  }

  lemma {:induction false} LineParses(m: Message)
    requires WellLine(m)
    ensures LineStep(NO_REQUEST, LineText(m)) == LineResult(true, LineRequest(m))
  {
    hide Find, MethodText, MethodOf, VersionText, VersionOf, Target;
    var verb, target, version := MethodText(m.verb), Target(m.path, m.query), VersionText(m.version);
    MethodWord(m.verb);
    TargetParts(m.path, m.query);
    VersionWord(m.version);
    SplitAtSpace(verb, target + " " + version);
    SplitAtSpace(target, version);
    assert LineText(m) == verb + " " + (target + " " + version);
  }

  lemma {:induction false} LineHasNoCr(m: Message)
    requires WellLine(m)
    ensures Free(LineText(m), '\r')
  {
    var verb, target, version := MethodText(m.verb), Target(m.path, m.query), VersionText(m.version);
    MethodWord(m.verb);
    TargetParts(m.path, m.query);
    VersionWord(m.version);
    FreeConcat(verb + " " + target + " ", version, '\r');
    FreeConcat(verb + " " + target, " ", '\r');
    FreeConcat(verb + " ", target, '\r');
    FreeConcat(verb, " ", '\r');
  }

  /** A whole request line is taken off the front. */
  lemma {:induction false} UriParses(m: Message, rest: string, beyond: char)
    requires WellLine(m)
    ensures UriStep(NO_REQUEST, LineText(m) + "\r\n" + rest, beyond) == UriResult(Success, LineRequest(m), rest)
  {
    hide LineText, LineStep;
    var line := LineText(m);
    var data := line + "\r\n" + rest;
    LineHasNoCr(m);
    LineParses(m);
    FindAt(line, '\r', "\n" + rest);
    assert data == line + ['\r'] + ("\n" + rest);
    assert data[..|line|] == line && data[|line| + 1] == '\n';
    assert |line| + 2 < |data| ==> data[|line| + 2..] == rest;
  }

  // ----- walking over characters -----

  /** The cursor after the characters `i..j`, if none of them ends the loop. */
  ghost function Walk(c: Cursor, data: string, i: nat, j: nat): Option<Cursor>
    requires i <= j <= |data|
    decreases j - i
  {
    if i == j then Some(c)
    else
      match OnChar(c, data, i)
      case More(c') => Walk(c', data, i + 1, j)
      case _ => None
  }

  lemma {:induction false} WalkThenScan(c: Cursor, data: string, i: nat, j: nat)
    requires i <= j <= |data| && Walk(c, data, i, j).Some?
    ensures ScanFrom(c, data, i) == ScanFrom(Walk(c, data, i, j).value, data, j)
    decreases j - i
  {
    if i < j { WalkThenScan(OnChar(c, data, i).cursor, data, i + 1, j); }
  }

  lemma {:induction false} WalkOn(c: Cursor, data: string, i: nat, j: nat, k: nat)
    requires i <= j <= k <= |data| && Walk(c, data, i, j).Some?
    ensures Walk(c, data, i, k) == Walk(Walk(c, data, i, j).value, data, j, k)
    decreases j - i
  {
    if i < j { WalkOn(OnChar(c, data, i).cursor, data, i + 1, j, k); }
  }

  lemma {:induction false} WalkOne(c: Cursor, data: string, i: nat)
    requires i < |data| && OnChar(c, data, i).More?
    ensures Walk(c, data, i, i + 1) == Some(OnChar(c, data, i).cursor)
  {}

  /** Inside a key, characters other than ':', CR and LF change nothing. */
  lemma {:induction false} WalkKey(c: Cursor, data: string, i: nat, j: nat)
    requires i <= j <= |data| && c.h == Key
    requires forall x :: i <= x < j ==> data[x] != ':' && data[x] != '\r' && data[x] != '\n'
    ensures Walk(c, data, i, j) == Some(c)
    decreases j - i
  {
    if i < j { WalkKey(c, data, i + 1, j); }
  }

  lemma {:induction false} WalkValue(c: Cursor, data: string, i: nat, j: nat)
    requires i <= j <= |data| && c.h == Value
    requires forall x :: i <= x < j ==> data[x] != '\r' && data[x] != '\n'
    ensures Walk(c, data, i, j) == Some(c)
    decreases j - i
  {
    if i < j { WalkValue(c, data, i + 1, j); }
  }

  /** The text of a field at position `i`. */
  ghost predicate FieldAt(data: string, i: nat, k: string, v: string) {
    i + |k| + |v| + 4 <= |data| && data[i..i + |k| + |v| + 4] == FieldText((k, v))
  }

  lemma {:induction false} FieldChars(data: string, i: nat, k: string, v: string)
    requires FieldAt(data, i, k, v)
    ensures data[i..i + |k|] == k
    ensures data[i + |k|] == ':' && data[i + |k| + 1] == ' '
    ensures data[i + |k| + 2..i + |k| + 2 + |v|] == v
    ensures data[i + |k| + 2 + |v|] == '\r' && data[i + |k| + 3 + |v|] == '\n'
    ensures WellKey(k) ==> forall x :: i <= x < i + |k| ==> data[x] != ':' && data[x] != '\r' && data[x] != '\n'
    ensures Free(v, '\r') && Free(v, '\n') ==>
      forall x :: i + |k| + 2 <= x < i + |k| + 2 + |v| ==> data[x] != '\r' && data[x] != '\n'
  {
    var f := data[i..i + |k| + |v| + 4];
    assert f == k + ": " + v + "\r\n";
    assert forall x :: 0 <= x < |f| ==> f[x] == data[i + x];
    assert f[..|k|] == k && f[|k|] == ':' && f[|k| + 1] == ' ';
    assert f[|k| + 2..|k| + 2 + |v|] == v;
    assert f[|k| + 2 + |v|] == '\r' && f[|k| + 3 + |v|] == '\n';
    assert forall x :: i <= x < i + |k| ==> data[x] == k[x - i];
    assert forall x :: i + |k| + 2 <= x < i + |k| + 2 + |v| ==> data[x] == v[x - i - |k| - 2];
  }

  /** The cursor where a field's key has begun. */
  ghost function KeyCursor(c: Cursor, i: nat): Cursor { c.(h := Key, keyStart := Some(i)) }

  /** From the start of a line to the space after the colon. */
  lemma {:induction false} WalkName(c: Cursor, data: string, i: nat, k: string, v: string)
    requires FieldAt(data, i, k, v) && WellKey(k) && (c.h == Start || c.h == Lf)
    ensures Walk(c, data, i, i + |k| + 2) == Some(c.(h := Spaces, keyStart := Some(i), keyEnd := Some(i + |k|)))
  {
    FieldChars(data, i, k, v);
    var e := i + |k|;
    assert data[i] == k[0];
    WalkOne(c, data, i);
    WalkOn(c, data, i, i + 1, e + 2);
    var c1 := KeyCursor(c, i);
    WalkKey(c1, data, i + 1, e);
    WalkOn(c1, data, i + 1, e, e + 2);
    WalkOne(c1, data, e);
    var c2 := c1.(h := Colon, keyEnd := Some(e));
    WalkOn(c1, data, e, e + 1, e + 2);
    WalkOne(c2, data, e + 1);
  }

  /** The rest of the line: the value, its end, and addHeader. */
  lemma {:induction false} WalkField(c: Cursor, data: string, i: nat, k: string, v: string)
    returns (c': Cursor)
    requires FieldAt(data, i, k, v) && WellKey(k) && WellValue(v) && (c.h == Start || c.h == Lf)
    ensures Walk(c, data, i, i + |k| + |v| + 4) == Some(c')
    ensures c'.h == Lf && c'.request == c.request.(headers := c.request.headers[k := v])
  {
    hide Trim, Trimmed, FieldText;
    FieldChars(data, i, k, v);
    WalkName(c, data, i, k, v);
    var e, s, n := i + |k|, i + |k| + 2, i + |k| + |v| + 4;
    var c1 := c.(h := Spaces, keyStart := Some(i), keyEnd := Some(e));
    WalkOn(c, data, i, s, n);
    WalkOne(c1, data, s);
    WalkOn(c1, data, s, s + 1, n);
    var c2 := c1.(h := Value, valStart := Some(s));
    if v == "" {
      c' := NoValue(c2, data, i, k);
    } else {
      c' := ValueEnd(c2, data, i, k, v);
      TrimSpace(v);
      TrimPadded(v);
    }
  }

  /** The cursor on a field's value. */
  ghost predicate OnValue(c: Cursor, i: nat, k: string) {
    c.h == Value && c.keyStart == Some(i) && c.keyEnd == Some(i + |k|) && c.valStart == Some(i + |k| + 2)
  }

  /** An empty value: its CR was taken for the value's start, and the LF ends the field. */
  lemma {:induction false} NoValue(c: Cursor, data: string, i: nat, k: string) returns (c': Cursor)
    requires FieldAt(data, i, k, "") && OnValue(c, i, k)
    ensures Walk(c, data, i + |k| + 3, i + |k| + 4) == Some(c')
    ensures c'.h == Lf && c'.request == c.request.(headers := c.request.headers[k := ""])
  {
    FieldChars(data, i, k, "");
    var s := i + |k| + 2;
    assert data[s - 1..s + 1] == " \r";
    assert Trim(" \r") == "" by { assert " \r"[1..] == "\r"; assert "\r"[1..] == ""; }
    WalkOne(c, data, s + 1);
    c' := OnChar(c, data, s + 1).cursor;
  }

  /** The rest of a value, its CR and its LF. */
  lemma {:induction false} ValueEnd(c: Cursor, data: string, i: nat, k: string, v: string) returns (c': Cursor)
    requires FieldAt(data, i, k, v) && Free(v, '\r') && Free(v, '\n') && v != "" && OnValue(c, i, k)
    ensures Walk(c, data, i + |k| + 3, i + |k| + |v| + 4) == Some(c')
    ensures c'.h == Lf && c'.request == c.request.(headers := c.request.headers[k := Trim(v)])
  {
    hide Trim, Trimmed, FieldText;
    FieldChars(data, i, k, v);
    var s, r, n := i + |k| + 2, i + |k| + 2 + |v|, i + |k| + |v| + 4;
    WalkValue(c, data, s + 1, r);
    WalkOn(c, data, s + 1, r, n);
    WalkOne(c, data, r);
    WalkOn(c, data, r, r + 1, n);
    var c1 := c.(h := Cr, valEnd := Some(r));
    assert data[s - 1..r] == " " + v;
    TrimSpace(v);
    WalkOne(c1, data, r + 1);
    c' := OnChar(c1, data, r + 1).cursor;
  }

  // ----- the header section -----

  ghost predicate FieldsAt(data: string, i: nat, hs: seq<(string, string)>) {
    i + |FieldsText(hs)| <= |data| && data[i..i + |FieldsText(hs)|] == FieldsText(hs)
  }

  lemma {:induction false} FieldLength(h: (string, string))
    ensures |FieldText(h)| == |h.0| + |h.1| + 4
  {}

  /** The fields of `hs`, one after the other, on top of what the request has. */
  lemma {:induction false} WalkFields(c: Cursor, data: string, i: nat, hs: seq<(string, string)>)
    returns (c': Cursor)
    requires FieldsAt(data, i, hs) && WellHeaders(hs) && (c.h == Start || c.h == Lf)
    ensures Walk(c, data, i, i + |FieldsText(hs)|) == Some(c')
    ensures c'.h == if hs == [] then c.h else Lf
    ensures c'.request == c.request.(headers := c.request.headers + HeaderMap(hs))
    decreases |hs|
  {
    hide OnChar, FieldText, Trim, WellKey, WellValue;
    if hs == [] {
      c' := c;
    } else {
      var front, last := hs[..|hs| - 1], hs[|hs| - 1];
      var j := i + |FieldsText(front)|;
      FieldLength(last);
      assert |FieldsText(hs)| == |FieldsText(front)| + |FieldText(last)|;
      assert FieldsAt(data, i, front) by {
        assert data[i..j] == FieldsText(hs)[..|FieldsText(front)|];
      }
      assert FieldAt(data, j, last.0, last.1) by {
        assert data[j..j + |FieldText(last)|] == FieldsText(hs)[|FieldsText(front)|..];
      }
      var c1 := WalkFields(c, data, i, front);
      WalkOn(c, data, i, j, i + |FieldsText(hs)|);
      c' := WalkField(c1, data, j, last.0, last.1);
      assert c.request.headers + HeaderMap(hs) == (c.request.headers + HeaderMap(front))[last.0 := last.1];
    }
  }

  lemma {:induction false} ScanTerminator(c: Cursor, data: string, j: nat)
    requires j + 2 <= |data| && data[j] == '\r' && data[j + 1] == '\n' && c.h == Lf
    ensures ScanFrom(c, data, j) == HeadersDone(EndLf, c.request, j + 2)
  {
    WalkOne(c, data, j);
    WalkThenScan(c, data, j, j + 1);
  }

  /** A header section of at least one field, from either state in which a line may start. */
  lemma {:induction false} HeadersParse(h: HState, r: Request, hs: seq<(string, string)>, tail: string)
    requires hs != [] && WellHeaders(hs) && (h == Start || h == Lf)
    ensures HeaderStep(h, r, FieldsText(hs) + "\r\n" + tail)
         == HeadersDone(EndLf, r.(headers := r.headers + HeaderMap(hs)), |FieldsText(hs)| + 2)
  {
    hide OnChar, ScanFrom, FieldsText, HeaderMap;
    var data, j := FieldsText(hs) + "\r\n" + tail, |FieldsText(hs)|;
    var c := Cursor(h, r, None, None, None, None);
    assert data[0..j] == FieldsText(hs);
    var c1 := WalkFields(c, data, 0, hs);
    WalkThenScan(c, data, 0, j);
    ScanTerminator(c1, data, j);
  }

  // ----- body and whole request -----

  /** The context in which a request is complete. */
  ghost function Complete(m: Message, time: int): Context { Context(Finish, EndLf, Meaning(m, time)) }

  /** The request once its headers are parsed. */
  ghost function HeadRequest(m: Message, time: int): Request { Meaning(m, time).(body := "") }

  lemma {:induction false} BodyParses(m: Message, time: int, tail: string, now: int, beyond: char)
    requires WellFormed(m)
    ensures Parse(Context(if m.verb == Post then RecvBody else Analysis, EndLf, HeadRequest(m, time)), m.body + tail, now, beyond)
         == Parsed(Waiting, Complete(m, time), tail)
  {
    LengthRead(m.verb, HeaderMap(m.headers), m.body);
    assert (m.body + tail)[..|m.body|] == m.body && (m.body + tail)[|m.body|..] == tail;
    assert m.body == "" ==> m.body + tail == tail;
  }

  /** From the header section on: `had` are fields that an earlier pass has entered. */
  lemma {:induction false} HeadParses(m: Message, time: int, h: HState, had: map<string, string>, tail: string, now: int, beyond: char)
    requires WellFormed(m) && (h == Start || h == Lf)
    requires had + HeaderMap(m.headers) == HeaderMap(m.headers)
    ensures Parse(Context(ParseHeaders, h, HeadRequest(m, time).(headers := had)),
                  FieldsText(m.headers) + "\r\n" + (m.body + tail), now, beyond)
         == Parsed(Waiting, Complete(m, time), tail)
  {
    var data := FieldsText(m.headers) + "\r\n" + (m.body + tail);
    HeadersParse(h, HeadRequest(m, time).(headers := had), m.headers, m.body + tail);
    assert data[|FieldsText(m.headers)| + 2..] == m.body + tail;
    BodyParses(m, time, tail, now, beyond);
  }

  /** A single delivery of a printed request is parsed back, and exactly its bytes are used. */
  lemma {:induction false} ParseInvertsPrint(m: Message, tail: string, time: int, beyond: char)
    requires WellFormed(m)
    ensures Parse(FRESH, Print(m) + tail, time, beyond) == Parsed(Waiting, Complete(m, time), tail)
  {
    hide UriStep, HeaderStep, Stoul, FieldsText, LineText, HeaderMap;
    var rest := FieldsText(m.headers) + "\r\n" + (m.body + tail);
    assert Print(m) + tail == LineText(m) + "\r\n" + rest;
    UriParses(m, rest, beyond);
    HeadParses(m, time, Start, map[], tail, time, beyond);
    assert map[] + HeaderMap(m.headers) == HeaderMap(m.headers);
    assert LineRequest(m).(receiveTime := time) == HeadRequest(m, time).(headers := map[]);
  }

  // ----- pipelining -----

  ghost predicate AllWell(ms: seq<Message>) { forall i :: 0 <= i < |ms| ==> WellFormed(ms[i]) }

  ghost function PrintAll(ms: seq<Message>): string
    requires AllWell(ms)
  {
    if ms == [] then "" else Print(ms[0]) + PrintAll(ms[1..])
  }

  ghost function Meanings(ms: seq<Message>, time: int): seq<Request> {
    if ms == [] then [] else [Meaning(ms[0], time)] + Meanings(ms[1..], time)
  }

  lemma {:induction false} PrintNonEmpty(m: Message)
    requires WellFormed(m)
    ensures Print(m) != ""
  {
    assert |Print(m)| >= 2;
  }

  /** onMessage on any number of concatenated requests hands over each of them, in order,
      and goes on with what follows. */
  lemma {:induction false} PipelineServed(ms: seq<Message>, tail: string, time: int, beyond: char)
    requires AllWell(ms)
    ensures var after := Serve(FRESH, tail, time, beyond);
      Serve(FRESH, PrintAll(ms) + tail, time, beyond) == after.(requests := Meanings(ms, time) + after.requests)
    decreases |ms|
  {
    if ms == [] {
      assert "" + tail == tail;
    } else {
      var rest := PrintAll(ms[1..]) + tail;
      assert PrintAll(ms) + tail == Print(ms[0]) + rest;
      PrintNonEmpty(ms[0]);
      ParseInvertsPrint(ms[0], rest, time, beyond);
      PipelineServed(ms[1..], tail, time, beyond);
      ServeStep(Print(ms[0]) + rest, time, beyond);
      var after := Serve(FRESH, tail, time, beyond);
      assert [Meaning(ms[0], time)] + (Meanings(ms[1..], time) + after.requests) == Meanings(ms, time) + after.requests;
    }
  }

  lemma {:induction false} ServeStep(data: string, time: int, beyond: char)
    requires data != "" && Parse(FRESH, data, time, beyond).context.state == Finish
    ensures var p := Parse(FRESH, data, time, beyond);
      var more := Serve(FRESH, p.rest, time, beyond);
      Serve(FRESH, data, time, beyond) == more.(requests := [p.context.request] + more.requests)
  {}

  /** k requests in one delivery: k calls in order, and an empty buffer. */
  lemma {:induction false} PipelineEmpties(ms: seq<Message>, time: int, beyond: char)
    requires AllWell(ms)
    ensures Serve(FRESH, PrintAll(ms), time, beyond) == Served(Meanings(ms, time), Waiting, FRESH, "")
  {
    assert PrintAll(ms) + "" == PrintAll(ms);
    PipelineServed(ms, "", time, beyond);
    assert Meanings(ms, time) + [] == Meanings(ms, time);
  }

  // ----- bodies of other methods -----

  /** The body that a sender frames: as long as its Content-Length says, or none. */
  ghost predicate Framed(m: Message) {
    if CONTENT_LENGTH in HeaderMap(m.headers)
    then Announces(HeaderMap(m.headers)[CONTENT_LENGTH], |m.body|) && |m.body| <= ULONG_MAX
    else m.body == ""
  }

  /** A framed body is taken as the body exactly for POST; after any other method it stays in the
      buffer as if it were the next request. */
  lemma {:induction false} BodyTakenIffPost(m: Message, tail: string, time: int, beyond: char)
    requires WellLine(m) && m.headers != [] && WellHeaders(m.headers) && Framed(m)
    ensures Parse(FRESH, Print(m) + tail, time, beyond)
         == if m.verb == Post then Parsed(Waiting, Complete(m, time), tail)
            else Parsed(Waiting, Complete(m.(body := ""), time), m.body + tail)
    ensures Parse(FRESH, Print(m) + tail, time, beyond) == Parsed(Waiting, Complete(m, time), tail)
         <==> m.verb == Post || m.body == ""
  {
    hide Parse, LineText, FieldsText, HeaderMap, Stoul;
    if m.verb == Post {
      ParseInvertsPrint(m, tail, time, beyond);
    } else {
      var bare := m.(body := "");
      ParseInvertsPrint(bare, m.body + tail, time, beyond);
      BareText(m);
      assert Print(m) + tail == Print(bare) + (m.body + tail);
    }
  }

  lemma {:induction false} BareText(m: Message)
    requires WellLine(m)
    ensures Print(m) == Print(m.(body := "")) + m.body
  {
    assert LineText(m.(body := "")) == LineText(m);
  }

  // ----- requests without header fields -----

  lemma {:induction false} WalkBlank(c: Cursor, data: string, i: nat)
    requires i <= |data| && c.h == Start && forall x :: 0 <= x < |data| ==> data[x] == '\r' || data[x] == '\n'
    ensures ScanFrom(c, data, i) == HeadersAgain(Start, c.request)
    decreases |data| - i
  {
    if i < |data| { WalkBlank(c, data, i + 1); }
  }

  /** A request line and line ends: the parser waits for a header field. */
  lemma {:induction false} HeaderlessWaits(m: Message, blank: string, time: int, beyond: char)
    requires WellLine(m)
    requires forall x :: 0 <= x < |blank| ==> blank[x] == '\r' || blank[x] == '\n'
    ensures Serve(FRESH, LineText(m) + "\r\n" + blank, time, beyond)
         == Served([], Waiting, Context(ParseHeaders, Start, LineRequest(m).(receiveTime := time)), blank)
  {
    hide LineText, LineStep;
    UriParses(m, blank, beyond);
    WalkBlank(Cursor(Start, LineRequest(m).(receiveTime := time), None, None, None, None), blank, 0);
  }
}
