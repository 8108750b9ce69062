/** Responses: what appendToBuffer writes, and a reader that takes it apart by the framing
    rules of section 3.3.3 of RFC 7230. */
module HttpResponse {
  import opened Basics
  import opened HttpMessage
  import opened HttpNumbers
  import opened ByteBuffer

  /** A response; its header fields in the order of the map that holds them. */
  datatype Response = Response(
    status: nat,
    reason: string,
    close: bool,
    headers: seq<(string, string)>,
    body: string)

  // ----- writing -----

  /** snprintf into the scratch buffer of 32 bytes, the last of which is the terminator. */
  function Scratch(s: string): string { if |s| <= 31 then s else s[..31] }

  const VERSION_PREFIX := "HTTP/1.1 "
  const LENGTH_FIELD := "Content-Length: "
  const KEEP_ALIVE := ("Connection", "Keep-Alive")
  const CLOSE := ("Connection", "close")

  function LengthLine(n: nat): string { Scratch(LENGTH_FIELD + Dec(n) + "\r\n") }

  function StatusLine(status: nat, reason: string): string {
    Scratch(VERSION_PREFIX + Dec(status) + " ") + reason + "\r\n"
  }

  function FramingFields(close: bool, length: nat): string {
    if close then FieldText(CLOSE) else LengthLine(length) + FieldText(KEEP_ALIVE)
  }

  /** What appendToBuffer appends. */
  function Written(r: Response): string {
    StatusLine(r.status, r.reason) + FramingFields(r.close, |r.body|) + FieldsText(r.headers) + "\r\n" + r.body
  }

  lemma {:induction false} Join(a: string, b: string, c: string)
    ensures a + b + c == a + (b + c)
  {}

  /** The status line. */
  method WriteStatus(status: nat, reason: string, output: Buffer)
    requires output.Valid()
    modifies output, output.data
    ensures output.Valid() && (fresh(output.data) || output.data == old(output.data))
    ensures output.Contents() == old(output.Contents()) + StatusLine(status, reason)
  {
    ghost var start := output.Contents();
    var line := Scratch(VERSION_PREFIX + Dec(status) + " ");
    output.Append(line);
    output.Append(reason);
    Join(start, line, reason);
    output.Append("\r\n");
    Join(start, line + reason, "\r\n");
  }

  /** Content-Length and Connection. */
  method WriteFraming(close: bool, length: nat, output: Buffer)
    requires output.Valid()
    modifies output, output.data
    ensures output.Valid() && (fresh(output.data) || output.data == old(output.data))
    ensures output.Contents() == old(output.Contents()) + FramingFields(close, length)
  {
    hide LengthLine;
    ghost var start := output.Contents();
    if close {
      assert FieldText(CLOSE) == "Connection: close\r\n";
      output.Append("Connection: close\r\n");
    } else {
      assert FieldText(KEEP_ALIVE) == "Connection: Keep-Alive\r\n";
      output.Append(LengthLine(length));
      output.Append("Connection: Keep-Alive\r\n");
      Join(start, LengthLine(length), "Connection: Keep-Alive\r\n");
    }
  }

  /** One header field. */
  method WriteField(field: (string, string), output: Buffer)
    requires output.Valid()
    modifies output, output.data
    ensures output.Valid() && (fresh(output.data) || output.data == old(output.data))
    ensures output.Contents() == old(output.Contents()) + FieldText(field)
  {
    ghost var start := output.Contents();
    output.Append(field.0);
    output.Append(": ");
    Join(start, field.0, ": ");
    output.Append(field.1);
    Join(start, field.0 + ": ", field.1);
    output.Append("\r\n");
    Join(start, field.0 + ": " + field.1, "\r\n");
  }

  lemma {:induction false} FieldsNext(hs: seq<(string, string)>, i: nat)
    requires i < |hs|
    ensures FieldsText(hs[..i + 1]) == FieldsText(hs[..i]) + FieldText(hs[i])
  {
    assert hs[..i + 1][..i] == hs[..i];
  }

  method WriteFields(fields: seq<(string, string)>, output: Buffer)
    requires output.Valid()
    modifies output, output.data
    ensures output.Valid() && (fresh(output.data) || output.data == old(output.data))
    ensures output.Contents() == old(output.Contents()) + FieldsText(fields)
  {
    hide FieldText;
    ghost var start := output.Contents();
    for i := 0 to |fields|
      invariant output.Valid() && (fresh(output.data) || output.data == old(output.data))
      invariant output.Contents() == start + FieldsText(fields[..i])
    {
      WriteField(fields[i], output);
      FieldsNext(fields, i);
      Join(start, FieldsText(fields[..i]), FieldText(fields[i]));
    }
    assert fields[..|fields|] == fields;
  }

  /** appendToBuffer. */
  method AppendToBuffer(r: Response, output: Buffer)
    requires output.Valid()
    modifies output, output.data
    ensures output.Valid() && output.Contents() == old(output.Contents()) + Written(r)
  {
    hide StatusLine, FramingFields, FieldsText;
    ghost var start := output.Contents();
    ghost var text := StatusLine(r.status, r.reason);
    WriteStatus(r.status, r.reason, output);
    WriteFraming(r.close, |r.body|, output);
    Join(start, text, FramingFields(r.close, |r.body|));
    text := text + FramingFields(r.close, |r.body|);
    WriteFields(r.headers, output);
    Join(start, text, FieldsText(r.headers));
    text := text + FieldsText(r.headers);
    output.Append("\r\n");
    Join(start, text, "\r\n");
    output.Append(r.body);
    Join(start, text + "\r\n", r.body);
  }

  // ----- reading -----

  datatype Read = Read(status: nat, reason: string, fields: seq<(string, string)>, body: string)

  datatype Cut<+T> = Cut(value: T, rest: string)

  function TakeLine(data: string): (r: Option<Cut<string>>)
    ensures r.Some? ==> |r.value.rest| < |data|
  {
    var i := Find(data, '\r');
    if i + 1 < |data| && data[i + 1] == '\n' then Some(Cut(data[..i], data[i + 2..])) else None
  }

  function TakeFields(data: string): (r: Option<Cut<seq<(string, string)>>>)
    ensures r.Some? ==> |r.value.rest| < |data|
    decreases |data|
  {
    match TakeLine(data)
    case None => None
    case Some(l) =>
      if l.value == "" then Some(Cut([], l.rest))
      else
        var colon := Find(l.value, ':');
        if colon == |l.value| then None
        else
          match TakeFields(l.rest)
          case None => None
          case Some(more) => Some(Cut([(l.value[..colon], Trim(l.value[colon + 1..]))] + more.value, more.rest))
  }

  function TakeStatus(data: string): (r: Option<Cut<(nat, string)>>)
    ensures r.Some? ==> |r.value.rest| < |data|
  {
    match TakeLine(data)
    case None => None
    case Some(l) =>
      if !(VERSION_PREFIX <= l.value) then None
      else
        var tail := l.value[|VERSION_PREFIX|..];
        var space := Find(tail, ' ');
        if space == |tail| || DigitCount(tail[..space]) != space || space == 0 then None
        else Some(Cut((Digits(tail[..space]), tail[space + 1..]), l.rest))
  }

  function LowerChar(c: char): char { if 'A' <= c <= 'Z' then (c as int + 32) as char else c }

  function Lower(s: string): string { seq(|s|, i requires 0 <= i < |s| => LowerChar(s[i])) }

  /** Field names are compared without regard to case. */
  predicate Named(f: (string, string), name: string) { Lower(f.0) == Lower(name) }

  function LengthsOf(fields: seq<(string, string)>): seq<string> {
    if fields == [] then []
    else (if Named(fields[0], CONTENT_LENGTH) then [fields[0].1] else []) + LengthsOf(fields[1..])
  }

  const TRANSFER_ENCODING := "Transfer-Encoding"

  /** The length of the body: none by status; not by length under a transfer coding; else the
      one Content-Length. None where the message does not say. */
  function BodyLength(status: nat, fields: seq<(string, string)>): Option<nat> {
    if 100 <= status < 200 || status == 204 || status == 304 then Some(0)
    else if exists i :: 0 <= i < |fields| && Named(fields[i], TRANSFER_ENCODING) then None
    else
      var ls := LengthsOf(fields);
      if |ls| == 1 && ls[0] != "" && DigitCount(ls[0]) == |ls[0]| then Some(Digits(ls[0])) else None
  }

  /** One response off the front of a stream. */
  function TakeResponse(data: string): (r: Option<Cut<Read>>)
    ensures r.Some? ==> |r.value.rest| < |data|
  {
    match TakeStatus(data)
    case None => None
    case Some(s) =>
      match TakeFields(s.rest)
      case None => None
      case Some(f) =>
        match BodyLength(s.value.0, f.value)
        case None => None
        case Some(n) =>
          if n > |f.rest| then None
          else Some(Cut(Read(s.value.0, s.value.1, f.value, f.rest[..n]), f.rest[n..]))
  }

  /** A whole stream of responses, back to back. */
  function TakeAll(data: string): Option<seq<Read>>
    decreases |data|
  {
    if data == "" then Some([])
    else
      match TakeResponse(data)
      case None => None
      case Some(one) =>
        match TakeAll(one.rest)
        case None => None
        case Some(more) => Some([one.value] + more)
  }

  // ----- numbers -----

  function Pow10(k: nat): nat { if k == 0 then 1 else 10 * Pow10(k - 1) }

  lemma {:induction false} DecLength(n: nat, k: nat)
    requires k >= 1
    ensures |Dec(n)| <= k <==> n < Pow10(k)
  {
    if n < 10 {
      PowGrows(k);
    } else if k == 1 {
    } else {
      DecLength(n / 10, k - 1);
      assert Pow10(k) == 10 * Pow10(k - 1);
    }
  }

  lemma {:induction false} PowGrows(k: nat)
    requires k >= 1
    ensures Pow10(k) >= 10
  {
    if k > 1 { PowGrows(k - 1); }
  }

  /** The length line is whole exactly for bodies under 10^13 bytes; beyond that the scratch
      buffer cuts off its line end. */
  lemma {:induction false} LengthLineWhole(n: nat)
    ensures LengthLine(n) == LENGTH_FIELD + Dec(n) + "\r\n" <==> n < 10_000_000_000_000
  {
    DecLength(n, 13);
    assert Pow10(13) == 10_000_000_000_000 by {
      assert Pow10(5) == 100_000;
      assert Pow10(9) == 10_000 * Pow10(5);
      assert Pow10(13) == 10_000 * Pow10(9);
    }
  }

  // ----- reading back what was written -----

  lemma {:induction false} LineTaken(line: string, rest: string)
    requires Free(line, '\r')
    ensures TakeLine(line + "\r\n" + rest) == Some(Cut(line, rest))
  {
    var data := line + "\r\n" + rest;
    assert data == line + ['\r'] + ("\n" + rest);
    FindAt(line, '\r', "\n" + rest);
    assert data[..|line|] == line && data[|line| + 2..] == rest;
  }

  lemma {:induction false} FieldsFront(hs: seq<(string, string)>)
    requires hs != []
    ensures FieldsText(hs) == FieldText(hs[0]) + FieldsText(hs[1..])
  {
    var n := |hs| - 1;
    if n == 0 {
      assert hs[..0] == [] && hs[1..] == [];
      assert FieldsText(hs) == "" + FieldText(hs[0]);
    } else {
      FieldsFront(hs[..n]);
      assert hs[..n][1..] == hs[1..][..n - 1];
      Join(FieldText(hs[0]), FieldsText(hs[1..][..n - 1]), FieldText(hs[n]));
    }
  }

  /** A field that stays one line, its name before the first colon. */
  predicate FieldFits(h: (string, string)) {
    Free(h.0, ':') && Free(h.0, '\r') && Free(h.0, '\n') && Free(h.1, '\r') && Free(h.1, '\n')
  }

  ghost predicate FieldsFit(hs: seq<(string, string)>) {
    forall i :: 0 <= i < |hs| ==> FieldFits(hs[i])
  }

  /** What a reader takes for the fields: spaces round a value are not part of it. */
  function Received(hs: seq<(string, string)>): seq<(string, string)> {
    if hs == [] then [] else [(hs[0].0, Trim(hs[0].1))] + Received(hs[1..])
  }

  /** A field's line, as the reader splits it. */
  lemma {:induction false} FieldSplits(h: (string, string))
    requires FieldFits(h)
    ensures var line := h.0 + ": " + h.1;
      && Free(line, '\r') && line != ""
      && Find(line, ':') == |h.0| < |line|
      && line[..|h.0|] == h.0 && Trim(line[|h.0| + 1..]) == Trim(h.1)
  {
    var line := h.0 + ": " + h.1;
    assert line == h.0 + [':'] + (" " + h.1);
    FindAt(h.0, ':', " " + h.1);
    assert line[|h.0| + 1..] == " " + h.1;
    assert (" " + h.1)[1..] == h.1;
  }

  lemma {:induction false} OneField(h: (string, string), rest: string)
    requires FieldFits(h)
    ensures TakeFields(FieldText(h) + rest)
         == match TakeFields(rest) case None => None case Some(more) => Some(Cut([(h.0, Trim(h.1))] + more.value, more.rest))
  {
    hide Trim, FieldFits;
    var line := h.0 + ": " + h.1;
    FieldSplits(h);
    LineTaken(line, rest);
    assert FieldText(h) + rest == line + "\r\n" + rest;
  }

  lemma {:induction false} FieldsTaken(hs: seq<(string, string)>, tail: string)
    requires FieldsFit(hs)
    ensures TakeFields(FieldsText(hs) + "\r\n" + tail) == Some(Cut(Received(hs), tail))
  {
    hide FieldText, Trim, TakeLine, Find;
    if hs == [] {
      LineTaken("", tail);
      assert FieldsText(hs) + "\r\n" + tail == "" + "\r\n" + tail;
    } else {
      var rest := FieldsText(hs[1..]) + "\r\n" + tail;
      FieldsTaken(hs[1..], tail);
      FieldsFront(hs);
      assert FieldsText(hs) + "\r\n" + tail == FieldText(hs[0]) + rest;
      OneField(hs[0], rest);
    }
  }

  /** The status codes that fit the enum's int. */
  const INT_END := 0x8000_0000

  lemma {:induction false} StatusWhole(status: nat)
    requires status < INT_END
    ensures Scratch(VERSION_PREFIX + Dec(status) + " ") == VERSION_PREFIX + Dec(status) + " "
  {
    DecLength(status, 10);
    assert Pow10(10) == 10_000_000_000 by {
      assert Pow10(5) == 100_000;
      assert Pow10(10) == 100_000 * Pow10(5);
    }
  }

  lemma {:induction false} StatusTaken(status: nat, reason: string, rest: string)
    requires status < INT_END && Free(reason, '\r')
    ensures TakeStatus(StatusLine(status, reason) + rest) == Some(Cut((status, reason), rest))
  {
    hide Dec, Digits, DigitCount;
    var d := Dec(status);
    var line := VERSION_PREFIX + d + " " + reason;
    StatusWhole(status);
    LineTaken(line, rest);
    assert StatusLine(status, reason) + rest == line + "\r\n" + rest;
    var tail := d + " " + reason;
    assert line == VERSION_PREFIX + tail;
    assert line[|VERSION_PREFIX|..] == tail;
    assert tail == d + [' '] + reason;
    FindAt(d, ' ', reason);
    assert tail[..|d|] == d && tail[|d| + 1..] == reason;
    CountDigits(d, "");
    assert d + "" == d;
    DigitsDec(status);
  }

  // ----- framing -----

  /** The status lets a response carry a body. */
  predicate CarriesBody(status: nat) { !(100 <= status < 200 || status == 204 || status == 304) }

  ghost predicate NoneNamed(hs: seq<(string, string)>, name: string) {
    forall i :: 0 <= i < |hs| ==> !Named(hs[i], name)
  }

  /** A kept-alive response whose parts fit their lines and whose framing is left to
      appendToBuffer. */
  ghost predicate WellResponse(r: Response) {
    && !r.close && r.status < INT_END && CarriesBody(r.status)
    && Free(r.reason, '\r') && Free(r.reason, '\n') && FieldsFit(r.headers)
    && NoneNamed(r.headers, CONTENT_LENGTH) && NoneNamed(r.headers, TRANSFER_ENCODING)
  }

  function ReadBack(r: Response): Read {
    Read(r.status, r.reason, [(CONTENT_LENGTH, Dec(|r.body|)), KEEP_ALIVE] + Received(r.headers), r.body)
  }

  lemma {:induction false} ReceivedNames(hs: seq<(string, string)>)
    ensures |Received(hs)| == |hs| && forall i :: 0 <= i < |hs| ==> Received(hs)[i].0 == hs[i].0
  {
    if hs != [] { ReceivedNames(hs[1..]); }
  }

  lemma {:induction false} NoLengths(fields: seq<(string, string)>)
    requires NoneNamed(fields, CONTENT_LENGTH)
    ensures LengthsOf(fields) == []
  {
    if fields != [] { NoLengths(fields[1..]); }
  }

  lemma {:induction false} OwnNames()
    ensures !Named((CONTENT_LENGTH, ""), TRANSFER_ENCODING)
    ensures !Named(KEEP_ALIVE, TRANSFER_ENCODING) && !Named(KEEP_ALIVE, CONTENT_LENGTH)
  {
    assert |Lower(CONTENT_LENGTH)| == 14 && |Lower(TRANSFER_ENCODING)| == 17 && |Lower(KEEP_ALIVE.0)| == 10;
  }

  /** The first field decides the length when no other speaks of it. */
  lemma {:induction false} LengthDecides(status: nat, value: string, others: seq<(string, string)>)
    requires CarriesBody(status)
    requires NoneNamed(others, CONTENT_LENGTH) && NoneNamed(others, TRANSFER_ENCODING)
    ensures BodyLength(status, [(CONTENT_LENGTH, value)] + others)
         == if value != "" && DigitCount(value) == |value| then Some(Digits(value)) else None
  {
    var fields := [(CONTENT_LENGTH, value)] + others;
    OwnNames();
    NoLengths(others);
    assert fields[1..] == others;
    assert Named(fields[0], CONTENT_LENGTH);
    assert LengthsOf(fields) == [value];
    forall i | 0 <= i < |fields| ensures !Named(fields[i], TRANSFER_ENCODING) {
      if i > 0 { assert fields[i] == others[i - 1]; }
    }
  }

  /** The fields after the first, as the reader sees them, say nothing of the length. */
  lemma {:induction false} OthersSilent(r: Response)
    requires WellResponse(r)
    ensures var others := [KEEP_ALIVE] + Received(r.headers);
      NoneNamed(others, CONTENT_LENGTH) && NoneNamed(others, TRANSFER_ENCODING)
    ensures NoneNamed(Received(r.headers), CONTENT_LENGTH) && NoneNamed(Received(r.headers), TRANSFER_ENCODING)
  {
    hide Lower;
    OwnNames();
    ReceivedNames(r.headers);
  }

  lemma {:induction false} DigitsTrimmed(s: string)
    requires s != "" && IsDigit(s[0]) && !IsSpace(s[|s| - 1])
    ensures Trim(s) == s
  {}

  /** What follows the status line, when the first field has the value `value`. */
  lemma {:induction false} FramedBy(r: Response, value: string, others: seq<(string, string)>, text: string, tail: string)
    requires WellResponse(r)
    requires value != "" && IsDigit(value[0]) && !IsSpace(value[|value| - 1]) && Free(value, '\r') && Free(value, '\n')
    requires FieldsFit(others)
    requires NoneNamed(Received(others), CONTENT_LENGTH) && NoneNamed(Received(others), TRANSFER_ENCODING)
    requires text == FieldText((CONTENT_LENGTH, value)) + FieldsText(others)
    ensures var n := if DigitCount(value) == |value| then Some(Digits(value)) else None;
      var rest := r.body + tail;
      TakeResponse(StatusLine(r.status, r.reason) + (text + "\r\n" + rest))
        == if n == None || n.value > |rest| then None
           else Some(Cut(Read(r.status, r.reason, [(CONTENT_LENGTH, value)] + Received(others), rest[..n.value]), rest[n.value..]))
  {
    hide *;
    var rest := r.body + tail;
    var fields := [(CONTENT_LENGTH, value)] + others;
    FramedParts(value, others);
    FieldsTaken(fields, rest);
    WellParts(r);
    StatusTaken(r.status, r.reason, text + "\r\n" + rest);
    LengthDecides(r.status, value, Received(others));
    TakeResponseIs(StatusLine(r.status, r.reason) + (text + "\r\n" + rest));
  }

  lemma {:induction false} WellParts(r: Response)
    requires WellResponse(r)
    ensures r.status < INT_END && Free(r.reason, '\r') && CarriesBody(r.status) && FieldsFit(r.headers) && !r.close
  {}

  lemma {:induction false} TakeResponseIs(data: string)
    ensures TakeResponse(data) ==
      match TakeStatus(data)
      case None => None
      case Some(s) =>
        match TakeFields(s.rest)
        case None => None
        case Some(f) =>
          match BodyLength(s.value.0, f.value)
          case None => None
          case Some(n) =>
            if n > |f.rest| then None
            else Some(Cut(Read(s.value.0, s.value.1, f.value, f.rest[..n]), f.rest[n..]))
  {}

  lemma {:induction false} FramedParts(value: string, others: seq<(string, string)>)
    requires value != "" && IsDigit(value[0]) && !IsSpace(value[|value| - 1]) && Free(value, '\r') && Free(value, '\n')
    requires FieldsFit(others)
    ensures var fields := [(CONTENT_LENGTH, value)] + others;
      && FieldsFit(fields)
      && FieldsText(fields) == FieldText((CONTENT_LENGTH, value)) + FieldsText(others)
      && Received(fields) == [(CONTENT_LENGTH, value)] + Received(others)
  {
    hide Trim, FieldText;
    var fields := [(CONTENT_LENGTH, value)] + others;
    assert fields[1..] == others;
    FieldsFront(fields);
    DigitsTrimmed(value);
    assert FieldFits(fields[0]);
    forall i | 0 <= i < |fields| ensures FieldFits(fields[i]) {
      if i > 0 { assert fields[i] == others[i - 1]; }
    }
  }

  /** The written response, cut after its status line. */
  lemma {:induction false} WrittenParts(r: Response, tail: string)
    requires !r.close
    ensures var text := LengthLine(|r.body|) + FieldText(KEEP_ALIVE) + FieldsText(r.headers);
      Written(r) + tail == StatusLine(r.status, r.reason) + (text + "\r\n" + (r.body + tail))
  {
    hide StatusLine, LengthLine, FieldText, FieldsText;
    var line, framing, fields := StatusLine(r.status, r.reason), LengthLine(|r.body|) + FieldText(KEEP_ALIVE), FieldsText(r.headers);
    Join(line, framing, fields);
    Join(line, framing + fields, "\r\n");
    Join(line, framing + fields + "\r\n", r.body);
    Join(line, framing + fields + "\r\n" + r.body, tail);
    Join(framing + fields + "\r\n", r.body, tail);
  }

  /** A field of the writer's own in front of the user's. */
  lemma {:induction false} OwnFieldAndMore(own: (string, string), headers: seq<(string, string)>)
    requires FieldFits(own) && Trim(own.1) == own.1 && FieldsFit(headers)
    ensures var others := [own] + headers;
      && FieldsFit(others)
      && FieldsText(others) == FieldText(own) + FieldsText(headers)
      && Received(others) == [own] + Received(headers)
  {
    hide Trim, FieldText;
    var others := [own] + headers;
    assert others[1..] == headers;
    FieldsFront(others);
    forall i | 0 <= i < |others| ensures FieldFits(others[i]) {
      if i > 0 { assert others[i] == headers[i - 1]; }
    }
  }

  lemma {:induction false} OwnFieldsFit()
    ensures FieldFits(KEEP_ALIVE) && Trim(KEEP_ALIVE.1) == KEEP_ALIVE.1
    ensures FieldFits(CLOSE) && Trim(CLOSE.1) == CLOSE.1
  {}

  lemma {:induction false} DigitsPlain(s: string)
    requires s != "" && forall i :: 0 <= i < |s| ==> IsDigit(s[i])
    ensures IsDigit(s[0]) && !IsSpace(s[|s| - 1]) && Free(s, '\r') && Free(s, '\n')
  {}

  lemma {:induction false} FramingHolds(r: Response, tail: string)
    requires WellResponse(r) && |r.body| < 10_000_000_000_000
    ensures TakeResponse(Written(r) + tail) == Some(Cut(ReadBack(r), tail))
  {
    hide *;
    var n := |r.body|;
    var value, others := Dec(n), [KEEP_ALIVE] + r.headers;
    WellParts(r);
    OwnFieldsFit();
    OwnFieldAndMore(KEEP_ALIVE, r.headers);
    OthersSilent(r);
    DecFacts(n);
    var text := FieldText((CONTENT_LENGTH, value)) + FieldsText(others);
    FramedBy(r, value, others, text, tail);
    WholeLength(n);
    Join(LengthLine(n), FieldText(KEEP_ALIVE), FieldsText(r.headers));
    WrittenParts(r, tail);
    assert (r.body + tail)[..n] == r.body && (r.body + tail)[n..] == tail;
    ReadBackIs(r);
    assert [(CONTENT_LENGTH, value)] + ([KEEP_ALIVE] + Received(r.headers))
        == [(CONTENT_LENGTH, value), KEEP_ALIVE] + Received(r.headers);
  }

  lemma {:induction false} ReadBackIs(r: Response)
    ensures ReadBack(r)
         == Read(r.status, r.reason, [(CONTENT_LENGTH, Dec(|r.body|)), KEEP_ALIVE] + Received(r.headers), r.body)
  {}

  lemma {:induction false} DecFacts(n: nat)
    ensures var s := Dec(n);
      && s != "" && IsDigit(s[0]) && !IsSpace(s[|s| - 1]) && Free(s, '\r') && Free(s, '\n')
      && DigitCount(s) == |s| && Digits(s) == n
  {
    DigitsPlain(Dec(n));
    CountDigits(Dec(n), "");
    assert Dec(n) + "" == Dec(n);
    DigitsDec(n);
  }

  lemma {:induction false} WholeLength(n: nat)
    requires n < 10_000_000_000_000
    ensures LengthLine(n) == FieldText((CONTENT_LENGTH, Dec(n)))
  {
    LengthLineWhole(n);
    assert LENGTH_FIELD == CONTENT_LENGTH + ": ";
  }

  /** A length line that lost its line feed has no line end. */
  lemma {:induction false} LostLineFeed(n: nat, rest: string)
    requires |Dec(n)| == 14
    ensures TakeFields(LengthLine(n) + FieldText(KEEP_ALIVE) + rest) == None
  {
    hide Trim, Dec;
    var line := LENGTH_FIELD + Dec(n);
    DecFacts(n);
    assert LengthLine(n) == line + "\r";
    var more := FieldText(KEEP_ALIVE) + rest;
    assert LengthLine(n) + FieldText(KEEP_ALIVE) + rest == line + ['\r'] + more;
    FindAt(line, '\r', more);
    assert (line + ['\r'] + more)[|line| + 1] == more[0] == FieldText(KEEP_ALIVE)[0] == 'C';
  }

  /** A length line that lost its whole line end runs into the next field. */
  lemma {:induction false} LostLineEnd(n: nat)
    requires |Dec(n)| >= 15
    ensures var value := Dec(n)[..15] + "Connection: Keep-Alive";
      && LengthLine(n) + FieldText(KEEP_ALIVE) == FieldText((CONTENT_LENGTH, value))
      && IsDigit(value[0]) && !IsSpace(value[|value| - 1]) && Free(value, '\r') && Free(value, '\n')
      && DigitCount(value) < |value|
  {
    hide Dec;
    var d := Dec(n)[..15];
    var value := d + "Connection: Keep-Alive";
    assert LengthLine(n) == LENGTH_FIELD + d;
    assert FieldText(KEEP_ALIVE) == "Connection: Keep-Alive" + "\r\n";
    assert LENGTH_FIELD == CONTENT_LENGTH + ": ";
    assert LENGTH_FIELD + d + ("Connection: Keep-Alive" + "\r\n") == CONTENT_LENGTH + ": " + value + "\r\n";
    assert !IsDigit(value[15]);
  }

  lemma {:induction false} FramingFails(r: Response, tail: string)
    requires WellResponse(r) && |r.body| >= 10_000_000_000_000
    ensures TakeResponse(Written(r) + tail) == None
  {
    hide *;
    var n := |r.body|;
    WellParts(r);
    WrittenParts(r, tail);
    OthersSilent(r);
    Decades(n);
    var text := LengthLine(n) + FieldText(KEEP_ALIVE) + FieldsText(r.headers);
    var rest := "\r\n" + (r.body + tail);
    if |Dec(n)| == 14 {
      LostLineFeed(n, FieldsText(r.headers) + rest);
      Join(LengthLine(n) + FieldText(KEEP_ALIVE), FieldsText(r.headers), rest);
      Join(text, "\r\n", r.body + tail);
      StatusTaken(r.status, r.reason, text + rest);
      TakeResponseIs(StatusLine(r.status, r.reason) + (text + rest));
    } else {
      LostLineEnd(n);
      FramedBy(r, Dec(n)[..15] + "Connection: Keep-Alive", r.headers, text, tail);
    }
  }

  lemma {:induction false} Decades(n: nat)
    requires n >= 10_000_000_000_000
    ensures |Dec(n)| >= 14
  {
    DecLength(n, 13);
    LengthLineWhole(n);
    assert |LENGTH_FIELD| == 16;
  }

  /** Exactly the responses whose body is under 10^13 bytes can be read back, and from those a
      reader gets the status, the reason, the fields and the body that were written. */
  lemma {:induction false} FramingExact(r: Response, tail: string)
    requires WellResponse(r)
    ensures TakeResponse(Written(r) + tail).Some? <==> |r.body| < 10_000_000_000_000
    ensures |r.body| < 10_000_000_000_000 ==> TakeResponse(Written(r) + tail) == Some(Cut(ReadBack(r), tail))
  {
    hide *;
    if |r.body| < 10_000_000_000_000 { FramingHolds(r, tail); } else { FramingFails(r, tail); }
  }

  // ----- closing responses -----

  /** A response that says nothing of its length, up to the end of the stream. */
  function TakeToEnd(data: string): Option<Read> {
    match TakeStatus(data)
    case None => None
    case Some(s) =>
      match TakeFields(s.rest)
      case None => None
      case Some(f) =>
        if LengthsOf(f.value) == [] && !(exists i :: 0 <= i < |f.value| && Named(f.value[i], TRANSFER_ENCODING))
        then Some(Read(s.value.0, s.value.1, f.value, f.rest))
        else None
  }

  /** A reader to the end of the stream gets a closing response back, whatever its length: its
      status, its reason, that it closes, its fields and its body. */
  lemma {:induction false} ClosingExact(r: Response)
    requires r.close && WellResponse(r.(close := false))
    ensures TakeToEnd(Written(r)) == Some(Read(r.status, r.reason, [CLOSE] + Received(r.headers), r.body))
  {
    hide StatusLine, FieldText, FieldsText, TakeStatus, TakeFields, Received, Named, LengthsOf, Trim;
    var all := [CLOSE] + r.headers;
    OwnFieldsFit();
    OwnFieldAndMore(CLOSE, r.headers);
    var rest := FieldsText(all) + "\r\n" + r.body;
    assert Written(r) == StatusLine(r.status, r.reason) + rest;
    StatusTaken(r.status, r.reason, rest);
    FieldsTaken(all, r.body);
    ClosingSilent(r);
  }

  lemma {:induction false} ClosingSilent(r: Response)
    requires WellResponse(r.(close := false))
    ensures var fields := [CLOSE] + Received(r.headers);
      LengthsOf(fields) == [] && !(exists i :: 0 <= i < |fields| && Named(fields[i], TRANSFER_ENCODING))
  {
    hide Lower;
    var fields := [CLOSE] + Received(r.headers);
    CloseName();
    ReceivedNames(r.headers);
    NoLengths(fields);
  }

  lemma {:induction false} CloseName()
    ensures !Named(CLOSE, TRANSFER_ENCODING) && !Named(CLOSE, CONTENT_LENGTH)
  {
    assert |Lower(CONTENT_LENGTH)| == 14 && |Lower(TRANSFER_ENCODING)| == 17 && |Lower(CLOSE.0)| == 10;
  }

  // ----- streams -----

  ghost predicate AllSendable(rs: seq<Response>) {
    forall i :: 0 <= i < |rs| ==> WellResponse(rs[i]) && |rs[i].body| < 10_000_000_000_000
  }

  function WrittenAll(rs: seq<Response>): string {
    if rs == [] then "" else Written(rs[0]) + WrittenAll(rs[1..])
  }

  function ReadBackAll(rs: seq<Response>): (all: seq<Read>)
    ensures |all| == |rs| && forall i :: 0 <= i < |rs| ==> all[i] == ReadBack(rs[i])
  {
    if rs == [] then [] else [ReadBack(rs[0])] + ReadBackAll(rs[1..])
  }

  /** Responses written back to back are read back one by one. */
  lemma {:induction false} StreamSplits(rs: seq<Response>)
    requires AllSendable(rs)
    ensures TakeAll(WrittenAll(rs)) == Some(ReadBackAll(rs))
  {
    hide TakeResponse, Written, ReadBack, WellResponse;
    if rs != [] {
      FramingExact(rs[0], WrittenAll(rs[1..]));
      StreamSplits(rs[1..]);
      assert WrittenAll(rs) != "" by { SomethingTaken(WrittenAll(rs)); }
    }
  }

  lemma {:induction false} SomethingTaken(data: string)
    requires TakeResponse(data).Some?
    ensures data != ""
  {}

  /** So no byte stream is two different lists of responses. */
  lemma {:induction false} SplitUnique(rs: seq<Response>, qs: seq<Response>)
    requires AllSendable(rs) && AllSendable(qs) && WrittenAll(rs) == WrittenAll(qs)
    ensures |rs| == |qs|
    ensures forall i :: 0 <= i < |rs| ==> ReadBack(rs[i]) == ReadBack(qs[i])
    ensures forall i :: 0 <= i < |rs| ==> rs[i].status == qs[i].status && rs[i].reason == qs[i].reason && rs[i].body == qs[i].body
  {
    hide TakeAll, WrittenAll, AllSendable;
    StreamSplits(rs);
    StreamSplits(qs);
    forall i | 0 <= i < |rs|
      ensures ReadBack(rs[i]) == ReadBack(qs[i])
    {
      assert ReadBackAll(rs)[i] == ReadBackAll(qs)[i];
    }
  }
}
