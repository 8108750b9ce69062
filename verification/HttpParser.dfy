/** The two-level state machine of HttpContext and the message loop of HttpServer,
    as functions of the context and of the readable bytes. */
module HttpParser {
  import opened Basics
  import opened HttpMessage

  datatype ProcessState = ParseUri | ParseHeaders | RecvBody | Analysis | Finish

  datatype HState = Start | Key | Colon | Spaces | Value | Cr | Lf | EndCr | EndLf

  /** The fields of HttpContext. */
  datatype Context = Context(state: ProcessState, hState: HState, request: Request)

  const FRESH := Context(ParseUri, Start, NO_REQUEST)

  // ----- parseURI -----

  datatype Flag = Success | Again | Error

  datatype UriResult = UriResult(flag: Flag, request: Request, rest: string)

  datatype LineResult = LineResult(ok: bool, request: Request)

  /** The part of parseURI between finding CR and testing for LF: method, target, version. */
  function LineStep(r: Request, line: string): LineResult {
    var space := Find(line, ' ');
    if space == |line| then LineResult(false, r)
    else
      var r1 := r.(verb := MethodOf(line[..space]));
      var tail := line[space + 1..];
      var space2 := Find(tail, ' ');
      if r1.verb == Invalid || space2 == |tail| then LineResult(false, r1)
      else
        var target := tail[..space2];
        var question := Find(target, '?');
        var r2 :=
          if question < |target| then r1.(path := target[..question], query := target[question + 1..])
          else r1.(path := target);
        var version := VersionOf(tail[space2 + 1..]);
        if version == Unknown then LineResult(false, r2) else LineResult(true, r2.(version := version))
  }

  /** parseURI on the readable bytes. `beyond` is the byte after them in memory, which the
      test for LF reads when CR is the last readable byte. */
  function UriStep(r: Request, data: string, beyond: char): UriResult {
    var cr := Find(data, '\r');
    if cr == |data| then UriResult(Again, r, data)
    else
      var l := LineStep(r, data[..cr]);
      var next := if cr + 1 < |data| then data[cr + 1] else beyond;
      if !l.ok || next != '\n' then UriResult(Error, l.request, data)
      else UriResult(Success, l.request, if cr + 2 < |data| then data[cr + 2..] else "")
  }

  // ----- parseHeaders -----

  /** The state of the character loop: hState_, request_ and the four local pointers, as
      offsets from the first readable byte with None for the null pointer. */
  datatype Cursor = Cursor(
    h: HState,
    request: Request,
    keyStart: Option<nat>,
    keyEnd: Option<nat>,
    valStart: Option<nat>,
    valEnd: Option<nat>)

  /** What one character leads to. `Fault` is the exception or the invalid read that a null
      pointer causes, in a log line or in addHeader. */
  datatype Scan = More(cursor: Cursor) | Ended(cursor: Cursor) | Broken(cursor: Cursor) | Fault

  /** addHeader on the field that the pointers mark off. */
  function Added(r: Request, data: string, keyStart: nat, keyEnd: nat, end: nat): Request
    requires keyStart <= keyEnd < end <= |data|
  {
    r.(headers := r.headers[data[keyStart..keyEnd] := Trim(data[keyEnd + 1..end])])
  }

  /** The end of a field: addHeader with the pointers found so far. */
  function EndField(c: Cursor, data: string, end: nat): Scan {
    if c.keyStart.Some? && c.keyEnd.Some? && c.keyStart.value <= c.keyEnd.value < end <= |data|
    then More(c.(h := Lf, request := Added(c.request, data, c.keyStart.value, c.keyEnd.value, end)))
    else Fault
  }

  function OnChar(c: Cursor, data: string, i: nat): Scan
    requires i < |data|
  {
    var ch := data[i];
    match c.h
    case Start => if ch == '\n' || ch == '\r' then More(c) else More(c.(h := Key, keyStart := Some(i)))
    case Key =>
      if ch == ':' then (if c.keyStart.None? then Fault else More(c.(h := Colon, keyEnd := Some(i))))
      else if ch == '\n' || ch == '\r' then Broken(c)
      else More(c)
    case Colon =>
      if ch == ' ' then (if c.keyEnd.None? then Fault else More(c.(h := Spaces))) else Broken(c)
    case Spaces => More(c.(h := Value, valStart := Some(i)))
    case Value =>
      if ch == '\r' then (if c.valStart.None? then Fault else More(c.(h := Cr, valEnd := Some(i))))
      else if ch == '\n' then
        if c.valStart.None? then Fault else EndField(c.(valEnd := Some(i)), data, i)
      else More(c)
    case Cr =>
      if ch == '\n' then (if c.valEnd.None? then Fault else EndField(c, data, c.valEnd.value)) else Broken(c)
    case Lf => if ch == '\r' then More(c.(h := EndCr)) else More(c.(h := Key, keyStart := Some(i)))
    case EndCr => if ch == '\n' then Ended(c.(h := EndLf)) else Broken(c)
    case EndLf => More(c)
  }

  /** How the loop of parseHeaders ends: `used` bytes are retrieved on success. */
  datatype HeaderResult =
    | HeadersDone(h: HState, request: Request, used: nat)
    | HeadersAgain(h: HState, request: Request)
    | HeadersBroken(h: HState, request: Request)
    | HeadersFault

  function ScanFrom(c: Cursor, data: string, i: nat): (r: HeaderResult)
    requires i <= |data|
    ensures r.HeadersDone? ==> i < r.used <= |data|
    decreases |data| - i
  {
    if i == |data| then HeadersAgain(c.h, c.request)
    else
      match OnChar(c, data, i)
      case More(c') => ScanFrom(c', data, i + 1)
      case Ended(c') => HeadersDone(c'.h, c'.request, i + 1)
      case Broken(c') => HeadersBroken(c'.h, c'.request)
      case Fault => HeadersFault
  }

  function HeaderStep(h: HState, r: Request, data: string): HeaderResult {
    ScanFrom(Cursor(h, r, None, None, None, None), data, 0)
  }

  // ----- parseRequest -----

  /** Waiting: more bytes are needed, or the request is complete. Bad: parseRequest returned
      false. Crashed: an uncaught exception or an invalid read. */
  datatype Outcome = Waiting | Bad | Crashed

  datatype Parsed = Parsed(outcome: Outcome, context: Context, rest: string)

  function Rank(s: ProcessState): nat {
    match s case ParseUri => 4 case ParseHeaders => 3 case RecvBody => 2 case Analysis => 1 case Finish => 0
  }

  /** parseRequest. It would not return from the Finish state. */
  function Parse(c: Context, data: string, time: int, beyond: char): (p: Parsed)
    requires c.state != Finish
    ensures p.context.state != Analysis
    ensures |p.rest| <= |data|
    ensures c.state == ParseUri && p.context.state == Finish ==> |p.rest| < |data|
    ensures p.context.state == Finish ==> p.outcome == Waiting
    decreases Rank(c.state)
  {
    match c.state
    case ParseUri =>
      var u := UriStep(c.request, data, beyond);
      if u.flag == Again then Parsed(Waiting, c.(request := u.request), u.rest)
      else if u.flag == Error then Parsed(Bad, c.(request := u.request), u.rest)
      else Parse(c.(state := ParseHeaders, request := u.request.(receiveTime := time)), u.rest, time, beyond)
    case ParseHeaders =>
      (match HeaderStep(c.hState, c.request, data)
       case HeadersAgain(h, r) => Parsed(Waiting, c.(hState := h, request := r), data)
       case HeadersBroken(h, r) => Parsed(Bad, c.(hState := h, request := r), data)
       case HeadersFault => Parsed(Crashed, c, data)
       case HeadersDone(h, r, used) =>
         Parse(Context(if r.verb == Post then RecvBody else Analysis, h, r), data[used..], time, beyond))
    case RecvBody =>
      if CONTENT_LENGTH in c.request.headers then
        match Stoul(c.request.headers[CONTENT_LENGTH])
        case None => Parsed(Crashed, c, data)
        case Some(len) =>
          if |data| >= len
          then Parse(c.(state := Analysis, request := c.request.(body := data[..len])), data[len..], time, beyond)
          else Parsed(Waiting, c, data)
      else Parse(c.(state := Analysis), data, time, beyond)
    case Analysis => Parsed(Waiting, c.(state := Finish), data)
  }

  // ----- onMessage -----

  /** What one delivery of bytes leads to: the requests handed to onRequest in order. */
  datatype Served = Served(requests: seq<Request>, outcome: Outcome, context: Context, rest: string)

  /** HttpServer::onMessage. */
  function Serve(c: Context, data: string, time: int, beyond: char): (s: Served)
    requires c.state != Finish
    ensures s.context.state != Finish
    decreases |data|, Rank(ParseUri) - Rank(c.state)
  {
    if data == "" then Served([], Waiting, c, data)
    else
      var p := Parse(c, data, time, beyond);
      if p.context.state == Finish then
        var more := Serve(FRESH, p.rest, time, beyond);
        more.(requests := [p.context.request] + more.requests)
      else Served([], p.outcome, p.context, p.rest)
  }

  /** Bytes that arrive at once, when, and the byte behind them in memory. */
  datatype Delivery = Delivery(bytes: string, time: int, beyond: char)

  /** The worse of two outcomes, for a delivery that did not crash. */
  function Worse(first: Outcome, second: Outcome): Outcome { if second == Waiting then first else second }

  /** One delivery after the other. A bad request is answered and half-closes the connection,
      but what arrives after it is parsed as before; only a crash is the end. */
  function ServeAll(c: Context, rest: string, ds: seq<Delivery>): (s: Served)
    requires c.state != Finish
    ensures s.context.state != Finish
    decreases |ds|
  {
    if ds == [] then Served([], Waiting, c, rest)
    else
      var s := Serve(c, rest + ds[0].bytes, ds[0].time, ds[0].beyond);
      if s.outcome == Crashed then s
      else
        var more := ServeAll(s.context, s.rest, ds[1..]);
        more.(requests := s.requests + more.requests, outcome := Worse(s.outcome, more.outcome))
  }
}
