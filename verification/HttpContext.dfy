/** HttpContext and the loop of HttpServer::onMessage as they run: over a Buffer, with
    the state, the header state and the request updated in place. */
module HttpContext {
  import opened Basics
  import opened HttpMessage
  import opened HttpParser
  import opened ByteBuffer

  /** The byte in memory after the readable ones; `oob` where the array ends there. */
  ghost function Beyond(buf: Buffer, oob: char): char
    requires buf.Valid()
    reads buf, buf.data
  {
    if buf.writerIndex < buf.data.Length then buf.data[buf.writerIndex] else oob
  }

  /** The two trimming loops of addHeader. */
  method TrimBoth(s: string) returns (t: string)
    ensures t == Trim(s)
  {
    var i := 0;
    while i < |s| && IsSpace(s[i])
      invariant i <= |s| && TrimLeft(s[i..]) == TrimLeft(s)
    {
      assert s[i..][1..] == s[i + 1..];
      i := i + 1;
    }
    t := s[i..];
    while t != "" && IsSpace(t[|t| - 1])
      invariant TrimRight(t) == TrimRight(TrimLeft(s))
      decreases |t|
    {
      t := t[..|t| - 1];
    }
  }

  /** The four local pointers of parseHeaders. */
  datatype Marks = Marks(keyStart: Option<nat>, keyEnd: Option<nat>, valStart: Option<nat>, valEnd: Option<nat>)

  const NO_MARKS := Marks(None, None, None, None)

  datatype Verdict = Go | End | Stop | Null

  ghost function At(h: HState, r: Request, m: Marks): Cursor {
    Cursor(h, r, m.keyStart, m.keyEnd, m.valStart, m.valEnd)
  }

  class Parser {
    var state: ProcessState
    var hState: HState
    var request: Request

    ghost function Ctx(): Context
      reads this
    {
      Context(state, hState, request)
    }

    constructor ()
      ensures Ctx() == FRESH
    {
      state, hState, request := ParseUri, Start, NO_REQUEST;
    }

    method Reset()
      modifies this
      ensures Ctx() == FRESH
    {
      state, hState, request := ParseUri, Start, NO_REQUEST;
    }

    /** parseURI. */
    method ParseURI(buf: Buffer, oob: char) returns (flag: Flag)
      requires buf.Valid()
      modifies this`request, buf`readerIndex, buf`writerIndex
      ensures buf.Valid()
      ensures UriResult(flag, request, buf.Contents()) == UriStep(old(request), old(buf.Contents()), old(Beyond(buf, oob)))
      ensures buf.Contents() != "" ==> buf.writerIndex == old(buf.writerIndex)
    {
      hide LineStep;
      var data := buf.data[buf.readerIndex..buf.writerIndex];
      var cr := Find(data, '\r');
      if cr == |data| { return Again; }
      var ok := ParseLine(data[..cr]);
      if !ok { return Error; }
      var next := if buf.readerIndex + cr + 1 < buf.data.Length then buf.data[buf.readerIndex + cr + 1] else oob;
      if next != '\n' { return Error; }
      buf.Retrieve(cr + 2);
      return Success;
    }

    /** The request line without its CR. */
    method ParseLine(line: string) returns (ok: bool)
      modifies this`request
      ensures LineResult(ok, request) == LineStep(old(request), line)
    {
      var space := Find(line, ' ');
      if space == |line| { return false; }
      request := request.(verb := MethodOf(line[..space]));
      if request.verb == Invalid { return false; }
      var tail := line[space + 1..];
      var space2 := Find(tail, ' ');
      if space2 == |tail| { return false; }
      var target := tail[..space2];
      var question := Find(target, '?');
      if question < |target| {
        request := request.(path := target[..question]);
        request := request.(query := target[question + 1..]);
      } else {
        request := request.(path := target);
      }
      var version := VersionOf(tail[space2 + 1..]);
      if version == Unknown { return false; }
      request := request.(version := version);
      return true;
    }

    /** parseHeaders: the character loop. `fault` reports the use of a null pointer. */
    method ParseHeaders(buf: Buffer) returns (flag: Flag, fault: bool)
      requires buf.Valid()
      modifies this`request, this`hState, buf`readerIndex, buf`writerIndex
      ensures buf.Valid()
      ensures buf.Contents() != "" ==> buf.writerIndex == old(buf.writerIndex)
      ensures |buf.Contents()| <= |old(buf.Contents())|
      ensures var data := old(buf.Contents());
        match HeaderStep(old(hState), old(request), data)
        case HeadersAgain(h, r) => !fault && flag == Again && hState == h && request == r && buf.Contents() == data
        case HeadersBroken(h, r) => !fault && flag == Error && hState == h && request == r && buf.Contents() == data
        case HeadersDone(h, r, used) =>
          !fault && flag == Success && hState == h && request == r && buf.Contents() == data[used..]
        case HeadersFault => fault
    {
      hide OnChar;
      var data := buf.data[buf.readerIndex..buf.writerIndex];
      var marks := NO_MARKS;
      var current := 0;
      while current < |data|
        invariant current <= |data|
        invariant buf.readerIndex == old(buf.readerIndex) && buf.writerIndex == old(buf.writerIndex)
        invariant ScanFrom(At(hState, request, marks), data, current) == HeaderStep(old(hState), old(request), data)
      {
        var verdict;
        verdict, marks := Advance(data, current, marks);
        match verdict {
          case Go =>
          case Stop => return Error, false;
          case Null => return Error, true;
          case End =>
            buf.Retrieve(current + 1);
            return Success, false;
        }
        current := current + 1;
      }
      return Again, false;
    }

    /** The switch of parseHeaders on one character. */
    method Advance(data: string, current: nat, marks0: Marks) returns (verdict: Verdict, marks: Marks)
      requires current < |data|
      modifies this`request, this`hState
      ensures match OnChar(At(old(hState), old(request), marks0), data, current)
        case More(c) => verdict == Go && c == At(hState, request, marks)
        case Ended(c) => verdict == End && c == At(hState, request, marks)
        case Broken(c) => verdict == Stop && c == At(hState, request, marks)
        case Fault => verdict == Null
    {
      hide Trim;
      marks, verdict := marks0, Go;
      var ch := data[current];
      match hState {
        case Start =>
          if !(ch == '\n' || ch == '\r') { hState, marks := Key, marks.(keyStart := Some(current)); }
        case Key =>
          if ch == ':' {
            if marks.keyStart.None? { return Null, marks; }
            hState, marks := Colon, marks.(keyEnd := Some(current));
          } else if ch == '\n' || ch == '\r' {
            verdict := Stop;
          }
        case Colon =>
          if ch != ' ' { return Stop, marks; }
          if marks.keyEnd.None? { return Null, marks; }
          hState := Spaces;
        case Spaces =>
          hState, marks := Value, marks.(valStart := Some(current));
        case Value =>
          if ch == '\r' {
            if marks.valStart.None? { return Null, marks; }
            hState, marks := Cr, marks.(valEnd := Some(current));
          } else if ch == '\n' {
            if marks.valStart.None? { return Null, marks; }
            marks := marks.(valEnd := Some(current));
            var ok := AddHeader(data, marks, current);
            if !ok { return Null, marks; }
            hState := Lf;
          }
        case Cr =>
          if ch != '\n' { return Stop, marks; }
          if marks.valEnd.None? { return Null, marks; }
          var ok := AddHeader(data, marks, marks.valEnd.value);
          if !ok { return Null, marks; }
          hState := Lf;
        case Lf =>
          if ch == '\r' { hState := EndCr; } else { hState, marks := Key, marks.(keyStart := Some(current)); }
        case EndCr =>
          if ch != '\n' { return Stop, marks; }
          hState, verdict := EndLf, End;
        case EndLf =>
      }
    }

    /** addHeader; false where a pointer is null. */
    method AddHeader(data: string, marks: Marks, end: nat) returns (ok: bool)
      modifies this`request
      ensures match EndField(At(hState, old(request), marks), data, end)
        case More(c) => ok && request == c.request
        case _ => !ok
    {
      ok := marks.keyStart.Some? && marks.keyEnd.Some? && marks.keyStart.value <= marks.keyEnd.value < end <= |data|;
      if ok {
        var value := TrimBoth(data[marks.keyEnd.value + 1..end]);
        request := request.(headers := request.headers[data[marks.keyStart.value..marks.keyEnd.value] := value]);
      }
    }

    /** A branch of parseRequest either goes on from its new state, or ends it. */
    static ghost predicate Continues(c: Context, data: string, time: int, b: char,
                                     hasMore: bool, outcome: Outcome, c': Context, data': string)
      requires c.state != Finish
    {
      var p := Parse(c, data, time, b);
      if hasMore then
        outcome == Waiting && c'.state != Finish && Rank(c'.state) < Rank(c.state) && Parse(c', data', time, b) == p
      else
        outcome == p.outcome && (outcome != Crashed ==> Parsed(outcome, c', data') == p)
    }

    /** Bytes only leave, and the writer index stays while some are left. */
    static ghost predicate Keeps(data: string, writer: nat, buf: Buffer)
      requires buf.Valid()
      reads buf, buf.data
    {
      |buf.Contents()| <= |data| && (buf.Contents() != "" ==> buf.writerIndex == writer)
    }

    method UriPhase(buf: Buffer, time: int, oob: char, ghost b: char) returns (hasMore: bool, outcome: Outcome)
      requires buf.Valid() && state == ParseUri && b == Beyond(buf, oob)
      modifies this, buf`readerIndex, buf`writerIndex
      ensures buf.Valid() && Keeps(old(buf.Contents()), old(buf.writerIndex), buf)
      ensures Continues(old(Ctx()), old(buf.Contents()), time, b, hasMore, outcome, Ctx(), buf.Contents())
    {
      hide LineStep, HeaderStep, Stoul;
      hasMore, outcome := false, Waiting;
      var flag := ParseURI(buf, oob);
      if flag == Error {
        outcome := Bad;
      } else if flag == Success {
        request := request.(receiveTime := time);
        state := ProcessState.ParseHeaders;
        hasMore := true;
      }
    }

    method HeaderPhase(buf: Buffer, time: int, ghost b: char) returns (hasMore: bool, outcome: Outcome)
      requires buf.Valid() && state == ProcessState.ParseHeaders
      modifies this, buf`readerIndex, buf`writerIndex
      ensures buf.Valid() && Keeps(old(buf.Contents()), old(buf.writerIndex), buf)
      ensures Continues(old(Ctx()), old(buf.Contents()), time, b, hasMore, outcome, Ctx(), buf.Contents())
    {
      hide UriStep, ScanFrom, Stoul;
      hasMore, outcome := false, Waiting;
      var flag, fault := ParseHeaders(buf);
      if fault {
        outcome := Crashed;
      } else if flag == Error {
        outcome := Bad;
      } else if flag == Success {
        state := if request.verb == Post then RecvBody else Analysis;
        hasMore := true;
      }
    }

    method BodyPhase(buf: Buffer, time: int, ghost b: char) returns (hasMore: bool, outcome: Outcome)
      requires buf.Valid() && state == RecvBody
      modifies this, buf`readerIndex, buf`writerIndex
      ensures buf.Valid() && Keeps(old(buf.Contents()), old(buf.writerIndex), buf)
      ensures Continues(old(Ctx()), old(buf.Contents()), time, b, hasMore, outcome, Ctx(), buf.Contents())
    {
      hide UriStep, HeaderStep, Stoul;
      hasMore, outcome := true, Waiting;
      if CONTENT_LENGTH in request.headers {
        var len := Stoul(request.headers[CONTENT_LENGTH]);
        if len.None? {
          hasMore, outcome := false, Crashed;
        } else if buf.ReadableBytes() >= len.value {
          var data := buf.data[buf.readerIndex..buf.writerIndex];
          request := request.(body := data[..len.value]);
          buf.Retrieve(len.value);
          assert buf.Contents() == old(buf.Contents())[len.value..];
          state := Analysis;
        } else {
          hasMore := false;
        }
      } else {
        state := Analysis;
      }
    }

    method AnalysisPhase(data: string, time: int, ghost b: char)
      requires state == Analysis
      modifies this
      ensures Continues(old(Ctx()), data, time, b, false, Waiting, Ctx(), data)
    {
      state := Finish;
    }

    /** parseRequest. */
    method ParseRequest(buf: Buffer, time: int, oob: char) returns (outcome: Outcome)
      requires buf.Valid() && state != Finish
      modifies this, buf`readerIndex, buf`writerIndex
      ensures buf.Valid() && Keeps(old(buf.Contents()), old(buf.writerIndex), buf)
      ensures var p := Parse(old(Ctx()), old(buf.Contents()), time, old(Beyond(buf, oob)));
        outcome == p.outcome && (outcome != Crashed ==> Ctx() == p.context && buf.Contents() == p.rest)
    {
      hide Parse;
      ghost var b := Beyond(buf, oob);
      outcome := Waiting;
      var hasMore := true;
      while hasMore
        invariant buf.Valid() && Keeps(old(buf.Contents()), old(buf.writerIndex), buf)
        invariant hasMore ==> state != Finish && (state == ParseUri ==> b == Beyond(buf, oob))
        invariant var p := Parse(old(Ctx()), old(buf.Contents()), time, b);
          if hasMore then outcome == Waiting && Parse(Ctx(), buf.Contents(), time, b) == p
          else outcome == p.outcome && (outcome != Crashed ==> Parsed(outcome, Ctx(), buf.Contents()) == p)
        decreases hasMore, Rank(state)
      {
        match state {
          case ParseUri => hasMore, outcome := UriPhase(buf, time, oob, b);
          case ParseHeaders => hasMore, outcome := HeaderPhase(buf, time, b);
          case RecvBody => hasMore, outcome := BodyPhase(buf, time, b);
          case Analysis =>
            AnalysisPhase(buf.data[buf.readerIndex..buf.writerIndex], time, b);
            hasMore := false;
        }
      }
    }
  }

  /** HttpServer::onMessage: every complete request in the buffer goes to onRequest, and the
      parser is reset after each. */
  method OnMessage(parser: Parser, buf: Buffer, time: int, oob: char) returns (requests: seq<Request>, outcome: Outcome)
    requires buf.Valid() && parser.state != Finish
    modifies parser, buf`readerIndex, buf`writerIndex
    ensures buf.Valid()
    ensures var s := Serve(old(parser.Ctx()), old(buf.Contents()), time, old(Beyond(buf, oob)));
      && requests == s.requests && outcome == s.outcome
      && (outcome != Crashed ==> parser.Ctx() == s.context && buf.Contents() == s.rest && parser.state != Finish)
  {
    hide Parse;
    ghost var b := Beyond(buf, oob);
    ghost var all := Serve(parser.Ctx(), buf.Contents(), time, b);
    requests, outcome := [], Waiting;
    while buf.ReadableBytes() > 0
      invariant buf.Valid() && parser.state != Finish && outcome == Waiting
      invariant buf.Contents() != "" ==> Beyond(buf, oob) == b
      invariant var s := Serve(parser.Ctx(), buf.Contents(), time, b);
        all == s.(requests := requests + s.requests)
      decreases |buf.Contents()|, Rank(ParseUri) - Rank(parser.state)
    {
      outcome := parser.ParseRequest(buf, time, oob);
      if outcome == Crashed { return; }
      if parser.state == Finish {
        requests := requests + [parser.request];
        parser.Reset();
      } else {
        return;
      }
    }
  }
}
