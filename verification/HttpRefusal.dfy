/** Which complete lines of a request are refused, and what the accepted ones mean. */
module HttpRefusal {
  import opened Basics
  import opened HttpMessage
  import opened HttpNumbers
  import opened HttpParser
  import opened HttpRoundTrip

  // ----- request lines -----

  /** A request line in its three words. */
  ghost predicate RequestLine(line: string, verb: Method, target: string, version: Version) {
    && verb != Invalid && version != Unknown && Free(target, ' ')
    && line == MethodText(verb) + " " + (target + " " + VersionText(version))
  }

  ghost predicate IsRequestLine(line: string) {
    exists verb, target, version :: RequestLine(line, verb, target, version)
  }

  /** The path and the query of a target; without a question mark the query stays as it was. */
  ghost predicate TargetIs(target: string, path: string, query: string, was: string) {
    if Free(target, '?') then path == target && query == was else Free(path, '?') && target == path + "?" + query
  }

  lemma {:induction false} MethodExact(s: string)
    ensures MethodOf(s) != Invalid ==> MethodText(MethodOf(s)) == s
  {}

  lemma {:induction false} VersionExact(s: string)
    ensures VersionOf(s) != Unknown ==> VersionText(VersionOf(s)) == s
  {}

  lemma {:induction false} SplitAt(s: string, c: char)
    ensures var n := Find(s, c);
      if n < |s| then Free(s[..n], c) && s == s[..n] + [c] + s[n + 1..] else Free(s, c)
  {}

  /** A line is accepted exactly if it is a method, a target and a version with one space between
      them, and those are the fields it sets. */
  lemma {:induction false} LineExact(r: Request, line: string)
    ensures LineStep(r, line).ok <==> IsRequestLine(line)
    ensures LineStep(r, line).ok ==>
      exists target :: var q := LineStep(r, line).request;
        && RequestLine(line, q.verb, target, q.version) && TargetIs(target, q.path, q.query, r.query)
        && q == r.(verb := q.verb, path := q.path, query := q.query, version := q.version)
  {
    if LineStep(r, line).ok {
      AcceptedLine(r, line);
    } else if IsRequestLine(line) {
      var verb, target, version :| RequestLine(line, verb, target, version);
      LineIsAccepted(r, line, verb, target, version);
    }
  }

  lemma {:induction false} AcceptedLine(r: Request, line: string)
    requires LineStep(r, line).ok
    ensures exists target :: var q := LineStep(r, line).request;
      && RequestLine(line, q.verb, target, q.version) && TargetIs(target, q.path, q.query, r.query)
      && q == r.(verb := q.verb, path := q.path, query := q.query, version := q.version)
  {
    hide MethodOf, VersionOf, Find, MethodText, VersionText;
    var space := Find(line, ' ');
    SplitAt(line, ' ');
    var tail := line[space + 1..];
    var space2 := Find(tail, ' ');
    SplitAt(tail, ' ');
    var target := tail[..space2];
    SplitAt(target, '?');
    MethodExact(line[..space]);
    VersionExact(tail[space2 + 1..]);
    var q := LineStep(r, line).request;
    assert tail == target + " " + tail[space2 + 1..];
    assert line == line[..space] + " " + tail;
    assert RequestLine(line, q.verb, target, q.version);
  }

  lemma {:induction false} LineIsAccepted(r: Request, line: string, verb: Method, target: string, version: Version)
    requires RequestLine(line, verb, target, version)
    ensures LineStep(r, line).ok
  {
    hide MethodText, VersionText, MethodOf, VersionOf, Find;
    MethodWord(verb);
    VersionWord(version);
    SplitAtSpace(MethodText(verb), target + " " + VersionText(version));
    SplitAtSpace(target, VersionText(version));
  }

  /** The first line of a delivery, when it is complete: an error exactly if it is no request line,
      and then nothing of it is used. */
  lemma {:induction false} FirstLineExact(line: string, tail: string, now: int, beyond: char)
    requires Free(line, '\r')
    ensures var data := line + "\r\n" + tail;
      var u := UriStep(NO_REQUEST, data, beyond);
      && (u.flag == Error <==> !IsRequestLine(line)) && (u.flag == Success <==> IsRequestLine(line))
      && (u.flag == Success ==> u.rest == tail && u.request == LineStep(NO_REQUEST, line).request)
      && (u.flag == Error ==> Serve(FRESH, data, now, beyond) == Served([], Bad, FRESH.(request := u.request), data))
  {
    hide LineStep, HeaderStep;
    var data := line + "\r\n" + tail;
    assert data == line + ['\r'] + ("\n" + tail);
    FindAt(line, '\r', "\n" + tail);
    assert data[..|line|] == line && data[|line| + 1] == '\n' && data[|line| + 2..] == tail;
    LineExact(NO_REQUEST, line);
  }

  // ----- header lines -----

  /** The position of the colon that ends the name: the first one behind the first character. */
  function ColonAt(line: string): nat
    requires line != ""
  {
    1 + Find(line[1..], ':')
  }

  /** A name, a colon, a space, and then anything. */
  predicate HeaderLine(line: string) {
    line != "" && ColonAt(line) + 1 < |line| && line[ColonAt(line) + 1] == ' '
  }

  predicate OneLine(line: string) { line != "" && Free(line, '\r') && Free(line, '\n') }

  lemma {:induction false} ColonExact(line: string)
    requires line != ""
    ensures var e := ColonAt(line);
      && 1 <= e <= |line| && (e < |line| ==> line[e] == ':') && forall x :: 1 <= x < e ==> line[x] != ':'
  {
    var n := Find(line[1..], ':');
    assert forall x :: 0 <= x < |line| - 1 ==> line[1..][x] == line[x + 1];
    assert forall x :: 1 <= x < 1 + n ==> line[x] == line[1..][x - 1];
  }

  /** `line` and its CRLF are at `i`. */
  ghost predicate LineAt(data: string, i: nat, line: string) {
    i + |line| + 2 <= |data| && data[i..i + |line| + 2] == line + "\r\n"
  }

  lemma {:induction false} LineChars(data: string, i: nat, line: string)
    requires LineAt(data, i, line)
    ensures forall x :: 0 <= x < |line| ==> data[i + x] == line[x]
    ensures data[i + |line|] == '\r' && data[i + |line| + 1] == '\n'
  {
    var s := data[i..i + |line| + 2];
    assert forall x :: 0 <= x < |s| ==> s[x] == data[i + x];
    assert s[|line|] == '\r' && s[|line| + 1] == '\n';
  }

  /** A line that is none is refused. */
  lemma {:induction false} RefusedAt(c: Cursor, data: string, i: nat, line: string)
    requires LineAt(data, i, line) && OneLine(line) && !HeaderLine(line) && (c.h == Start || c.h == Lf)
    ensures ScanFrom(c, data, i).HeadersBroken?
  {
    hide Find;
    LineChars(data, i, line);
    ColonExact(line);
    var e := ColonAt(line);
    WalkOne(c, data, i);
    var c1 := KeyCursor(c, i);
    assert forall x :: i + 1 <= x < i + e ==> data[x] == line[x - i];
    WalkKey(c1, data, i + 1, i + e);
    WalkOn(c, data, i, i + 1, i + e);
    WalkThenScan(c, data, i, i + e);
    if e < |line| {
      WalkOne(c1, data, i + e);
      WalkThenScan(c1, data, i + e, i + e + 1);
      assert e + 1 < |line| ==> data[i + e + 1] == line[e + 1];
    }
  }

  /** A line that is one is entered: the name up to the colon, and the value without its spaces. */
  lemma {:induction false} EnteredAt(c: Cursor, data: string, i: nat, line: string) returns (c': Cursor)
    requires LineAt(data, i, line) && OneLine(line) && HeaderLine(line) && (c.h == Start || c.h == Lf)
    ensures Walk(c, data, i, i + |line| + 2) == Some(c') && c'.h == Lf
    ensures var e := ColonAt(line);
      c'.request == c.request.(headers := c.request.headers[line[..e] := Trim(line[e + 1..])])
  {
    hide Find, Trim, FieldText;
    LineChars(data, i, line);
    ColonExact(line);
    var e, n := ColonAt(line), i + |line| + 2;
    var k, v := line[..e], line[e + 2..];
    LineIsField(data, i, line);
    assert line[e + 1..] == " " + v;
    TrimSpace(v);
    var s := i + e + 2;
    WalkOne(c, data, i);
    WalkOn(c, data, i, i + 1, n);
    var c1 := KeyCursor(c, i);
    assert forall x :: i + 1 <= x < i + e ==> data[x] == line[x - i];
    WalkKey(c1, data, i + 1, i + e);
    WalkOn(c1, data, i + 1, i + e, n);
    WalkOne(c1, data, i + e);
    WalkOn(c1, data, i + e, i + e + 1, n);
    var c2 := c1.(h := Colon, keyEnd := Some(i + e));
    assert data[i + e + 1] == line[e + 1];
    WalkOne(c2, data, i + e + 1);
    WalkOn(c2, data, i + e + 1, s, n);
    var c3 := c2.(h := Spaces);
    WalkOne(c3, data, s);
    WalkOn(c3, data, s, s + 1, n);
    var c4 := c3.(h := Value, valStart := Some(s));
    if v == "" {
      c' := NoValue(c4, data, i, k);
      TrimNothing();
    } else {
      c' := ValueEnd(c4, data, i, k, v);
    }
  }

  lemma {:induction false} TrimNothing()
    ensures Trim("") == ""
  {}

  lemma {:induction false} LineIsField(data: string, i: nat, line: string)
    requires LineAt(data, i, line) && OneLine(line) && HeaderLine(line)
    ensures var e := ColonAt(line); 1 <= e && e + 2 <= |line| && FieldAt(data, i, line[..e], line[e + 2..])
  {
    hide Find;
    ColonExact(line);
    var e := ColonAt(line);
    assert line == line[..e] + ": " + line[e + 2..];
  }

  // ----- lines that end otherwise -----

  /** A value may end with an LF alone. */
  lemma {:induction false} BareLfEnters(c: Cursor, data: string, i: nat, k: string, v: string) returns (c': Cursor)
    requires WellKey(k) && v != "" && Free(v, '\r') && Free(v, '\n') && (c.h == Start || c.h == Lf)
    requires i + |k| + |v| + 3 <= |data| && data[i..i + |k| + |v| + 3] == k + ": " + v + "\n"
    ensures Walk(c, data, i, i + |k| + |v| + 3) == Some(c') && c'.h == Lf
    ensures c'.request == c.request.(headers := c.request.headers[k := Trim(v)])
  {
    hide Trim;
    var e, s, n := i + |k|, i + |k| + 2, i + |k| + |v| + 3;
    BareLfChars(data, i, k, v);
    WalkOne(c, data, i);
    WalkOn(c, data, i, i + 1, n);
    var c1 := KeyCursor(c, i);
    WalkKey(c1, data, i + 1, e);
    WalkOn(c1, data, i + 1, e, n);
    WalkOne(c1, data, e);
    WalkOn(c1, data, e, e + 1, n);
    var c2 := c1.(h := Colon, keyEnd := Some(e));
    WalkOne(c2, data, e + 1);
    WalkOn(c2, data, e + 1, s, n);
    var c3 := c2.(h := Spaces);
    WalkOne(c3, data, s);
    WalkOn(c3, data, s, s + 1, n);
    var c4 := c3.(h := Value, valStart := Some(s));
    WalkValue(c4, data, s + 1, n - 1);
    WalkOn(c4, data, s + 1, n - 1, n);
    assert data[i..e] == k && data[e + 1..n - 1] == " " + v;
    TrimSpace(v);
    WalkOne(c4, data, n - 1);
    c' := OnChar(c4, data, n - 1).cursor;
  }

  lemma {:induction false} BareLfChars(data: string, i: nat, k: string, v: string)
    requires WellKey(k) && Free(v, '\r') && Free(v, '\n')
    requires i + |k| + |v| + 3 <= |data| && data[i..i + |k| + |v| + 3] == k + ": " + v + "\n"
    ensures var e, n := i + |k|, i + |k| + |v| + 3;
      && (forall x :: i <= x < e ==> data[x] == k[x - i]) && data[e] == ':' && data[e + 1] == ' '
      && (forall x :: e + 2 <= x < n - 1 ==> data[x] == v[x - e - 2]) && data[n - 1] == '\n'
  {
    var f := data[i..i + |k| + |v| + 3];
    assert forall x :: 0 <= x < |f| ==> f[x] == data[i + x];
    assert f == k + ": " + v + "\n";
  }

  /** A CR in a value with anything but LF behind it is refused, and so is a CR or an LF in a name. */
  lemma {:induction false} LoneEndRefused(c: Cursor, data: string, i: nat, j: nat)
    requires i < j < |data| && (c.h == Key || c.h == Value) && c.valStart.Some?
    requires forall x :: i <= x < j ==> data[x] != ':' && data[x] != '\r' && data[x] != '\n'
    ensures c.h == Key && (data[j] == '\r' || data[j] == '\n') ==> ScanFrom(c, data, i) == HeadersBroken(Key, c.request)
    ensures c.h == Value && data[j] == '\r' && j + 1 < |data| && data[j + 1] != '\n' ==>
      ScanFrom(c, data, i) == HeadersBroken(Cr, c.request)
  {
    if c.h == Key {
      WalkKey(c, data, i, j);
      WalkThenScan(c, data, i, j);
    } else {
      WalkValue(c, data, i, j);
      WalkThenScan(c, data, i, j);
      if data[j] == '\r' {
        WalkOne(c, data, j);
        WalkThenScan(c, data, j, j + 1);
      }
    }
  }

  // ----- header sections -----

  ghost function LinesText(lines: seq<string>): string {
    if lines == [] then "" else lines[0] + "\r\n" + LinesText(lines[1..])
  }

  /** The fields that lines enter, on top of those there are. */
  ghost function Entered(had: map<string, string>, lines: seq<string>): map<string, string>
    requires forall x | 0 <= x < |lines| :: HeaderLine(lines[x])
    decreases |lines|
  {
    if lines == [] then had
    else
      assert HeaderLine(lines[0]);
      var e := ColonAt(lines[0]);
      Entered(had[lines[0][..e] := Trim(lines[0][e + 1..])], lines[1..])
  }

  lemma {:induction false} SectionFrom(c: Cursor, data: string, i: nat, lines: seq<string>)
    requires i + |LinesText(lines)| + 2 <= |data| && data[i..i + |LinesText(lines)|] == LinesText(lines)
    requires data[i + |LinesText(lines)|] == '\r' && data[i + |LinesText(lines)| + 1] == '\n'
    requires (forall x | 0 <= x < |lines| :: OneLine(lines[x])) && (c.h == Lf || (c.h == Start && lines != []))
    ensures var s, n := ScanFrom(c, data, i), i + |LinesText(lines)| + 2;
      if forall x | 0 <= x < |lines| :: HeaderLine(lines[x])
      then s == HeadersDone(EndLf, c.request.(headers := Entered(c.request.headers, lines)), n)
      else s.HeadersBroken?
    decreases |lines|
  {
    hide HeaderLine, OnChar, ScanFrom;
    if lines == [] {
      ScanTerminator(c, data, i);
    } else {
      var line, rest := lines[0], lines[1..];
      var j := i + |line| + 2;
      assert LinesText(lines) == line + "\r\n" + LinesText(rest);
      assert data[i..j] == LinesText(lines)[..|line| + 2];
      assert data[j..j + |LinesText(rest)|] == LinesText(lines)[|line| + 2..];
      if HeaderLine(line) {
        var c1 := EnteredAt(c, data, i, line);
        WalkThenScan(c, data, i, j);
        SectionFrom(c1, data, j, rest);
        assert (forall x | 0 <= x < |lines| :: HeaderLine(lines[x])) <==> forall x | 0 <= x < |rest| :: HeaderLine(rest[x]) by {
          assert forall x | 1 <= x < |lines| :: lines[x] == rest[x - 1];
        }
      } else {
        RefusedAt(c, data, i, line);
      }
    }
  }

  /** A complete header section of any lines is refused exactly if one of them is no header line;
      else the names map to the trimmed values, the last of a name first. */
  lemma {:induction false} SectionExact(h: HState, r: Request, lines: seq<string>, tail: string)
    requires lines != [] && (forall x | 0 <= x < |lines| :: OneLine(lines[x])) && (h == Start || h == Lf)
    ensures var data := LinesText(lines) + "\r\n" + tail;
      var s := HeaderStep(h, r, data);
      if forall x | 0 <= x < |lines| :: HeaderLine(lines[x])
      then s == HeadersDone(EndLf, r.(headers := Entered(r.headers, lines)), |data| - |tail|)
      else s.HeadersBroken?
  {
    hide HeaderLine, ScanFrom;
    var data := LinesText(lines) + "\r\n" + tail;
    assert data[0..|LinesText(lines)|] == LinesText(lines);
    SectionFrom(Cursor(h, r, None, None, None, None), data, 0, lines);
  }

  // ----- trimming -----

  /** Spaces on both sides go, and nothing else. */
  lemma {:induction false} TrimExact(pre: string, s: string, post: string)
    requires AllSpaces(pre) && AllSpaces(post) && Trimmed(s)
    ensures Trim(pre + s + post) == s
  {
    if s == "" {
      assert pre + s + post == pre + post + "";
      SkipSpaces(pre + post, "");
      assert TrimRight("") == "";
    } else {
      assert pre + s + post == pre + (s + post);
      SkipSpaces(pre, s + post);
      DropSpaces(s, post);
    }
  }

  lemma {:induction false} DropSpaces(s: string, post: string)
    requires AllSpaces(post) && s != "" && !IsSpace(s[|s| - 1])
    ensures TrimRight(s + post) == s
    decreases |post|
  {
    if post == "" {
      assert s + post == s;
    } else {
      var t := s + post;
      assert t[..|t| - 1] == s + post[..|post| - 1];
      DropSpaces(s, post[..|post| - 1]);
    }
  }

  // ----- lengths -----

  /** After the header section of a POST, a Content-Length that is no number, or one over 64 bits,
      is an uncaught exception; any other waits for that many bytes and takes them. */
  lemma {:induction false} LengthExact(h: HState, r: Request, data: string, now: int, beyond: char,
                                       pre: string, sign: string, digits: string, rest: string)
    requires CONTENT_LENGTH in r.headers && r.headers[CONTENT_LENGTH] == pre + (sign + (digits + rest))
    requires Parts(pre, sign, digits, rest) && sign != "-"
    ensures var p := Parse(Context(RecvBody, h, r), data, now, beyond);
      if digits == "" || Digits(digits) > ULONG_MAX then p == Parsed(Crashed, Context(RecvBody, h, r), data)
      else if |data| < Digits(digits) then p == Parsed(Waiting, Context(RecvBody, h, r), data)
      else p == Parsed(Waiting, Context(Finish, h, r.(body := data[..Digits(digits)])), data[Digits(digits)..])
  {
    hide Stoul, Digits;
    StoulExact(pre, sign, digits, rest);
  }
}
