/** HTTP requests as values: the fields the parser fills, the text helpers it
    uses, and the printed form of a request (section 3 of RFC 7230). */
module HttpMessage {
  import opened Basics

  datatype Method = Invalid | Get | Post | Head | Put | Delete

  datatype Version = Unknown | Http10 | Http11

  datatype Request = Request(
    verb: Method,
    version: Version,
    path: string,
    query: string,
    receiveTime: int,
    headers: map<string, string>,
    body: string)

  const NO_REQUEST := Request(Invalid, Unknown, "", "", 0, map[], "")

  // ----- text -----

  /** std::find: the first position of `c`, or the length. */
  function Find(s: string, c: char): (n: nat)
    ensures n <= |s|
    ensures forall i :: 0 <= i < n ==> s[i] != c
    ensures n < |s| ==> s[n] == c
  {
    if s == "" then 0 else if s[0] == c then 0 else 1 + Find(s[1..], c)
  }

  /** `c` does not occur in `s`. */
  predicate Free(s: string, c: char) { forall i :: 0 <= i < |s| ==> s[i] != c }

  lemma {:induction false} FindAt(s: string, c: char, t: string)
    requires Free(s, c)
    ensures Find(s + [c] + t, c) == |s|
  {
    var whole := s + [c] + t;
    assert whole[|s|] == c;
    assert forall i :: 0 <= i < |s| ==> whole[i] == s[i];
  }

  lemma {:induction false} FindNone(s: string, c: char)
    requires Free(s, c)
    ensures Find(s, c) == |s|
  {}

  /** isspace in the C locale. */
  predicate IsSpace(c: char) {
    c == ' ' || c == '\t' || c == '\n' || c == '\r' || c == 11 as char || c == 12 as char
  }

  function TrimLeft(s: string): (t: string) {
    if s != "" && IsSpace(s[0]) then TrimLeft(s[1..]) else s
  }

  function TrimRight(s: string): (t: string) {
    if s != "" && IsSpace(s[|s| - 1]) then TrimRight(s[..|s| - 1]) else s
  }

  function Trim(s: string): (t: string) { TrimRight(TrimLeft(s)) }

  /** A value with no space at either end. */
  predicate Trimmed(s: string) { s == "" || (!IsSpace(s[0]) && !IsSpace(s[|s| - 1])) }

  lemma {:induction false} TrimPadded(s: string)
    requires Trimmed(s)
    ensures Trim(" " + s) == s
  {
    assert (" " + s)[1..] == s;
    assert TrimLeft(" " + s) == TrimLeft(s) == s;
  }

  lemma {:induction false} TrimSpace(s: string)
    ensures Trim(" " + s) == Trim(s)
  {
    assert (" " + s)[1..] == s;
  }

  // ----- std::stoul -----

  const ULONG_MAX := 0xFFFF_FFFF_FFFF_FFFF

  predicate IsDigit(c: char) { '0' <= c <= '9' }

  function DigitValue(c: char): nat
    requires IsDigit(c)
  {
    c as int - 48
  }

  function DigitCount(s: string): (n: nat)
    ensures n <= |s| && forall i :: 0 <= i < n ==> IsDigit(s[i])
  {
    if s != "" && IsDigit(s[0]) then 1 + DigitCount(s[1..]) else 0
  }

  function Digits(s: string): nat
    requires forall i :: 0 <= i < |s| ==> IsDigit(s[i])
  {
    if s == "" then 0 else 10 * Digits(s[..|s| - 1]) + DigitValue(s[|s| - 1])
  }

  /** Leading spaces, an optional sign, then digits; None where it throws. A minus
      sign negates in 64-bit arithmetic. */
  function Stoul(s: string): Option<nat> {
    var t := TrimLeft(s);
    var signed := t != "" && (t[0] == '+' || t[0] == '-');
    var u := if signed then t[1..] else t;
    var n := DigitCount(u);
    if n == 0 then None
    else
      var v := Digits(u[..n]);
      if v > ULONG_MAX then None
      else if signed && t[0] == '-' && v > 0 then Some(ULONG_MAX + 1 - v)
      else Some(v)
  }

  // ----- decimal text -----

  function DigitChar(d: nat): (c: char)
    requires d < 10
    ensures IsDigit(c) && DigitValue(c) == d
  {
    (48 + d) as char
  }

  /** The decimal form that printf gives. */
  function Dec(n: nat): (s: string)
    ensures s != "" && forall i :: 0 <= i < |s| ==> IsDigit(s[i])
  {
    if n < 10 then [DigitChar(n)] else Dec(n / 10) + [DigitChar(n % 10)]
  }

  predicate AllSpaces(s: string) { forall i :: 0 <= i < |s| ==> IsSpace(s[i]) }

  predicate Zeros(s: string) { forall i :: 0 <= i < |s| ==> s[i] == '0' }

  /** `s` is `n` in decimal, with spaces, a plus sign and zeros in front of it, and with anything
      but a digit right behind it. */
  ghost predicate Spelled(s: string, n: nat, pre: string, plus: string, zeros: string, rest: string) {
    && AllSpaces(pre) && (plus == "" || plus == "+") && Zeros(zeros) && (rest == "" || !IsDigit(rest[0]))
    && s == pre + plus + (zeros + Dec(n)) + rest
  }

  ghost predicate Announces(s: string, n: nat) {
    exists pre, plus, zeros, rest :: Spelled(s, n, pre, plus, zeros, rest)
  }

  // ----- the request line's words -----

  function MethodOf(s: string): Method {
    if s == "GET" then Get
    else if s == "POST" then Post
    else if s == "HEAD" then Head
    else if s == "PUT" then Put
    else if s == "DELETE" then Delete
    else Invalid
  }

  function MethodText(m: Method): string
    requires m != Invalid
  {
    match m
    case Get => "GET"
    case Post => "POST"
    case Head => "HEAD"
    case Put => "PUT"
    case Delete => "DELETE"
  }

  function VersionOf(s: string): Version {
    if s == "HTTP/1.0" then Http10 else if s == "HTTP/1.1" then Http11 else Unknown
  }

  function VersionText(v: Version): string
    requires v != Unknown
  {
    if v == Http10 then "HTTP/1.0" else "HTTP/1.1"
  }

  // ----- printing -----

  /** A request to be printed: its fields in the order they go out. */
  datatype Message = Message(
    verb: Method,
    version: Version,
    path: string,
    query: string,
    headers: seq<(string, string)>,
    body: string)

  predicate WellKey(k: string) { k != "" && Free(k, ':') && Free(k, '\r') && Free(k, '\n') }

  predicate WellValue(v: string) { Free(v, '\r') && Free(v, '\n') && Trimmed(v) }

  ghost predicate WellHeaders(hs: seq<(string, string)>) {
    forall i :: 0 <= i < |hs| ==> WellKey(hs[i].0) && WellValue(hs[i].1)
  }

  /** The map a list of header fields leaves: the last field of a name wins. */
  function HeaderMap(hs: seq<(string, string)>): map<string, string> {
    if hs == [] then map[] else HeaderMap(hs[..|hs| - 1])[hs[|hs| - 1].0 := hs[|hs| - 1].1]
  }

  const CONTENT_LENGTH := "Content-Length"

  /** The body a request with these fields carries. */
  ghost predicate WellBody(verb: Method, headers: map<string, string>, body: string) {
    if verb == Post && CONTENT_LENGTH in headers
    then Announces(headers[CONTENT_LENGTH], |body|) && |body| <= ULONG_MAX
    else body == ""
  }

  /** The request line can be printed and read back. */
  ghost predicate WellLine(m: Message) {
    && m.verb != Invalid && m.version != Unknown
    && Free(m.path, ' ') && Free(m.path, '?') && Free(m.path, '\r')
    && Free(m.query, ' ') && Free(m.query, '\r')
  }

  ghost predicate WellFormed(m: Message) {
    && WellLine(m)
    && m.headers != [] && WellHeaders(m.headers)
    && WellBody(m.verb, HeaderMap(m.headers), m.body)
  }

  function Target(path: string, query: string): string {
    if query == "" then path else path + "?" + query
  }

  function LineText(m: Message): string
    requires m.verb != Invalid && m.version != Unknown
  {
    MethodText(m.verb) + " " + Target(m.path, m.query) + " " + VersionText(m.version)
  }

  function FieldText(h: (string, string)): string { h.0 + ": " + h.1 + "\r\n" }

  function FieldsText(hs: seq<(string, string)>): string {
    if hs == [] then "" else FieldsText(hs[..|hs| - 1]) + FieldText(hs[|hs| - 1])
  }

  function Print(m: Message): string
    requires m.verb != Invalid && m.version != Unknown
  {
    LineText(m) + "\r\n" + FieldsText(m.headers) + "\r\n" + m.body
  }

  /** The request a parser should make of `m`. */
  function Meaning(m: Message, time: int): Request {
    Request(m.verb, m.version, m.path, m.query, time, HeaderMap(m.headers), m.body)
  }
}
