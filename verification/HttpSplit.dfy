/** Requests that arrive in pieces: at which cuts the parser carries on as if the bytes had
    come at once. */
module HttpSplit {
  import opened Basics
  import opened HttpMessage
  import opened HttpParser
  import opened HttpNumbers
  import opened HttpRoundTrip

  // ----- positions in a printed request -----

  ghost function LineLen(m: Message): nat
    requires WellLine(m)
  {
    |LineText(m)|
  }

  /** Where the body begins. */
  ghost function HeadLen(m: Message): nat
    requires WellLine(m)
  {
    LineLen(m) + 2 + |FieldsText(m.headers)| + 2
  }

  /** The position after the first `j` header lines. */
  ghost function FieldPos(m: Message, j: nat): nat
    requires WellLine(m) && j <= |m.headers|
  {
    LineLen(m) + 2 + |FieldsText(m.headers[..j])|
  }

  /** Cuts after which the parser can go on any number of times. */
  ghost predicate CleanCut(m: Message, i: nat)
    requires WellLine(m)
  {
    || i <= LineLen(m)
    || (exists j :: 0 <= j <= |m.headers| && i == FieldPos(m, j))
    || i >= HeadLen(m)
  }

  /** A parser that waits in the middle of `m`, with `i` bytes of it delivered, and the
      request line complete at `time`. */
  ghost predicate Resting(c: Context, rest: string, m: Message, i: nat, time: int)
    requires WellFormed(m)
  {
    || (i <= LineLen(m) && c == FRESH && rest == Print(m)[..i])
    || (exists j :: 0 <= j <= |m.headers| && InHeaders(c, rest, m, i, time, j))
    || InBody(c, rest, m, i, time)
  }

  ghost predicate InHeaders(c: Context, rest: string, m: Message, i: nat, time: int, j: nat)
    requires WellLine(m) && j <= |m.headers|
  {
    && i == FieldPos(m, j)
    && c == Context(ParseHeaders, if j == 0 then Start else Lf,
                    HeadRequest(m, time).(headers := HeaderMap(m.headers[..j])))
    && rest == FieldsText(m.headers[..j])
  }

  ghost predicate InBody(c: Context, rest: string, m: Message, i: nat, time: int)
    requires WellLine(m)
  {
    && HeadLen(m) <= i < |Print(m)|
    && c == Context(RecvBody, EndLf, HeadRequest(m, time))
    && rest == m.body[..i - HeadLen(m)]
  }

  // ----- the shape of a printed request -----

  lemma {:induction false} FieldsTextSplit(hs: seq<(string, string)>, j: nat)
    requires j <= |hs|
    ensures FieldsText(hs[..j]) <= FieldsText(hs)
    decreases |hs|
  {
    if j == |hs| {
      assert hs[..j] == hs;
    } else {
      var front := hs[..|hs| - 1];
      assert hs[..j] == front[..j];
      FieldsTextSplit(front, j);
    }
  }

  /** A printed request, cut open at its parts. */
  lemma {:induction false} PrintParts(m: Message)
    requires WellLine(m)
    ensures Print(m) == LineText(m) + "\r\n" + (FieldsText(m.headers) + "\r\n" + m.body)
    ensures |Print(m)| == HeadLen(m) + |m.body|
    ensures forall i :: 0 <= i <= LineLen(m) ==> Print(m)[..i] == LineText(m)[..i]
    ensures forall i :: HeadLen(m) <= i <= |Print(m)| ==> Print(m)[i..] == m.body[i - HeadLen(m)..]
    ensures forall i, k :: HeadLen(m) <= i <= k <= |Print(m)| ==> Print(m)[i..k] == m.body[i - HeadLen(m)..k - HeadLen(m)]
  {}

  lemma {:induction false} FieldCut(m: Message, j: nat)
    requires WellLine(m) && j <= |m.headers|
    ensures LineLen(m) + 2 <= FieldPos(m, j) <= HeadLen(m) - 2
    ensures Print(m)[..FieldPos(m, j)] == LineText(m) + "\r\n" + FieldsText(m.headers[..j])
    ensures FieldsText(m.headers[..j]) + Print(m)[FieldPos(m, j)..] == FieldsText(m.headers) + "\r\n" + m.body
    ensures forall k :: FieldPos(m, j) <= k <= |Print(m)| ==>
      FieldsText(m.headers[..j]) + Print(m)[FieldPos(m, j)..k] == Print(m)[LineLen(m) + 2..k]
  {
    hide LineText, FieldText;
    FieldsTextSplit(m.headers, j);
    PrintParts(m);
    assert Print(m)[LineLen(m) + 2..] == FieldsText(m.headers) + "\r\n" + m.body;
    assert Print(m)[LineLen(m) + 2..FieldPos(m, j)] == FieldsText(m.headers[..j]);
  }

  lemma {:induction false} PrefixMap(hs: seq<(string, string)>, j: nat)
    requires j <= |hs|
    ensures HeaderMap(hs[..j]).Keys <= HeaderMap(hs).Keys
    decreases |hs|
  {
    if j == |hs| {
      assert hs[..j] == hs;
    } else {
      var front := hs[..|hs| - 1];
      assert hs[..j] == front[..j];
      PrefixMap(front, j);
    }
  }

  /** Entering the first fields again changes nothing. */
  lemma {:induction false} PrefixAbsorbed(hs: seq<(string, string)>, j: nat)
    requires j <= |hs|
    ensures HeaderMap(hs[..j]) + HeaderMap(hs) == HeaderMap(hs)
  {
    PrefixMap(hs, j);
  }

  lemma {:induction false} PrefixTwice(hs: seq<(string, string)>, j: nat, k: nat)
    requires j <= k <= |hs|
    ensures HeaderMap(hs[..j]) + HeaderMap(hs[..k]) == HeaderMap(hs[..k])
  {
    assert hs[..k][..j] == hs[..j];
    PrefixAbsorbed(hs[..k], j);
  }

  // ----- going on to the end -----

  /** A resting parser that gets the rest of its request completes it, whatever follows. */
  lemma {:induction false} Completes(c: Context, rest: string, m: Message, i: nat, time: int,
                                     tail: string, now: int, beyond: char) returns (stamp: int)
    requires WellFormed(m) && i <= |Print(m)| && Resting(c, rest, m, i, time)
    ensures c.state != Finish
    ensures Parse(c, rest + Print(m)[i..] + tail, now, beyond) == Parsed(Waiting, Complete(m, stamp), tail)
    ensures stamp == now || stamp == time
  {
    hide Parse, Stoul, HeaderMap, FieldsText, LineText;
    PrintParts(m);
    if i <= LineLen(m) && c == FRESH && rest == Print(m)[..i] {
      stamp := now;
      assert rest + Print(m)[i..] == Print(m);
      ParseInvertsPrint(m, tail, now, beyond);
    } else if InBody(c, rest, m, i, time) {
      stamp := time;
      BodyOnlyPost(m);
      assert rest + Print(m)[i..] + tail == m.body + tail;
      BodyParses(m, time, tail, now, beyond);
    } else {
      stamp := time;
      var j :| 0 <= j <= |m.headers| && InHeaders(c, rest, m, i, time, j);
      FieldCut(m, j);
      PrefixAbsorbed(m.headers, j);
      assert rest + Print(m)[i..] + tail == FieldsText(m.headers) + "\r\n" + (m.body + tail);
      HeadParses(m, time, c.hState, HeaderMap(m.headers[..j]), tail, now, beyond);
    }
  }

  lemma {:induction false} BodyOnlyPost(m: Message)
    requires WellFormed(m) && m.body != ""
    ensures m.verb == Post && CONTENT_LENGTH in HeaderMap(m.headers)
    ensures Stoul(HeaderMap(m.headers)[CONTENT_LENGTH]) == Some(|m.body|)
  {
    hide HeaderMap, Stoul, Announces;
    LengthRead(m.verb, HeaderMap(m.headers), m.body);
  }

  // ----- coming to rest again -----

  lemma {:induction false} RestInLine(m: Message, k: nat, now: int, beyond: char)
    requires WellFormed(m) && k <= LineLen(m)
    ensures Parse(FRESH, Print(m)[..k], now, beyond) == Parsed(Waiting, FRESH, Print(m)[..k])
  {
    hide LineText, LineStep;
    PrintParts(m);
    LineHasNoCr(m);
    FindNone(LineText(m)[..k], '\r');
  }

  /** The first `j` header lines alone leave the parser waiting at a line start. */
  lemma {:induction false} RestAtField(r: Request, h: HState, hs: seq<(string, string)>, now: int, beyond: char)
    requires WellHeaders(hs) && (h == Start || h == Lf)
    ensures Parse(Context(ParseHeaders, h, r), FieldsText(hs), now, beyond)
         == Parsed(Waiting, Context(ParseHeaders, if hs == [] then h else Lf, r.(headers := r.headers + HeaderMap(hs))),
                   FieldsText(hs))
  {
    hide OnChar, FieldsText, HeaderMap;
    var data := FieldsText(hs);
    assert data[0..|data|] == data;
    var c := Cursor(h, r, None, None, None, None);
    var c1 := WalkFields(c, data, 0, hs);
    WalkThenScan(c, data, 0, |data|);
  }

  lemma {:induction false} RestInBody(m: Message, time: int, n: nat, now: int, beyond: char)
    requires WellFormed(m) && n < |m.body|
    ensures var c := Context(RecvBody, EndLf, HeadRequest(m, time));
      Parse(c, m.body[..n], now, beyond) == Parsed(Waiting, c, m.body[..n])
  {
    BodyOnlyPost(m);
  }

  lemma {:induction false} RestPastHead(m: Message, time: int, h: HState, had: map<string, string>, n: nat, now: int, beyond: char)
    requires WellFormed(m) && n < |m.body| && (h == Start || h == Lf)
    requires had + HeaderMap(m.headers) == HeaderMap(m.headers)
    ensures Parse(Context(ParseHeaders, h, HeadRequest(m, time).(headers := had)),
                  FieldsText(m.headers) + "\r\n" + m.body[..n], now, beyond)
         == Parsed(Waiting, Context(RecvBody, EndLf, HeadRequest(m, time)), m.body[..n])
  {
    hide HeaderStep, FieldsText, HeaderMap, Stoul;
    var data := FieldsText(m.headers) + "\r\n" + m.body[..n];
    BodyOnlyPost(m);
    HeadersParse(h, HeadRequest(m, time).(headers := had), m.headers, m.body[..n]);
    assert data[|FieldsText(m.headers)| + 2..] == m.body[..n];
    RestInBody(m, time, n, now, beyond);
  }

  /** The header part of a delivery: from field `j` on to a clean cut `k` behind it. */
  lemma {:induction false} AdvancesInHead(m: Message, j: nat, time: int, k: nat, now: int, beyond: char)
    requires WellFormed(m) && j <= |m.headers| && FieldPos(m, j) <= k < |Print(m)| && CleanCut(m, k)
    ensures var c := Context(ParseHeaders, if j == 0 then Start else Lf,
                             HeadRequest(m, time).(headers := HeaderMap(m.headers[..j])));
      var p := Parse(c, Print(m)[LineLen(m) + 2..k], now, beyond);
      p.outcome == Waiting && p.context.state != Finish && Resting(p.context, p.rest, m, k, time)
  {
    hide Parse, Stoul, HeaderMap, FieldsText, LineText;
    PrintParts(m);
    FieldCut(m, j);
    var h := if j == 0 then Start else Lf;
    var r := HeadRequest(m, time).(headers := HeaderMap(m.headers[..j]));
    if k >= HeadLen(m) {
      PrefixAbsorbed(m.headers, j);
      var n := k - HeadLen(m);
      assert Print(m)[LineLen(m) + 2..k] == FieldsText(m.headers) + "\r\n" + m.body[..n];
      RestPastHead(m, time, h, HeaderMap(m.headers[..j]), n, now, beyond);
      assert InBody(Context(RecvBody, EndLf, HeadRequest(m, time)), m.body[..n], m, k, time);
    } else {
      var x :| 0 <= x <= |m.headers| && k == FieldPos(m, x);
      FieldCut(m, x);
      assert Print(m)[LineLen(m) + 2..k] == FieldsText(m.headers[..x]) by {
        assert Print(m)[..k][LineLen(m) + 2..] == FieldsText(m.headers[..x]);
      }
      FieldOrder(m, j, x);
      PrefixTwice(m.headers, j, x);
      RestAtField(r, h, m.headers[..x], now, beyond);
      var c' := Context(ParseHeaders, if x == 0 then Start else Lf,
                        HeadRequest(m, time).(headers := HeaderMap(m.headers[..x])));
      assert InHeaders(c', FieldsText(m.headers[..x]), m, k, time, x);
    }
  }

  /** Positions of header lines grow with their number. */
  lemma {:induction false} FieldOrder(m: Message, j: nat, x: nat)
    requires WellLine(m) && j <= |m.headers| && x <= |m.headers| && FieldPos(m, j) <= FieldPos(m, x)
    ensures j <= x
  {
    if x < j {
      FieldsTextGrows(m.headers, x, j);
    }
  }

  lemma {:induction false} FieldsTextGrows(hs: seq<(string, string)>, x: nat, j: nat)
    requires x < j <= |hs|
    ensures |FieldsText(hs[..x])| < |FieldsText(hs[..j])|
  {
    assert hs[..j][..j - 1] == hs[..j - 1];
    assert |FieldsText(hs[..j])| > |FieldsText(hs[..j - 1])|;
    assert hs[..j - 1][..x] == hs[..x];
    FieldsTextSplit(hs[..j - 1], x);
  }

  /** A resting parser that gets a part of its request, up to a clean cut, rests there. */
  lemma {:induction false} Advances(c: Context, rest: string, m: Message, i: nat, time: int,
                                    k: nat, now: int, beyond: char) returns (stamp: int)
    requires WellFormed(m) && i <= k < |Print(m)| && Resting(c, rest, m, i, time) && CleanCut(m, k)
    ensures c.state != Finish
    ensures var p := Parse(c, rest + Print(m)[i..k], now, beyond);
      p.outcome == Waiting && p.context.state != Finish && Resting(p.context, p.rest, m, k, stamp)
  {
    hide Stoul, HeaderStep, HeaderMap, FieldsText, LineText, LineStep;
    PrintParts(m);
    if i <= LineLen(m) && c == FRESH && rest == Print(m)[..i] {
      stamp := now;
      assert rest + Print(m)[i..k] == Print(m)[..k];
      if k <= LineLen(m) {
        RestInLine(m, k, now, beyond);
      } else {
        LineThenHead(m, k, now, beyond);
      }
    } else if InBody(c, rest, m, i, time) {
      stamp := time;
      var n := k - HeadLen(m);
      assert rest + Print(m)[i..k] == m.body[..n];
      RestInBody(m, time, n, now, beyond);
      assert InBody(c, m.body[..n], m, k, time);
    } else {
      stamp := time;
      var j :| 0 <= j <= |m.headers| && InHeaders(c, rest, m, i, time, j);
      FieldCut(m, j);
      AdvancesInHead(m, j, time, k, now, beyond);
    }
  }

  lemma {:induction false} LineThenHead(m: Message, k: nat, now: int, beyond: char)
    requires WellFormed(m) && LineLen(m) < k < |Print(m)| && CleanCut(m, k)
    ensures var p := Parse(FRESH, Print(m)[..k], now, beyond);
      p.outcome == Waiting && p.context.state != Finish && Resting(p.context, p.rest, m, k, now)
  {
    hide Parse, HeaderMap, FieldsText, LineText, Resting;
    PrintParts(m);
    NoFields();
    assert m.headers[..0] == [];
    assert FieldPos(m, 0) == LineLen(m) + 2;
    CutPastLine(m, k);
    var data := Print(m)[LineLen(m) + 2..k];
    assert Print(m)[..k] == LineText(m) + "\r\n" + data;
    LineDone(m, data, now, beyond);
    AdvancesInHead(m, 0, now, k, now, beyond);
  }

  /** A whole request line, and the rest is the header section's. */
  lemma {:induction false} LineDone(m: Message, data: string, now: int, beyond: char)
    requires WellLine(m)
    ensures Parse(FRESH, LineText(m) + "\r\n" + data, now, beyond)
         == Parse(Context(ParseHeaders, Start, HeadRequest(m, now).(headers := map[])), data, now, beyond)
  {
    hide UriStep, LineText, HeaderStep, HeaderMap;
    UriParses(m, data, beyond);
    assert LineRequest(m).(receiveTime := now) == HeadRequest(m, now).(headers := map[]);
  }

  lemma {:induction false} NoFields()
    ensures HeaderMap([]) == map[] && FieldsText([]) == ""
  {}

  lemma {:induction false} CutPastLine(m: Message, k: nat)
    requires WellFormed(m) && LineLen(m) < k && CleanCut(m, k)
    ensures LineLen(m) + 2 <= k
  {}
}
