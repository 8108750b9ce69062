/** What std::stoul makes of a text, in terms of the decimal form of numbers. */
module HttpNumbers {
  import opened Basics
  import opened HttpMessage

  predicate AllDigits(s: string) { forall i :: 0 <= i < |s| ==> IsDigit(s[i]) }

  lemma {:induction false} DigitsDec(n: nat)
    ensures Digits(Dec(n)) == n
  {
    if n >= 10 {
      DigitsDec(n / 10);
      assert Dec(n)[..|Dec(n)| - 1] == Dec(n / 10);
    } else {
      assert Dec(n)[..0] == "";
    }
  }

  lemma {:induction false} CountDigits(s: string, rest: string)
    requires AllDigits(s) && (rest == "" || !IsDigit(rest[0]))
    ensures DigitCount(s + rest) == |s|
  {
    if s == "" {
      assert s + rest == rest;
    } else {
      assert (s + rest)[1..] == s[1..] + rest;
      CountDigits(s[1..], rest);
    }
  }

  lemma {:induction false} SkipSpaces(pre: string, s: string)
    requires AllSpaces(pre) && (s == "" || !IsSpace(s[0]))
    ensures TrimLeft(pre + s) == s
  {
    if pre == "" {
      assert pre + s == s;
    } else {
      assert (pre + s)[1..] == pre[1..] + s;
      SkipSpaces(pre[1..], s);
    }
  }

  /** Zeros in front do not count. */
  lemma {:induction false} LeadingZeros(zeros: string, s: string)
    requires Zeros(zeros) && AllDigits(s)
    ensures AllDigits(zeros + s) && Digits(zeros + s) == Digits(s)
    decreases |zeros|, |s|
  {
    if s != "" {
      var front := s[..|s| - 1];
      LeadingZeros(zeros, front);
      assert (zeros + s)[..|zeros + s| - 1] == zeros + front;
    } else if zeros != "" {
      assert zeros + s == zeros;
      assert zeros[..|zeros| - 1] + "" == zeros[..|zeros| - 1];
      LeadingZeros(zeros[..|zeros| - 1], "");
    }
  }

  /** Every text of digits is the decimal form of its value behind zeros. */
  lemma {:induction false} DigitsAreDec(s: string) returns (zeros: string)
    requires s != "" && AllDigits(s)
    ensures Zeros(zeros) && s == zeros + Dec(Digits(s))
    decreases |s|
  {
    hide Digits, Dec;
    var front, d := s[..|s| - 1], DigitValue(s[|s| - 1]);
    assert s == front + [DigitChar(d)];
    LastDigit(front, d);
    if front == "" {
      zeros := "";
      DecLast(0, d);
    } else {
      zeros := DigitsAreDec(front);
      var v := Digits(front);
      DecLast(v, d);
      if v == 0 {
        DecLast(0, 0);
        assert zeros + "0" + [DigitChar(d)] == zeros + ("0" + [DigitChar(d)]);
        zeros := zeros + "0";
      } else {
        assert zeros + Dec(v) + [DigitChar(d)] == zeros + (Dec(v) + [DigitChar(d)]);
      }
    }
  }

  lemma {:induction false} LastDigit(front: string, d: nat)
    requires AllDigits(front) && d < 10
    ensures var s := front + [DigitChar(d)]; AllDigits(s) && Digits(s) == 10 * Digits(front) + d
    ensures Digits("") == 0
  {
    var s := front + [DigitChar(d)];
    assert s[..|s| - 1] == front;
  }

  lemma {:induction false} DecLast(v: nat, d: nat)
    requires d < 10
    ensures Dec(10 * v + d) == if v == 0 then [DigitChar(d)] else Dec(v) + [DigitChar(d)]
    ensures Dec(0) == "0"
  {
    assert (10 * v + d) / 10 == v && (10 * v + d) % 10 == d;
  }

  /** Where a text is taken apart: spaces, a sign, digits, and what is behind them. */
  ghost predicate Parts(pre: string, sign: string, digits: string, rest: string) {
    && AllSpaces(pre) && (sign == "" || sign == "+" || sign == "-") && AllDigits(digits)
    && (rest == "" || !IsDigit(rest[0]))
    && (sign == "" && digits == "" && rest != "" ==> !IsSpace(rest[0]) && rest[0] != '+' && rest[0] != '-')
  }

  /** stoul throws exactly where no digit follows the sign or the value is too large; else it
      gives the value, and under a minus sign its complement in 64 bits. */
  lemma {:induction false} StoulExact(pre: string, sign: string, digits: string, rest: string)
    requires Parts(pre, sign, digits, rest)
    ensures Stoul(pre + (sign + (digits + rest)))
         == if digits == "" || Digits(digits) > ULONG_MAX then None
            else if sign == "-" && Digits(digits) > 0 then Some(0x1_0000_0000_0000_0000 - Digits(digits))
            else Some(Digits(digits))
  {
    var u := digits + rest;
    var t := sign + u;
    CountDigits(digits, rest);
    if t != "" {
      assert t[0] == if sign != "" then sign[0] else u[0];
      assert digits != "" ==> u[0] == digits[0];
      assert digits == "" ==> u == rest;
    }
    SkipSpaces(pre, t);
    if sign == "" { assert t == u; } else { assert t[1..] == u; }
    assert u[..|digits|] == digits;
  }

  /** Every text can be taken apart so. */
  lemma {:induction false} StoulCovers(s: string) returns (pre: string, sign: string, digits: string, rest: string)
    ensures Parts(pre, sign, digits, rest) && s == pre + (sign + (digits + rest))
    decreases |s|
  {
    hide Parts;
    if s != "" && IsSpace(s[0]) {
      pre, sign, digits, rest := StoulCovers(s[1..]);
      OneSpace(s[0], s[1..], pre, sign, digits, rest);
      assert s == [s[0]] + s[1..];
      pre := [s[0]] + pre;
    } else {
      pre := "";
      sign, digits, rest := SignAndDigits(s);
      assert "" + s == s;
    }
  }

  lemma {:induction false} OneSpace(c: char, s: string, pre: string, sign: string, digits: string, rest: string)
    requires IsSpace(c) && Parts(pre, sign, digits, rest) && s == pre + (sign + (digits + rest))
    ensures Parts([c] + pre, sign, digits, rest) && [c] + s == [c] + pre + (sign + (digits + rest))
  {}

  lemma {:induction false} SignAndDigits(s: string) returns (sign: string, digits: string, rest: string)
    requires s == "" || !IsSpace(s[0])
    ensures Parts("", sign, digits, rest) && s == sign + (digits + rest)
  {
    sign := if s != "" && (s[0] == '+' || s[0] == '-') then [s[0]] else "";
    var u := s[|sign|..];
    assert s == sign + u;
    var n := DigitCount(u);
    digits, rest := u[..n], u[n..];
    assert u == digits + rest;
    CountStops(u);
  }

  lemma {:induction false} CountStops(s: string)
    ensures DigitCount(s) < |s| ==> !IsDigit(s[DigitCount(s)])
  {
    if s != "" && IsDigit(s[0]) { CountStops(s[1..]); }
  }

  /** A number in decimal is read as that number, if it fits 64 bits. */
  lemma {:induction false} StoulDecimal(s: string, n: nat)
    requires Announces(s, n)
    ensures Stoul(s) == if n <= ULONG_MAX then Some(n) else None
  {
    hide Stoul;
    var pre, plus, zeros, rest :| Spelled(s, n, pre, plus, zeros, rest);
    var digits := zeros + Dec(n);
    LeadingZeros(zeros, Dec(n));
    DigitsDec(n);
    assert s == pre + (plus + (digits + rest));
    StoulExact(pre, plus, digits, rest);
  }

  /** So the length of a body is read where it is announced. */
  lemma {:induction false} LengthRead(verb: Method, headers: map<string, string>, body: string)
    requires WellBody(verb, headers, body)
    ensures verb == Post && CONTENT_LENGTH in headers ==> Stoul(headers[CONTENT_LENGTH]) == Some(|body|)
  {
    hide Stoul, Announces;
    if verb == Post && CONTENT_LENGTH in headers { StoulDecimal(headers[CONTENT_LENGTH], |body|); }
  }
}
