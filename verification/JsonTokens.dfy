/** Tokens: the scanner's string bodies, numbers and literals are exactly those of the grammar. */
module JsonTokens {
  import opened JsonGrammar
  import opened Options
  import opened JsonScanner

  lemma {:induction false} SkipWsStops(w: string, rest: string)
    requires AllWs(w) && (rest == "" || !IsWs(rest[0]))
    ensures SkipWs(w + rest) == rest
  {
    if w == "" {
      assert w + rest == rest;
    } else {
      assert (w + rest)[1..] == w[1..] + rest;
      SkipWsStops(w[1..], rest);
    }
  }

  lemma {:induction false} SkipWsSplit(s: string)
    ensures var ws := s[..|s| - |SkipWs(s)|]; AllWs(ws) && s == ws + SkipWs(s)
    ensures SkipWs(s) != "" ==> !IsWs(SkipWs(s)[0])
  {
    if s != "" && IsWs(s[0]) {
      SkipWsSplit(s[1..]);
      assert s == [s[0]] + s[1..];
    }
  }

  // ---------- strings ----------

  lemma BodyLengthOfElem(e: StringElem, rest: string)
    requires e.Valid()
    ensures BodyLength(e.Text() + rest) == Plus(|e.Text()|, BodyLength(rest))
  {
    var s := e.Text() + rest;
    assert s[|e.Text()|..] == rest;
    match e
    case Plain(_) =>
    case Short(_) =>
    case Unicode(hex) => assert s[2] == hex[0] && s[3] == hex[1] && s[4] == hex[2] && s[5] == hex[3];
  }

  lemma {:induction false} BodyLengthOfElems(es: seq<StringElem>, rest: string)
    requires ValidElems(es)
    ensures BodyLength(ElemsText(es) + "\"" + rest) == Some(|ElemsText(es)|)
  {
    if es == [] {
      assert ElemsText(es) + "\"" + rest == "\"" + rest;
    } else {
      hide BodyLength;
      var tail := ElemsText(es[1..]) + "\"" + rest;
      assert ElemsText(es) + "\"" + rest == es[0].Text() + tail;
      BodyLengthOfElem(es[0], tail);
      BodyLengthOfElems(es[1..], rest);
    }
  }

  lemma FirstElem(s: string) returns (e: StringElem, rest: string)
    requires BodyLength(s).Some? && s[0] != '"'
    ensures e.Valid() && s == e.Text() + rest && 0 < |e.Text()|
    ensures BodyLength(s) == Plus(|e.Text()|, BodyLength(rest))
  {
    if s[0] != '\\' {
      e, rest := Plain(s[0]), s[1..];
    } else if s[1] == 'u' {
      e, rest := Unicode(s[2..6]), s[6..];
    } else {
      e, rest := Short(s[1]), s[2..];
    }
  }

  lemma {:induction false} ElemsOfBody(s: string) returns (es: seq<StringElem>)
    requires BodyLength(s).Some?
    ensures ValidElems(es) && ElemsText(es) == s[..BodyLength(s).value]
    decreases |s|
  {
    if s[0] == '"' {
      es := [];
    } else {
      var e, rest := FirstElem(s);
      hide BodyLength;
      var tail := ElemsOfBody(rest);
      es := [e] + tail;
      assert es[1..] == tail;
      assert s[..BodyLength(s).value] == e.Text() + rest[..BodyLength(rest).value];
    }
  }

  lemma BodyComplete(body: string, rest: string)
    requires IsStringBody(body)
    ensures BodyLength(body + "\"" + rest) == Some(|body|)
  {
    var es :| ValidElems(es) && ElemsText(es) == body;
    BodyLengthOfElems(es, rest);
  }

  lemma ScanStringComplete(body: string, rest: string)
    requires IsStringBody(body)
    ensures ScanString("\"" + body + "\"" + rest) == Some(Token(body, rest))
  {
    BodyComplete(body, rest);
    hide BodyLength, Utf8Valid, ElemsText;
    var s := "\"" + body + "\"" + rest;
    assert s[1..] == body + "\"" + rest;
    assert s[1..][..|body|] == body;
    assert s[1..][|body| + 1..] == rest;
  }

  lemma ScanStringSound(s: string)
    requires ScanString(s).Some?
    ensures var t := ScanString(s).value; IsStringBody(t.body) && s == "\"" + t.body + "\"" + t.rest
  {
    hide BodyLength, Utf8Valid, ElemsText;
    var es := ElemsOfBody(s[1..]);
    assert s[1..] == ScanString(s).value.body + "\"" + ScanString(s).value.rest;
    assert ElemsText(es) == ScanString(s).value.body;
  }

  // ---------- numbers ----------

  lemma {:induction false} DigitsLengthSplit(s: string)
    ensures AllDigits(s[..DigitsLength(s)])
    ensures DigitsLength(s) < |s| ==> !IsDigit(s[DigitsLength(s)])
  {
    if s != "" && IsDigit(s[0]) {
      DigitsLengthSplit(s[1..]);
      assert forall k | 1 <= k < DigitsLength(s) :: s[k] == s[1..][..DigitsLength(s[1..])][k - 1];
    }
  }

  lemma {:induction false} DigitsLengthStops(d: string, rest: string)
    requires AllDigits(d) && (rest == "" || !IsDigit(rest[0]))
    ensures DigitsLength(d + rest) == |d|
  {
    if d == "" {
      assert d + rest == rest;
    } else {
      assert (d + rest)[1..] == d[1..] + rest;
      DigitsLengthStops(d[1..], rest);
    }
  }

  lemma NumberTailMeaning(s: string)
    ensures NumberTail(s) <==> IsExp(s)
  {
    if s != "" && (s[0] == 'e' || s[0] == 'E') {
      DigitsLengthSplit(s[1..]);
      var t := if |s| >= 2 && (s[1] == '+' || s[1] == '-') then s[2..] else s[1..];
      DigitsLengthSplit(t);
      if AllDigits(t) {
        DigitsLengthStops(t, "");
        assert t + "" == t;
      }
      if DigitsLength(t) == |t| {
        assert t[..|t|] == t;
      }
      if |s| >= 2 && (s[1] == '+' || s[1] == '-') {
        assert s[1..][1..] == t;
        assert !IsDigit(s[1..][0]);
      }
    }
  }

  predicate IsFractionOf(s: string, frac: string, exp: string) {
    IsFrac(frac) && IsExp(exp) && s == frac + exp
  }

  lemma NumberFractionSound(s: string) returns (frac: string, exp: string)
    requires NumberFraction(s)
    ensures IsFractionOf(s, frac, exp)
  {
    if s != "" && s[0] == '.' {
      DigitsLengthSplit(s[1..]);
      var n := DigitsLength(s[1..]);
      frac, exp := s[..1 + n], s[1..][n..];
      assert frac[1..] == s[1..][..n];
      NumberTailMeaning(exp);
    } else {
      frac, exp := "", s;
      NumberTailMeaning(s);
    }
  }

  lemma NumberFractionComplete(s: string, frac: string, exp: string)
    requires IsFractionOf(s, frac, exp)
    ensures NumberFraction(s)
  {
    NumberTailMeaning(exp);
    if frac == "" {
      assert s == exp;
    } else {
      assert s[1..] == frac[1..] + exp;
      DigitsLengthStops(frac[1..], exp);
      assert s[1..][|frac| - 1..] == exp;
    }
  }

  function AfterMinus(s: string): string {
    if s != "" && s[0] == '-' then s[1..] else s
  }

  function IntLength(t: string): nat
    requires t != ""
    ensures IntLength(t) <= |t|
  {
    if t[0] == '0' then 1 else DigitsLength(t)
  }

  lemma NumberOkStages(s: string)
    ensures NumberOk(s) <==>
      var t := AfterMinus(s); t != "" && IsDigit(t[0]) && NumberFraction(t[IntLength(t)..])
  {
  }

  lemma IntStops(digits: string, rest: string)
    requires IsInt(digits) && (rest == "" || !IsDigit(rest[0]))
    ensures IntLength(digits + rest) == |digits| && IsDigit(digits[0])
  {
    if digits != "0" {
      DigitsLengthStops(digits, rest);
    }
  }

  lemma NumberOkSound(s: string)
    requires NumberOk(s)
    ensures IsNumber(s)
  {
    NumberOkStages(s);
    var t := AfterMinus(s);
    DigitsLengthSplit(t);
    var minus := if s[0] == '-' then "-" else "";
    var n := IntLength(t);
    var frac, exp := NumberFractionSound(t[n..]);
    assert IsInt(t[..n]);
    assert IsNumberOf(s, minus, t[..n], frac, exp) by {
      assert t == t[..n] + (frac + exp);
      assert s == minus + t;
    }
  }

  lemma UnsignedComplete(digits: string, frac: string, exp: string)
    requires IsInt(digits) && IsFrac(frac) && IsExp(exp)
    ensures var t := digits + (frac + exp);
      t != "" && IsDigit(t[0]) && NumberFraction(t[IntLength(t)..])
  {
    var rest := frac + exp;
    NumberFractionComplete(rest, frac, exp);
    assert rest == "" || !IsDigit(rest[0]) by {
      if frac != "" { assert rest[0] == frac[0]; } else { assert rest == exp; }
    }
    IntStops(digits, rest);
    assert (digits + rest)[0] == digits[0];
    assert (digits + rest)[|digits|..] == rest;
  }

  lemma AfterMinusOf(minus: string, t: string)
    requires (minus == "" || minus == "-") && t != "" && IsDigit(t[0])
    ensures AfterMinus(minus + t) == t
  {
    if minus == "" { assert minus + t == t; } else { assert (minus + t)[1..] == t; }
  }

  lemma NumberOkComplete(s: string)
    requires IsNumber(s)
    ensures NumberOk(s)
  {
    var minus, digits, frac, exp :| IsNumberOf(s, minus, digits, frac, exp);
    UnsignedComplete(digits, frac, exp);
    AfterMinusOf(minus, digits + (frac + exp));
    NumberOkStages(s);
  }

  /** The number automaton accepts exactly RFC 8259 section 6. */
  lemma NumberAutomaton(s: string)
    ensures NumberOk(s) <==> IsNumber(s)
  {
    if NumberOk(s) { NumberOkSound(s); }
    if IsNumber(s) { NumberOkComplete(s); }
  }

  // ---------- literals ----------

  lemma {:induction false} LiteralLengthStops(text: string, rest: string)
    requires forall k | 0 <= k < |text| :: !IsDelimiter(text[k])
    requires rest == "" || IsDelimiter(rest[0])
    ensures LiteralLength(text + rest) == |text|
  {
    if text == "" {
      assert text + rest == rest;
    } else {
      assert (text + rest)[1..] == text[1..] + rest;
      LiteralLengthStops(text[1..], rest);
    }
  }

  predicate IsNumberChar(c: char) {
    IsDigit(c) || c == '-' || c == '+' || c == '.' || c == 'e' || c == 'E'
  }

  lemma NumberChars(s: string)
    requires IsNumber(s)
    ensures s != "" && (s[0] == '-' || IsDigit(s[0]))
    ensures forall k | 0 <= k < |s| :: IsNumberChar(s[k])
  {
    var minus, digits, frac, exp :| IsNumberOf(s, minus, digits, frac, exp);
    assert forall k | 1 <= k < |frac| :: frac[k] == frac[1..][k - 1];
    assert forall k | 1 <= k < |exp| :: exp[k] == exp[1..][k - 1];
    assert forall k | 2 <= k < |exp| :: exp[k] == exp[1..][1..][k - 2];
    assert AllNumberChars(minus) && AllNumberChars(digits) && AllNumberChars(frac) && AllNumberChars(exp);
    assert s[0] == (if minus == "" then digits[0] else '-');
  }

  predicate AllNumberChars(s: string) {
    forall k | 0 <= k < |s| :: IsNumberChar(s[k])
  }

  lemma ScalarChars(s: string)
    requires IsScalar(s)
    ensures s != "" && s[0] != '"' && s[0] != '{' && s[0] != '['
    ensures forall k | 0 <= k < |s| :: !IsDelimiter(s[k])
  {
    if IsNumber(s) { NumberChars(s); }
  }

  lemma ScanLiteralComplete(text: string, rest: string)
    requires IsScalar(text) && (rest == "" || IsDelimiter(rest[0]))
    ensures ScanLiteral(text + rest) == Some(rest)
  {
    ScalarChars(text);
    LiteralLengthStops(text, rest);
    assert (text + rest)[..|text|] == text;
    assert (text + rest)[|text|..] == rest;
    NumberAutomaton(text);
  }

  lemma ScanLiteralSound(s: string)
    requires ScanLiteral(s).Some?
    ensures IsScalar(s[..|s| - |ScanLiteral(s).value|])
    ensures s == s[..|s| - |ScanLiteral(s).value|] + ScanLiteral(s).value
  {
    NumberAutomaton(s[..LiteralLength(s)]);
  }
}
