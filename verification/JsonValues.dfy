/** Values: scanning succeeds exactly on the printed form of a well-formed tree of bounded depth. */
module JsonValues {
  import opened JsonGrammar
  import opened Options
  import opened JsonScanner
  import opened JsonTokens

  predicate Terminated(rest: string) {
    rest == "" || IsDelimiter(rest[0])
  }

  lemma ValueStart(v: Value)
    requires ValidValue(v)
    ensures var t := ValueText(v);
      t != "" && !IsDelimiter(t[0])
      && (t[0] == '"' <==> v.Str?) && (t[0] == '{' <==> v.EmptyObject? || v.Object?)
      && (t[0] == '[' <==> v.EmptyArray? || v.Array?)
  {
    if v.Scalar? { ScalarChars(v.text); }
  }

  // ---------- completeness ----------

  /** One member's text, right-nested, with its leading whitespace dropped. */
  function MemberBody(m: Member, suffix: string): string {
    "\"" + m.key + "\"" + (m.ws1 + (":" + (m.ws2 + ValueText(m.value) + (m.ws3 + suffix))))
  }

  lemma MemberTextShape(m: Member, suffix: string)
    ensures MemberText(m) + suffix == m.ws0 + MemberBody(m, suffix)
  {
  }

  lemma MemberStep(m: Member, suffix: string, depth: nat)
    requires ValidMember(m) && suffix != "" && (suffix[0] == ',' || suffix[0] == '}')
    requires ScanValue(m.ws2 + ValueText(m.value) + (m.ws3 + suffix), depth) == Some(m.ws3 + suffix)
    ensures SkipWs(MemberText(m) + suffix) == MemberBody(m, suffix)
    ensures ScanMembers(MemberBody(m, suffix), depth)
         == if suffix[0] == ',' then ScanMembers(SkipWs(suffix[1..]), depth) else Some(suffix[1..])
  {
    hide ScanValue, ScanString, ScanElements, ScanObject, ScanArray, SkipWs, ValidValue, ValueText, IsStringBody;
    MemberTextShape(m, suffix);
    SkipWsStops(m.ws0, MemberBody(m, suffix));
    var tail := m.ws2 + ValueText(m.value) + (m.ws3 + suffix);
    ScanStringComplete(m.key, m.ws1 + (":" + tail));
    SkipWsStops(m.ws1, ":" + tail);
    assert (":" + tail)[1..] == tail;
    SkipWsStops(m.ws3, suffix);
  }

  lemma {:induction false} MembersComplete(ms: Members, rest: string, depth: nat)
    requires ValidMembers(ms) && depth + MembersDepth(ms) <= MAX_SCAN_DEPTH
    ensures ScanMembers(SkipWs(MembersText(ms) + "}" + rest), depth) == Some(rest)
    ensures var t := SkipWs(MembersText(ms) + "}" + rest); t != "" && t[0] == '"'
    decreases ms, 0
  {
    hide ScanValue, ScanString, ScanMembers, ScanObject, ScanArray, SkipWs, ValidValue, ValueText, Depth, IsStringBody;
    var m := ms.m;
    var suffix := if ms.OneMember? then "}" + rest else "," + (MembersText(ms.tail) + "}" + rest);
    assert MembersText(ms) + "}" + rest == MemberText(m) + suffix;
    assert Terminated(m.ws3 + suffix);
    ValueComplete(m.value, m.ws2, m.ws3 + suffix, depth);
    MemberStep(m, suffix, depth);
    if ms.MoreMembers? {
      assert suffix[1..] == MembersText(ms.tail) + "}" + rest;
      MembersComplete(ms.tail, rest, depth);
    } else {
      assert suffix[1..] == rest;
    }
  }

  lemma {:induction false} ElementsComplete(es: Elements, rest: string, depth: nat)
    requires ValidElements(es) && depth + ElementsDepth(es) <= MAX_SCAN_DEPTH
    ensures ScanElements(SkipWs(ElementsText(es) + "]" + rest), depth) == Some(rest)
    ensures var t := SkipWs(ElementsText(es) + "]" + rest); t != "" && t[0] != ']'
    decreases es, 0
  {
    hide ScanValue, ScanMembers, ScanObject, ScanArray, SkipWs, ValidValue, ValueText, Depth;
    var e := es.e;
    var suffix := if es.OneElement? then "]" + rest else "," + (ElementsText(es.tail) + "]" + rest);
    var body := ValueText(e.value) + (e.ws1 + suffix);
    assert ElementsText(es) + "]" + rest == e.ws0 + body;
    ValueStart(e.value);
    SkipWsStops(e.ws0, body);
    assert Terminated(e.ws1 + suffix);
    assert "" + ValueText(e.value) + (e.ws1 + suffix) == body;
    ValueComplete(e.value, "", e.ws1 + suffix, depth);
    SkipWsStops(e.ws1, suffix);
    if es.MoreElements? {
      assert suffix[1..] == ElementsText(es.tail) + "]" + rest;
      ElementsComplete(es.tail, rest, depth);
    } else {
      assert suffix[1..] == rest;
    }
  }

  lemma EmptyCompositeComplete(w: string, rest: string, depth: nat)
    requires AllWs(w) && depth <= MAX_SCAN_DEPTH
    ensures ScanObject("{" + w + "}" + rest, depth) == Some(rest)
    ensures ScanArray("[" + w + "]" + rest, depth) == Some(rest)
  {
    hide ScanMembers, ScanElements, SkipWs;
    assert ("{" + w + "}" + rest)[1..] == w + ("}" + rest);
    assert ("[" + w + "]" + rest)[1..] == w + ("]" + rest);
    SkipWsStops(w, "}" + rest);
    SkipWsStops(w, "]" + rest);
    assert ("}" + rest)[1..] == rest && ("]" + rest)[1..] == rest;
  }

  lemma {:induction false} CompositeComplete(v: Value, rest: string, depth: nat)
    requires ValidValue(v) && (v.Object? || v.Array?) && depth + Depth(v) <= MAX_SCAN_DEPTH + 1
    ensures v.Object? ==> ScanObject(ValueText(v) + rest, depth) == Some(rest)
    ensures v.Array? ==> ScanArray(ValueText(v) + rest, depth) == Some(rest)
    decreases v, 0
  {
    hide ScanMembers, ScanElements, SkipWs, MembersText, ElementsText, ValidMembers, ValidElements, MembersDepth, ElementsDepth;
    var t := ValueText(v) + rest;
    if v.Object? {
      assert t[1..] == MembersText(v.members) + "}" + rest;
      MembersComplete(v.members, rest, depth);
    } else {
      assert t[1..] == ElementsText(v.elements) + "]" + rest;
      ElementsComplete(v.elements, rest, depth);
    }
  }

  /** Every well-formed value of bounded depth is scanned to its end. */
  lemma {:induction false} ValueComplete(v: Value, ws: string, rest: string, depth: nat)
    requires ValidValue(v) && AllWs(ws) && Terminated(rest)
    requires depth + Depth(v) <= MAX_SCAN_DEPTH
    ensures ScanValue(ws + ValueText(v) + rest, depth) == Some(rest)
    decreases v, 1
  {
    hide ScanString, ScanLiteral, ScanObject, ScanArray, ScanMembers, ScanElements, SkipWs, MembersText, ElementsText,
      ValidMembers, ValidElements, MembersDepth, ElementsDepth, IsStringBody, IsScalar;
    var t := ValueText(v) + rest;
    ValueStart(v);
    assert ws + ValueText(v) + rest == ws + t;
    SkipWsStops(ws, t);
    assert t[0] == ValueText(v)[0];
    match v
    case Str(body) => ScanStringComplete(body, rest);
    case Scalar(text) => ScanLiteralComplete(text, rest);
    case EmptyObject(w) => EmptyCompositeComplete(w, rest, depth + 1);
    case EmptyArray(w) => EmptyCompositeComplete(w, rest, depth + 1);
    case Object(_) => CompositeComplete(v, rest, depth + 1);
    case Array(_) => CompositeComplete(v, rest, depth + 1);
  }

  // ---------- soundness ----------

  /** The text that a successful scan consumed. */
  function Consumed(s: string, r: string): string
    requires |r| <= |s|
  {
    s[..|s| - |r|]
  }

  lemma {:induction false} ValueSound(s: string, depth: nat) returns (ws: string, v: Value)
    requires depth <= MAX_SCAN_DEPTH && ScanValue(s, depth).Some?
    ensures AllWs(ws) && ValidValue(v) && depth + Depth(v) <= MAX_SCAN_DEPTH
    ensures s == ws + ValueText(v) + ScanValue(s, depth).value
    decreases |s|, 1
  {
    hide ScanString, ScanLiteral, ScanObject, ScanArray, ScanMembers, ScanElements, SkipWs, MembersText, ElementsText, ValidMembers, ValidElements, MembersDepth, ElementsDepth, IsStringBody, IsScalar;
    SkipWsSplit(s);
    var t := SkipWs(s);
    var rest := ScanValue(s, depth).value;
    ws := Consumed(s, t);
    if t[0] == '"' {
      ScanStringSound(t);
      v := Str(ScanString(t).value.body);
    } else if t[0] == '{' {
      v := ObjectSound(t, depth + 1);
    } else if t[0] == '[' {
      v := ArraySound(t, depth + 1);
    } else {
      ScanLiteralSound(t);
      v := Scalar(Consumed(t, rest));
    }
    assert t == ValueText(v) + rest;
    assert s == ws + t;
  }

  lemma {:induction false} ObjectSound(s: string, depth: nat) returns (v: Value)
    requires s != "" && s[0] == '{' && ScanObject(s, depth).Some?
    ensures ValidValue(v) && depth - 1 + Depth(v) <= MAX_SCAN_DEPTH
    ensures s == ValueText(v) + ScanObject(s, depth).value
    decreases |s|, 0
  {
    hide ScanMembers, SkipWs, MembersText, ElementsText, ValidMembers, ValidElements, MembersDepth, ElementsDepth,
      IsStringBody, IsScalar, AllWs;
    SkipWsSplit(s[1..]);
    var t := SkipWs(s[1..]);
    var ws := Consumed(s[1..], t);
    var rest := ScanObject(s, depth).value;
    assert s == "{" + (ws + t);
    if t != "" && t[0] == '}' {
      v := EmptyObject(ws);
      assert t == "}" + rest;
    } else {
      var ms := MembersSound(ws, t, depth);
      v := Object(ms);
    }
  }

  lemma {:induction false} MembersSound(ws: string, s: string, depth: nat) returns (ms: Members)
    requires AllWs(ws) && depth <= MAX_SCAN_DEPTH && ScanMembers(s, depth).Some?
    ensures ValidMembers(ms) && depth + MembersDepth(ms) <= MAX_SCAN_DEPTH
    ensures ws + s == MembersText(ms) + "}" + ScanMembers(s, depth).value
    decreases |s|, 1
  {
    hide ScanMembers, SkipWs, ValidMember, MemberText, Depth;
    var m, suffix := MemberSound(ws, s, depth);
    var rest := ScanMembers(s, depth).value;
    if suffix[0] == ',' {
      SkipWsSplit(suffix[1..]);
      var u := SkipWs(suffix[1..]);
      var w := Consumed(suffix[1..], u);
      var tail := MembersSound(w, u, depth);
      ms := MoreMembers(m, tail);
      assert suffix == "," + (w + u);
      assert ws + s == MemberText(m) + suffix;
    } else {
      ms := OneMember(m);
      assert suffix == "}" + rest;
    }
  }

  /** Reading one member leaves a text that starts with a comma or the closing brace. */
  lemma {:induction false} MemberSound(ws: string, s: string, depth: nat) returns (m: Member, suffix: string)
    requires AllWs(ws) && depth <= MAX_SCAN_DEPTH && ScanMembers(s, depth).Some?
    ensures ValidMember(m) && depth + Depth(m.value) <= MAX_SCAN_DEPTH
    ensures ws + s == MemberText(m) + suffix
    ensures suffix != "" && |suffix| < |s| && (suffix[0] == ',' || suffix[0] == '}')
    ensures ScanMembers(s, depth)
         == if suffix[0] == ',' then ScanMembers(SkipWs(suffix[1..]), depth) else Some(suffix[1..])
    ensures s == MemberBody(m, suffix)
    decreases |s|, 0
  {
    hide ScanValue, ScanString, SkipWs, ValidValue, ValueText, Depth, IsStringBody;
    ScanStringSound(s);
    var key := ScanString(s).value;
    SkipWsSplit(key.rest);
    var t := SkipWs(key.rest);
    var ws1 := Consumed(key.rest, t);
    var ws2, v := ValueSound(t[1..], depth);
    var after := ScanValue(t[1..], depth).value;
    SkipWsSplit(after);
    suffix := SkipWs(after);
    var ws3 := Consumed(after, suffix);
    m := Member(ws, key.body, ws1, ws2, v, ws3);
    assert t == ":" + (ws2 + ValueText(v) + (ws3 + suffix));
    assert key.rest == ws1 + t;
    assert s == MemberBody(m, suffix);
    MemberTextShape(m, suffix);
  }

  lemma {:induction false} ArraySound(s: string, depth: nat) returns (v: Value)
    requires s != "" && s[0] == '[' && ScanArray(s, depth).Some?
    ensures ValidValue(v) && depth - 1 + Depth(v) <= MAX_SCAN_DEPTH
    ensures s == ValueText(v) + ScanArray(s, depth).value
    decreases |s|, 0
  {
    hide ScanElements, SkipWs, MembersText, ElementsText, ValidMembers, ValidElements, MembersDepth, ElementsDepth,
      IsStringBody, IsScalar, AllWs;
    SkipWsSplit(s[1..]);
    var t := SkipWs(s[1..]);
    var ws := Consumed(s[1..], t);
    var rest := ScanArray(s, depth).value;
    assert s == "[" + (ws + t);
    if t != "" && t[0] == ']' {
      v := EmptyArray(ws);
      assert t == "]" + rest;
    } else {
      var es := ElementsSound(ws, t, depth);
      v := Array(es);
    }
  }

  lemma Regroup(a: string, b: string, c: string, d: string, e: string)
    ensures a + (b + c + (d + e)) == (a + b) + c + d + e
  {
  }

  lemma {:induction false} ElementsSound(ws: string, s: string, depth: nat) returns (es: Elements)
    requires AllWs(ws) && depth <= MAX_SCAN_DEPTH && ScanElements(s, depth).Some?
    ensures ValidElements(es) && depth + ElementsDepth(es) <= MAX_SCAN_DEPTH
    ensures ws + s == ElementsText(es) + "]" + ScanElements(s, depth).value
    decreases |s|, 2
  {
    hide ScanValue, SkipWs, ValidValue, ValueText, Depth;
    var ws0, v := ValueSound(s, depth);
    var after := ScanValue(s, depth).value;
    SkipWsSplit(after);
    var suffix := SkipWs(after);
    var e := Element(ws + ws0, v, Consumed(after, suffix));
    var rest := ScanElements(s, depth).value;
    Regroup(ws, ws0, ValueText(v), e.ws1, suffix);
    assert after == e.ws1 + suffix;
    assert ws + s == ElementText(e) + suffix;
    if suffix[0] == ',' {
      SkipWsSplit(suffix[1..]);
      var u := SkipWs(suffix[1..]);
      var w := Consumed(suffix[1..], u);
      var tail := ElementsSound(w, u, depth);
      es := MoreElements(e, tail);
      assert suffix == "," + (w + u);
    } else {
      es := OneElement(e);
      assert suffix == "]" + rest;
    }
  }

  ghost predicate IsSpaced(s: string, ws: string, v: Value, rest: string) {
    AllWs(ws) && ValidValue(v) && s == ws + ValueText(v) + rest
  }

  /**
   The scanner equals the grammar: reading a value off `s` succeeds, leaving a terminated `rest`, exactly when
   `s` is optional whitespace, a value nested at most 128 composites deep, and `rest`.
   */
  lemma ScannerEqualsGrammar(s: string, rest: string)
    requires Terminated(rest)
    ensures ScanValue(s, 0) == Some(rest)
       <==> exists ws, v :: IsSpaced(s, ws, v, rest) && Depth(v) <= 128
  {
    if ScanValue(s, 0) == Some(rest) {
      var ws, v := ValueSound(s, 0);
      assert IsSpaced(s, ws, v, rest);
    }
    if ws, v :| IsSpaced(s, ws, v, rest) && Depth(v) <= MAX_SCAN_DEPTH {
      ValueComplete(v, ws, rest, 0);
    }
  }
}
