/** parseRPCMessage accepts exactly the envelopes of the grammar and returns the spans of their last members. */
module RpcParsing {
  import opened JsonGrammar
  import opened Options
  import opened JsonScanner
  import opened JsonTokens
  import opened JsonValues
  import opened RpcMessages

  // ---------- trimming ----------

  lemma {:induction false} TrimEndStops(s: string, w: string)
    requires AllWs(w) && (s == "" || !IsWs(s[|s| - 1]))
    ensures TrimEnd(s + w) == s
    decreases |w|
  {
    if w == "" {
      assert s + w == s;
    } else {
      var u := w[..|w| - 1];
      assert (s + w)[..|s + w| - 1] == s + u;
      TrimEndStops(s, u);
    }
  }

  lemma {:induction false} TrimEndSplit(s: string)
    ensures var t := TrimEnd(s); AllWs(s[|t|..]) && s == t + s[|t|..] && (t == "" || !IsWs(t[|t| - 1]))
  {
    if s != "" && IsWs(s[|s| - 1]) {
      var u := s[..|s| - 1];
      TrimEndSplit(u);
      var t := TrimEnd(u);
      assert s[|t|..] == u[|t|..] + [s[|s| - 1]];
    }
  }

  lemma TrimStops(before: string, s: string, after: string)
    requires AllWs(before) && AllWs(after) && s != "" && !IsWs(s[0]) && !IsWs(s[|s| - 1])
    ensures Trim(before + s + after) == s
  {
    assert before + s + after == before + (s + after);
    SkipWsStops(before, s + after);
    TrimEndStops(s, after);
  }

  lemma TrimSplit(s: string) returns (before: string, after: string)
    requires Trim(s) != ""
    ensures AllWs(before) && AllWs(after) && s == before + Trim(s) + after
    ensures !IsWs(Trim(s)[0]) && !IsWs(Trim(s)[|Trim(s)| - 1])
  {
    SkipWsSplit(s);
    var t := SkipWs(s);
    before := s[..|s| - |t|];
    TrimEndSplit(t);
    after := t[|Trim(s)|..];
    assert t[0] == Trim(s)[0];
  }

  lemma ValueEnd(v: Value)
    requires ValidValue(v)
    ensures ValueText(v) != "" && !IsWs(ValueText(v)[|ValueText(v)| - 1])
  {
    if v.Scalar? { ScalarChars(v.text); }
  }

  lemma TrimValue(v: Value)
    requires ValidValue(v)
    ensures Trim(ValueText(v)) == ValueText(v)
  {
    ValueStart(v);
    ValueEnd(v);
    assert "" + ValueText(v) + "" == ValueText(v);
    TrimStops("", ValueText(v), "");
  }

  // ---------- one member ----------

  lemma MethodValueMeaning(v: Value)
    requires ValidValue(v)
    ensures ParseMethodValue(ValueText(v)) == if v.Str? then Decoded(v.body) else None
  {
    ValueStart(v);
    if v.Str? {
      assert "\"" + v.body + "\"" + "" == ValueText(v);
      ScanStringComplete(v.body, "");
      InterningIsIdentity(v.body, METHODS);
    }
  }

  ghost predicate Sets(m: Member, msg: RpcMessage, decode: ErrorDecoder, r: Option<RpcMessage>) {
    r == if Admissible(m, decode) then Some(FieldsOf(OneMember(m), msg, decode)) else None
  }

  lemma SetFieldMeaning(m: Member, msg: RpcMessage, decode: ErrorDecoder)
    requires ValidMember(m)
    ensures Sets(m, msg, decode, SetField(msg, m.key, ValueText(m.value), decode))
  {
    hide ValidValue, ValueText, Decoded, ParseMethodValue;
    MethodValueMeaning(m.value);
  }

  /** Reading one member and handing the rest to the loop. */
  lemma ParseOneMember(m: Member, suffix: string, msg: RpcMessage, decode: ErrorDecoder)
    requires ValidMember(m) && Depth(m.value) <= MAX_SCAN_DEPTH
    requires suffix != "" && (suffix[0] == ',' || suffix[0] == '}')
    ensures ParseMembers(MemberText(m) + suffix, msg, decode)
         == if Admissible(m, decode) then ParseAfterValue(m.ws3 + suffix, FieldsOf(OneMember(m), msg, decode), decode)
            else None
  {
    hide ScanValue, ScanString, SkipWs, ValidValue, ValueText, Depth, IsStringBody, SetField, Trim, FieldsOf,
      Admissible, ParseAfterValue;
    MemberTextShape(m, suffix);
    SkipWsStops(m.ws0, MemberBody(m, suffix));
    var rest := m.ws3 + suffix;
    var v := ValueText(m.value) + rest;
    assert m.ws2 + ValueText(m.value) + rest == m.ws2 + v;
    ScanStringComplete(m.key, m.ws1 + (":" + (m.ws2 + v)));
    SkipWsStops(m.ws1, ":" + (m.ws2 + v));
    assert (":" + (m.ws2 + v))[1..] == m.ws2 + v;
    ValueStart(m.value);
    assert v[0] == ValueText(m.value)[0];
    SkipWsStops(m.ws2, v);
    assert "" + ValueText(m.value) + rest == v;
    assert Terminated(rest);
    ValueComplete(m.value, "", rest, 0);
    assert v[..|v| - |rest|] == ValueText(m.value);
    TrimValue(m.value);
    SetFieldMeaning(m, msg, decode);
  }

  lemma AfterValue(ws: string, suffix: string, msg: RpcMessage, decode: ErrorDecoder)
    requires AllWs(ws) && suffix != "" && (suffix[0] == ',' || suffix[0] == '}')
    ensures ParseAfterValue(ws + suffix, msg, decode)
         == if suffix[0] == '}' then if SkipWs(suffix[1..]) == "" then Some(msg) else None
            else if SkipWs(suffix[1..]) != "" && SkipWs(suffix[1..])[0] == '}' then None
            else ParseMembers(suffix[1..], msg, decode)
  {
    hide SkipWs, ParseMembers;
    SkipWsStops(ws, suffix);
  }

  // ---------- all members ----------

  lemma FieldsOfMore(m: Member, tail: Members, msg: RpcMessage, decode: ErrorDecoder)
    requires Admissible(m, decode) && AllAdmissible(tail, decode)
    ensures FieldsOf(tail, FieldsOf(OneMember(m), msg, decode), decode) == FieldsOf(MoreMembers(m, tail), msg, decode)
  {
    hide Decoded, ValueText;
    LastIsAdmissible(tail, "method", decode);
  }

  lemma {:induction false} LastIsAdmissible(ms: Members, name: string, decode: ErrorDecoder)
    requires AllAdmissible(ms, decode) && name == "method"
    ensures LastNamed(ms, name).Some? ==>
      LastNamed(ms, name).value.Str? && Decoded(LastNamed(ms, name).value.body).Some?
  {
    hide Decoded;
    if ms.MoreMembers? { LastIsAdmissible(ms.tail, name, decode); }
  }

  lemma {:induction false} ParseComplete(ms: Members, rest: string, msg: RpcMessage, decode: ErrorDecoder)
    requires ValidMembers(ms) && MembersDepth(ms) <= MAX_SCAN_DEPTH && AllWs(rest)
    ensures ParseMembers(MembersText(ms) + "}" + rest, msg, decode)
         == if AllAdmissible(ms, decode) then Some(FieldsOf(ms, msg, decode)) else None
  {
    hide SkipWs, ParseMembers, ParseAfterValue, ValidMember, MemberText, Depth, FieldsOf, Admissible;
    var m := ms.m;
    var suffix := if ms.OneMember? then "}" + rest else "," + (MembersText(ms.tail) + "}" + rest);
    assert MembersText(ms) + "}" + rest == MemberText(m) + suffix;
    ParseOneMember(m, suffix, msg, decode);
    assert AllWs(m.ws3) by { MemberWs(m); }
    var stored := FieldsOf(OneMember(m), msg, decode);
    AfterValue(m.ws3, suffix, stored, decode);
    if ms.MoreMembers? {
      assert suffix[1..] == MembersText(ms.tail) + "}" + rest;
      MembersComplete(ms.tail, rest, 0);
      ParseComplete(ms.tail, rest, stored, decode);
      if Admissible(m, decode) && AllAdmissible(ms.tail, decode) {
        FieldsOfMore(m, ms.tail, msg, decode);
      }
    } else {
      assert suffix[1..] == rest && rest + "" == rest;
      SkipWsStops(rest, "");
    }
  }

  lemma MemberWs(m: Member)
    requires ValidMember(m)
    ensures AllWs(m.ws3)
  {
  }

  lemma SkipWsTwice(s: string, depth: nat)
    ensures SkipWs(SkipWs(s)) == SkipWs(s)
    ensures ScanValue(SkipWs(s), depth) == ScanValue(s, depth)
  {
    SkipWsSplit(s);
    SkipWsStops("", SkipWs(s));
    assert "" + SkipWs(s) == SkipWs(s);
  }

  /** Whatever the parser accepts, the scanner of a nested object accepts too, up to the closing brace. */
  lemma {:induction false} ParseImpliesScan(s: string, msg: RpcMessage, decode: ErrorDecoder)
    requires ParseMembers(s, msg, decode).Some? && SkipWs(s) != ""
    requires SkipWs(s)[0] != '}'
    ensures ScanMembers(SkipWs(s), 0).Some? && AllWs(ScanMembers(SkipWs(s), 0).value)
    decreases |s|
  {
    hide ScanValue, ScanString, SkipWs, SetField, Trim;
    var t := SkipWs(s);
    var u := SkipWs(ScanString(t).value.rest);
    SkipWsTwice(u[1..], 0);
    var v := SkipWs(u[1..]);
    var r := ScanValue(v, 0).value;
    var stored := SetField(msg, ScanString(t).value.body, Trim(v[..|v| - |r|]), decode).value;
    var w := SkipWs(r);
    if w[0] == ',' {
      assert ParseMembers(w[1..], stored, decode).Some?;
      ParseImpliesScan(w[1..], stored, decode);
    } else {
      SkipWsSplit(w[1..]);
      assert w[1..] == w[1..][..|w[1..]|];
    }
  }

  // ---------- the theorems ----------

  lemma EnvelopeComplete(line: string, before: string, ms: Members, after: string, decode: ErrorDecoder)
    requires IsEnvelope(line, before, ms, after)
    ensures ParseMessage(line, decode) == if AllAdmissible(ms, decode) then Some(FieldsOf(ms, NO_FIELDS, decode)) else None
  {
    hide MembersText, ValidMembers, MembersDepth, ParseMembers, FieldsOf, AllAdmissible, Trim;
    var text := "{" + MembersText(ms) + "}";
    TrimStops(before, text, after);
    assert text[1..] == MembersText(ms) + "}" + "";
    ParseComplete(ms, "", NO_FIELDS, decode);
  }

  lemma EmptyEnvelopeComplete(line: string, before: string, ws: string, after: string, decode: ErrorDecoder)
    requires IsEmptyEnvelope(line, before, ws, after)
    ensures ParseMessage(line, decode) == Some(NO_FIELDS)
  {
    hide Trim, SkipWs, ParseAfterValue;
    var text := "{" + ws + "}";
    TrimStops(before, text, after);
    assert text[1..] == ws + "}";
    SkipWsStops(ws, "}");
    SkipWsStops("", "");
    assert "" + "" == "" && "}"[1..] == "";
  }

  lemma Braced(s: string, inner: string, rest: string)
    requires s == "{" + (inner + "}" + rest)
    ensures s == "" + ("{" + inner + "}") + rest
  {
  }

  lemma ParseSoundEmpty(s: string) returns (ws: string, after: string)
    requires s != "" && s[0] == '{'
    requires var t := SkipWs(s[1..]); t != "" && t[0] == '}' && SkipWs(t[1..]) == ""
    ensures IsEmptyEnvelope(s, "", ws, after)
  {
    hide SkipWs;
    SkipWsSplit(s[1..]);
    var t := SkipWs(s[1..]);
    SkipWsSplit(t[1..]);
    after := t[1..];
    assert after == after[..|after|];
    ws := s[1..][..|s[1..]| - |t|];
    assert t == "}" + after;
    assert s[1..] == ws + "}" + after;
    Braced(s, ws, after);
  }

  lemma ParseSoundMembers(s: string, decode: ErrorDecoder) returns (ms: Members, after: string)
    requires s != "" && s[0] == '{' && ParseMembers(s[1..], NO_FIELDS, decode).Some?
    requires SkipWs(s[1..]) != "" && SkipWs(s[1..])[0] != '}'
    ensures IsEnvelope(s, "", ms, after)
  {
    hide SkipWs, ScanMembers, ParseMembers, ValidMembers, MembersText, MembersDepth;
    ParseImpliesScan(s[1..], NO_FIELDS, decode);
    SkipWsSplit(s[1..]);
    var t := SkipWs(s[1..]);
    var ws := s[1..][..|s[1..]| - |t|];
    ms := MembersSound(ws, t, 0);
    after := ScanMembers(t, 0).value;
    Braced(s, MembersText(ms), after);
  }

  /** The trimmed line of an accepted message. */
  lemma ParseSoundTrimmed(s: string, decode: ErrorDecoder)
    requires s != "" && s[0] == '{' && ParseMembers(s[1..], NO_FIELDS, decode).Some?
    ensures (exists ms, after :: IsEnvelope(s, "", ms, after)) || (exists ws, after :: IsEmptyEnvelope(s, "", ws, after))
  {
    hide SkipWs, ScanString, ScanValue, SetField, ParseAfterValue, IsEnvelope, IsEmptyEnvelope;
    if SkipWs(s[1..])[0] == '}' {
      var ws, after := ParseSoundEmpty(s);
    } else {
      var ms, after := ParseSoundMembers(s, decode);
    }
  }

  lemma Surround(before: string, s: string, text: string, rest: string, after: string)
    requires s == "" + text + rest && AllWs(rest) && AllWs(after)
    ensures before + s + after == before + text + (rest + after) && AllWs(rest + after)
  {
  }

  lemma ParseSound(line: string, decode: ErrorDecoder)
    requires ParseMessage(line, decode).Some?
    ensures IsObjectText(line)
  {
    hide SkipWs, Trim, ParseMembers, ValidMembers, MembersText, MembersDepth;
    var before, after := TrimSplit(line);
    var s := Trim(line);
    ParseSoundTrimmed(s, decode);
    if ms, rest :| IsEnvelope(s, "", ms, rest) {
      Surround(before, s, "{" + MembersText(ms) + "}", rest, after);
      assert IsEnvelope(line, before, ms, rest + after);
    } else {
      var ws, rest :| IsEmptyEnvelope(s, "", ws, rest);
      Surround(before, s, "{" + ws + "}", rest, after);
      assert IsEmptyEnvelope(line, before, ws, rest + after);
    }
  }

  /**
   parseRPCMessage accepts a line exactly when it is an RFC 8259 text, each member value nested at most 128
   composites deep, whose members are all admissible; every field it returns is the exact text of the last
   member of that name, and the method is that member's decoded string.
   */
  lemma ParserEqualsGrammar(line: string, msg: RpcMessage, decode: ErrorDecoder)
    ensures ParseMessage(line, decode) == Some(msg) <==> Means(line, msg, decode)
  {
    hide ParseMessage, AllAdmissible, FieldsOf, IsEnvelope, IsEmptyEnvelope;
    forall before, ms, after | IsEnvelope(line, before, ms, after)
      ensures ParseMessage(line, decode)
           == if AllAdmissible(ms, decode) then Some(FieldsOf(ms, NO_FIELDS, decode)) else None
    {
      EnvelopeComplete(line, before, ms, after, decode);
    }
    forall before, ws, after | IsEmptyEnvelope(line, before, ws, after)
      ensures ParseMessage(line, decode) == Some(NO_FIELDS)
    {
      EmptyEnvelopeComplete(line, before, ws, after, decode);
    }
    if ParseMessage(line, decode) == Some(msg) {
      ParseSound(line, decode);
    }
  }
}
