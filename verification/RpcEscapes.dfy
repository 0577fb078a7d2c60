/** Which escaped keys and methods the parser understands, and what it makes of them. */
module RpcEscapes {
  import opened JsonGrammar
  import opened Options
  import opened RpcMessages
  import opened RpcParsing

  /** The text one element stands for (RFC 8259, section 7), surrogate escapes aside. */
  function Meaning(e: StringElem): string
    requires e.Valid()
  {
    match e
    case Plain(c) => [c]
    case Short(e) => [ShortMeaning(e)]
    case Unicode(hex) => Utf8(CodePoint(hex))
  }

  function MeaningOf(es: seq<StringElem>): string
    requires ValidElems(es)
  {
    if es == [] then "" else Meaning(es[0]) + MeaningOf(es[1..])
  }

  /** The two escapes that JSON has and the parser's unquoting does not. */
  predicate Unsupported(e: StringElem)
    requires e.Valid()
  {
    e == Short('/') || (e.Unicode? && IsSurrogate(CodePoint(e.hex)))
  }

  predicate Supported(es: seq<StringElem>)
    requires ValidElems(es)
  {
    forall k | 0 <= k < |es| :: !Unsupported(es[k])
  }

  // ---------- the meaning, without the functions that compute it ----------

  predicate IsNibble(c: char, d: nat) {
    d < 16 && (c == "0123456789abcdef"[d] || c == "0123456789ABCDEF"[d])
  }

  /** The code point that one UTF-8 sequence of up to three bytes encodes (RFC 3629, section 3). */
  function DecodedUtf8(s: string): int {
    if |s| == 1 then s[0] as int
    else if |s| == 2 then (s[0] as int - 0xC0) * 0x40 + (s[1] as int - 0x80)
    else if |s| == 3 then (s[0] as int - 0xE0) * 0x1000 + (s[1] as int - 0x80) * 0x40 + (s[2] as int - 0x80)
    else -1
  }

  /** The table of RFC 8259, section 7. */
  predicate StandsFor(e: char, c: int) {
    || (e == '"' && c == 0x22) || (e == '\\' && c == 0x5C) || (e == '/' && c == 0x2F) || (e == 'b' && c == 8)
    || (e == 'f' && c == 0xC) || (e == 'n' && c == 0xA) || (e == 'r' && c == 0xD) || (e == 't' && c == 9)
  }

  lemma NibblesOfHex(c: char)
    requires IsHex(c)
    ensures IsNibble(c, HexDigit(c)) && forall d | IsNibble(c, d) :: d == HexDigit(c)
  {
  }

  lemma Utf8IsDecoded(code: nat)
    requires code < 0x1_0000 && !IsSurrogate(code)
    ensures Utf8Valid(Utf8(code)) && DecodedUtf8(Utf8(code)) == code
    ensures |Utf8(code)| == if code < 0x80 then 1 else if code < 0x800 then 2 else 3
  {
    var s := Utf8(code);
    if code < 0x80 {
      assert s[1..] == "";
    } else if code < 0x800 {
      assert s[2..] == "";
    } else {
      assert s[3..] == "";
    }
  }

  /**
   What each element means: itself, its entry in the table of short escapes, or the one UTF-8 sequence that encodes
   the code point its four hexadecimal digits spell.
   */
  lemma MeaningIsStandard(e: StringElem, a: nat, b: nat, c: nat, d: nat)
    requires e.Valid() && !Unsupported(e)
    ensures e.Plain? ==> Meaning(e) == [e.c]
    ensures e.Short? ==> |Meaning(e)| == 1 && StandsFor(e.e, Meaning(e)[0] as int)
    ensures e.Unicode? && IsNibble(e.hex[0], a) && IsNibble(e.hex[1], b) && IsNibble(e.hex[2], c) && IsNibble(e.hex[3], d) ==>
      Utf8Valid(Meaning(e)) && DecodedUtf8(Meaning(e)) == a * 0x1000 + b * 0x100 + c * 0x10 + d
  {
    hide Utf8, Utf8Valid, HexDigit, IsNibble;
    if e.Unicode? {
      NibblesOfHex(e.hex[0]);
      NibblesOfHex(e.hex[1]);
      NibblesOfHex(e.hex[2]);
      NibblesOfHex(e.hex[3]);
      HexIsSmall(e.hex);
      Utf8IsDecoded(CodePoint(e.hex));
    }
  }

  lemma HexIsSmall(hex: string)
    requires |hex| == 4 && forall k | 0 <= k < 4 :: IsHex(hex[k])
    ensures CodePoint(hex) < 0x1_0000
  {
    NibblesOfHex(hex[0]);
    NibblesOfHex(hex[1]);
    NibblesOfHex(hex[2]);
    NibblesOfHex(hex[3]);
  }

  lemma UnquoteElem(e: StringElem, rest: string)
    requires e.Valid()
    ensures Unquote(e.Text() + rest) == if Unsupported(e) then None else Append(Meaning(e), Unquote(rest))
  {
    var s := e.Text() + rest;
    assert s[|e.Text()|..] == rest;
    match e
    case Plain(_) =>
    case Short(_) =>
    case Unicode(hex) => assert s[2..6] == hex;
  }

  /** Unquoting succeeds exactly on bodies without `\/` and surrogate escapes, and then yields their meaning. */
  lemma {:induction false} UnquoteExact(es: seq<StringElem>)
    requires ValidElems(es)
    ensures Unquote(ElemsText(es)) == if Supported(es) then Some(MeaningOf(es)) else None
  {
    if es != [] {
      UnquoteElem(es[0], ElemsText(es[1..]));
      UnquoteExact(es[1..]);
      assert Supported(es) <==> !Unsupported(es[0]) && Supported(es[1..]);
    }
  }

  lemma {:induction false} PlainMeaning(es: seq<StringElem>)
    requires ValidElems(es) && '\\' !in ElemsText(es)
    ensures Supported(es) && MeaningOf(es) == ElemsText(es)
  {
    if es != [] {
      assert ElemsText(es)[0] == es[0].Text()[0];
      assert ElemsText(es)[1..] == ElemsText(es[1..]);
      PlainMeaning(es[1..]);
    }
  }

  /** A key or method is read as RFC 8259 means it, except that two kinds of escapes reject the whole line. */
  lemma DecodedExact(es: seq<StringElem>)
    requires ValidElems(es)
    ensures Decoded(ElemsText(es)) == if Supported(es) then Some(MeaningOf(es)) else None
  {
    if '\\' in ElemsText(es) {
      UnquoteExact(es);
    } else {
      PlainMeaning(es);
    }
  }

  /** An envelope with such an escape in any key, or in a method, is refused as a whole. */
  lemma UnsupportedEscapeRejects(line: string, before: string, ms: Members, after: string, m: Member,
                                 es: seq<StringElem>, decode: ErrorDecoder)
    requires IsEnvelope(line, before, ms, after) && IsMemberOf(m, ms)
    requires ValidElems(es) && !Supported(es)
    requires m.key == ElemsText(es) || (Decoded(m.key) == Some("method") && m.value == Str(ElemsText(es)))
    ensures ParseMessage(line, decode) == None
  {
    EnvelopeComplete(line, before, ms, after, decode);
    DecodedExact(es);
    MemberDecides(m, ms, decode);
  }

  // ---------- the acceptance condition in the grammar's own terms ----------

  /** A string body without the two escapes. */
  ghost predicate Readable(body: string) {
    exists es :: ValidElems(es) && ElemsText(es) == body && Supported(es)
  }

  /** A string body that means `text`. */
  ghost predicate Spells(body: string, text: string) {
    exists es :: ValidElems(es) && ElemsText(es) == body && Supported(es) && MeaningOf(es) == text
  }

  /** Its key is readable; a method is a readable string; an error decodes. */
  ghost predicate Clear(m: Member, decode: ErrorDecoder) {
    && Readable(m.key)
    && (Spells(m.key, "method") ==> m.value.Str? && Readable(m.value.body))
    && (Spells(m.key, "error") ==> decode(ValueText(m.value)).Some?)
  }

  ghost predicate AllClear(ms: Members, decode: ErrorDecoder) {
    Clear(ms.m, decode) && (ms.MoreMembers? ==> AllClear(ms.tail, decode))
  }

  lemma DecodedMeaning(body: string, text: string)
    requires IsStringBody(body)
    ensures Decoded(body).Some? <==> Readable(body)
    ensures Decoded(body) == Some(text) <==> Spells(body, text)
  {
    hide Decoded, Supported, MeaningOf, ElemsText, ValidElems, Utf8Valid;
    var es :| ValidElems(es) && ElemsText(es) == body;
    DecodedExact(es);
    forall fs | ValidElems(fs) && ElemsText(fs) == body
      ensures Decoded(body) == if Supported(fs) then Some(MeaningOf(fs)) else None
    {
      DecodedExact(fs);
    }
  }

  lemma ClearIsAdmissible(m: Member, decode: ErrorDecoder)
    requires ValidMember(m)
    ensures Clear(m, decode) <==> Admissible(m, decode)
  {
    hide Decoded, Readable, Spells, IsStringBody, ValueText;
    DecodedMeaning(m.key, "method");
    DecodedMeaning(m.key, "error");
    if m.value.Str? { DecodedMeaning(m.value.body, ""); }
  }

  lemma {:induction false} AllClearIsAllAdmissible(ms: Members, decode: ErrorDecoder)
    requires ValidMembers(ms)
    ensures AllClear(ms, decode) <==> AllAdmissible(ms, decode)
  {
    hide Clear, Admissible, ValidMember;
    ClearIsAdmissible(ms.m, decode);
    if ms.MoreMembers? { AllClearIsAllAdmissible(ms.tail, decode); }
  }

  /**
   An object of the grammar within the depth cap is accepted exactly when no key and no method uses one of the two
   escapes, every method is a string and every error decodes.
   */
  lemma AcceptedExactly(line: string, before: string, ms: Members, after: string, decode: ErrorDecoder)
    requires IsEnvelope(line, before, ms, after)
    ensures ParseMessage(line, decode).Some? <==> AllClear(ms, decode)
  {
    hide ParseMessage, AllClear, AllAdmissible, FieldsOf, MembersText, MembersDepth;
    EnvelopeComplete(line, before, ms, after, decode);
    AllClearIsAllAdmissible(ms, decode);
  }

  predicate IsMemberOf(m: Member, ms: Members) {
    m == ms.m || (ms.MoreMembers? && IsMemberOf(m, ms.tail))
  }

  lemma {:induction false} MemberDecides(m: Member, ms: Members, decode: ErrorDecoder)
    requires IsMemberOf(m, ms) && !Admissible(m, decode)
    ensures !AllAdmissible(ms, decode)
  {
    if m != ms.m { MemberDecides(m, ms.tail, decode); }
  }

  lemma SolidusKey()
    ensures var es := [Plain('a'), Short('/'), Plain('b')];
      ValidElems(es) && ElemsText(es) == "a\\/b" && !Supported(es) && IsStringBody("a\\/b")
  {
    var es := [Plain('a'), Short('/'), Plain('b')];
    assert es[1..] == [Short('/'), Plain('b')] && es[1..][1..] == [Plain('b')];
    assert Unsupported(es[1]);
    assert Utf8Valid("a\\/b");
  }

  lemma OneIsNumber()
    ensures IsScalar("1")
  {
    assert IsNumberOf("1", "", "1", "", "");
  }

  lemma SingleMember(line: string, key: string, text: string)
    requires IsStringBody(key) && IsScalar(text)
    requires line == "" + ("{" + ("" + "\"" + key + "\"" + "" + ":" + "" + text + "") + "}") + ""
    ensures IsEnvelope(line, "", OneMember(Member("", key, "", "", Scalar(text), "")), "")
  {
    hide IsStringBody, IsScalar;
    var m := Member("", key, "", "", Scalar(text), "");
    assert ValueText(m.value) == text && ValidValue(m.value) && Depth(m.value) == 0;
    assert MembersText(OneMember(m)) == MemberText(m) && MembersDepth(OneMember(m)) == 0;
    assert ValidMember(m);
  }

  lemma SolidusEnvelope()
    ensures IsEnvelope("{\"a\\/b\":1}", "", OneMember(Member("", "a\\/b", "", "", Scalar("1"), "")), "")
  {
    hide *;
    SolidusKey();
    OneIsNumber();
    SingleMember("{\"a\\/b\":1}", "a\\/b", "1");
  }

  /** `{"a\/b":1}` is a JSON object and not a message: the key's escape is one the parser does not know. */
  lemma SolidusKeyIsRejected(decode: ErrorDecoder)
    ensures var line := "{\"a\\/b\":1}";
      (exists before, ms, after :: IsEnvelope(line, before, ms, after)) && ParseMessage(line, decode) == None
  {
    hide *;
    var m := Member("", "a\\/b", "", "", Scalar("1"), "");
    SolidusEnvelope();
    SolidusKey();
    assert IsMemberOf(m, OneMember(m)) by { OnlyMember(m); }
    UnsupportedEscapeRejects("{\"a\\/b\":1}", "", OneMember(m), "", m,
      [Plain('a'), Short('/'), Plain('b')], decode);
  }

  lemma OnlyMember(m: Member)
    ensures IsMemberOf(m, OneMember(m))
  {
  }
}
