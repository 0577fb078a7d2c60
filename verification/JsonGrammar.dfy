/**
 The grammar of RFC 8259, sections 2 to 7, as concrete syntax trees and their printed form.
 A byte sequence is a `string` with one char per byte. A text belongs to the grammar exactly when it is
 the printed form of a well-formed tree; nothing here mentions how a scanner would find that tree.
 */
module JsonGrammar {
  // Section 2: insignificant whitespace.
  predicate IsWs(c: char) {
    c == ' ' || c == '\n' || c == '\r' || c == '\t'
  }

  predicate AllWs(s: string) {
    forall k | 0 <= k < |s| :: IsWs(s[k])
  }

  // Section 7: strings.
  predicate IsHex(c: char) {
    '0' <= c <= '9' || 'a' <= c <= 'f' || 'A' <= c <= 'F'
  }

  predicate IsShortEscape(c: char) {
    c == '"' || c == '\\' || c == '/' || c == 'b' || c == 'f' || c == 'n' || c == 'r' || c == 't'
  }

  /** One character of a string literal: unescaped, a two-character escape, or a \uXXXX escape. */
  datatype StringElem = Plain(c: char) | Short(e: char) | Unicode(hex: string) {
    predicate Valid() {
      match this
      case Plain(c) => c >= ' ' && c != '"' && c != '\\'
      case Short(e) => IsShortEscape(e)
      case Unicode(hex) => |hex| == 4 && forall k | 0 <= k < 4 :: IsHex(hex[k])
    }

    function Text(): string {
      match this
      case Plain(c) => [c]
      case Short(e) => ['\\', e]
      case Unicode(hex) => ['\\', 'u'] + hex
    }
  }

  predicate ValidElems(es: seq<StringElem>) {
    forall k | 0 <= k < |es| :: es[k].Valid()
  }

  function ElemsText(es: seq<StringElem>): string {
    if es == [] then "" else es[0].Text() + ElemsText(es[1..])
  }

  // Section 8.1: text is encoded in UTF-8 (the byte sequences of RFC 3629, section 4).
  predicate IsTail(c: char) {
    0x80 <= c as int <= 0xBF
  }

  predicate Utf8Valid(s: string) {
    if s == [] then true
    else
      var c := s[0] as int;
      if c < 0x80 then Utf8Valid(s[1..])
      else if 0xC2 <= c <= 0xDF then |s| >= 2 && IsTail(s[1]) && Utf8Valid(s[2..])
      else if 0xE0 <= c <= 0xEF then
        && |s| >= 3 && IsTail(s[1]) && IsTail(s[2])
        && (c == 0xE0 ==> s[1] as int >= 0xA0) && (c == 0xED ==> s[1] as int <= 0x9F)
        && Utf8Valid(s[3..])
      else if 0xF0 <= c <= 0xF4 then
        && |s| >= 4 && IsTail(s[1]) && IsTail(s[2]) && IsTail(s[3])
        && (c == 0xF0 ==> s[1] as int >= 0x90) && (c == 0xF4 ==> s[1] as int <= 0x8F)
        && Utf8Valid(s[4..])
      else false
  }

  ghost predicate IsStringBody(body: string) {
    && Utf8Valid(body)
    && exists es :: ValidElems(es) && ElemsText(es) == body
  }

  // Section 6: numbers.
  predicate IsDigit(c: char) {
    '0' <= c <= '9'
  }

  predicate AllDigits(s: string) {
    forall k | 0 <= k < |s| :: IsDigit(s[k])
  }

  predicate IsInt(s: string) {
    s == "0" || (s != "" && AllDigits(s) && s[0] != '0')
  }

  predicate IsFrac(s: string) {
    s == "" || (|s| >= 2 && s[0] == '.' && AllDigits(s[1..]))
  }

  predicate IsSignedDigits(s: string) {
    || (|s| >= 1 && AllDigits(s))
    || (|s| >= 2 && (s[0] == '+' || s[0] == '-') && AllDigits(s[1..]))
  }

  predicate IsExp(s: string) {
    s == "" || ((s[0] == 'e' || s[0] == 'E') && IsSignedDigits(s[1..]))
  }

  predicate IsNumberOf(s: string, minus: string, digits: string, frac: string, exp: string) {
    && (minus == "" || minus == "-") && IsInt(digits) && IsFrac(frac) && IsExp(exp)
    && s == minus + (digits + (frac + exp))
  }

  /** number = [ minus ] int [ frac ] [ exp ] */
  ghost predicate IsNumber(s: string) {
    exists minus, digits, frac, exp :: IsNumberOf(s, minus, digits, frac, exp)
  }

  // Section 3: the literal names.
  ghost predicate IsScalar(s: string) {
    s == "true" || s == "false" || s == "null" || IsNumber(s)
  }

  // Sections 3 to 5: values, objects and arrays.
  datatype Value =
    | Str(body: string)
    | Scalar(text: string)
    | EmptyObject(ws: string)
    | Object(members: Members)
    | EmptyArray(ws: string)
    | Array(elements: Elements)

  datatype Member = Member(ws0: string, key: string, ws1: string, ws2: string, value: Value, ws3: string)
  datatype Members = OneMember(m: Member) | MoreMembers(m: Member, tail: Members)
  datatype Element = Element(ws0: string, value: Value, ws1: string)
  datatype Elements = OneElement(e: Element) | MoreElements(e: Element, tail: Elements)

  function ValueText(v: Value): string {
    match v
    case Str(body) => "\"" + body + "\""
    case Scalar(text) => text
    case EmptyObject(ws) => "{" + ws + "}"
    case Object(members) => "{" + MembersText(members) + "}"
    case EmptyArray(ws) => "[" + ws + "]"
    case Array(elements) => "[" + ElementsText(elements) + "]"
  }

  function MemberText(m: Member): string {
    m.ws0 + "\"" + m.key + "\"" + m.ws1 + ":" + m.ws2 + ValueText(m.value) + m.ws3
  }

  function MembersText(ms: Members): string {
    match ms
    case OneMember(m) => MemberText(m)
    case MoreMembers(m, tail) => MemberText(m) + "," + MembersText(tail)
  }

  function ElementText(e: Element): string {
    e.ws0 + ValueText(e.value) + e.ws1
  }

  function ElementsText(es: Elements): string {
    match es
    case OneElement(e) => ElementText(e)
    case MoreElements(e, tail) => ElementText(e) + "," + ElementsText(tail)
  }

  ghost predicate ValidValue(v: Value) {
    match v
    case Str(body) => IsStringBody(body)
    case Scalar(text) => IsScalar(text)
    case EmptyObject(ws) => AllWs(ws)
    case Object(members) => ValidMembers(members)
    case EmptyArray(ws) => AllWs(ws)
    case Array(elements) => ValidElements(elements)
  }

  ghost predicate ValidMember(m: Member) {
    && AllWs(m.ws0) && AllWs(m.ws1) && AllWs(m.ws2) && AllWs(m.ws3)
    && IsStringBody(m.key) && ValidValue(m.value)
  }

  ghost predicate ValidMembers(ms: Members) {
    ValidMember(ms.m) && (ms.MoreMembers? ==> ValidMembers(ms.tail))
  }

  ghost predicate ValidElement(e: Element) {
    AllWs(e.ws0) && AllWs(e.ws1) && ValidValue(e.value)
  }

  ghost predicate ValidElements(es: Elements) {
    ValidElement(es.e) && (es.MoreElements? ==> ValidElements(es.tail))
  }

  function Max(a: nat, b: nat): nat {
    if a < b then b else a
  }

  /** How many composites are nested in a value, counting the value itself. */
  function Depth(v: Value): nat {
    match v
    case Str(_) => 0
    case Scalar(_) => 0
    case EmptyObject(_) => 1
    case Object(members) => 1 + MembersDepth(members)
    case EmptyArray(_) => 1
    case Array(elements) => 1 + ElementsDepth(elements)
  }

  function MembersDepth(ms: Members): nat {
    match ms
    case OneMember(m) => Depth(m.value)
    case MoreMembers(m, tail) => Max(Depth(m.value), MembersDepth(tail))
  }

  function ElementsDepth(es: Elements): nat {
    match es
    case OneElement(e) => Depth(e.value)
    case MoreElements(e, tail) => Max(Depth(e.value), ElementsDepth(tail))
  }
}
