/** Reading back what the peer prints: requests, notifications and results survive the wire unchanged. */
module RpcRoundTrip {
  import opened JsonGrammar
  import opened Options
  import opened JsonScanner
  import opened RpcMessages
  import opened RpcParsing
  import opened RpcEscapes
  import opened RpcPrinting
  import opened Decimal

  // ---------- quoting ----------

  function QuotedElem(c: char): StringElem {
    if c == '"' || c == '\\' then Short(c) else Plain(c)
  }

  function QuotedElems(s: string): (es: seq<StringElem>)
    ensures |es| == |s| && forall k | 0 <= k < |s| :: es[k] == QuotedElem(s[k])
  {
    seq(|s|, k requires 0 <= k < |s| => QuotedElem(s[k]))
  }

  lemma QuotedElemMeaning(c: char)
    requires ' ' <= c <= '~'
    ensures var e := QuotedElem(c);
      e.Valid() && !Unsupported(e) && Meaning(e) == [c] && 1 <= |e.Text()| <= 2
      && e.Text() == (if c == '"' || c == '\\' then ['\\', c] else [c])
  {
  }

  lemma {:induction false} QuotedText(s: string)
    requires Printable(s)
    ensures ValidElems(QuotedElems(s)) && ElemsText(QuotedElems(s)) == QuoteBody(s)
    ensures Supported(QuotedElems(s)) && MeaningOf(QuotedElems(s)) == s
    ensures Utf8Valid(QuoteBody(s))
  {
    if s != "" {
      hide QuotedElem, Unsupported, Meaning, StringElem.Valid, StringElem.Text, Utf8Valid;
      QuotedText(s[1..]);
      QuotedElemMeaning(s[0]);
      var es := QuotedElems(s);
      assert es == [QuotedElem(s[0])] + QuotedElems(s[1..]);
      assert es[1..] == QuotedElems(s[1..]);
      assert s == [s[0]] + s[1..];
      Utf8Ascii(QuotedElem(s[0]).Text(), QuoteBody(s[1..]));
    } else {
      assert QuotedElems(s) == [];
    }
  }

  lemma Utf8Ascii(head: string, tail: string)
    requires 1 <= |head| <= 2 && Utf8Valid(tail)
    requires forall k | 0 <= k < |head| :: head[k] as int < 0x80
    ensures Utf8Valid(head + tail)
  {
    if |head| == 1 {
      assert (head + tail)[1..] == tail;
    } else {
      assert (head + tail)[1..] == head[1..] + tail;
      assert (head[1..] + tail)[1..] == tail;
    }
  }

  /** Quoting a printable name gives a string body that decodes to the name. */
  lemma QuoteDecodes(s: string)
    requires Printable(s)
    ensures IsStringBody(QuoteBody(s)) && Decoded(QuoteBody(s)) == Some(s)
  {
    QuotedText(s);
    DecodedExact(QuotedElems(s));
  }

  lemma PlainKey(s: string)
    requires Printable(s) && PlainName(s)
    ensures IsStringBody(s) && Decoded(s) == Some(s)
  {
    QuoteDecodes(s);
    QuoteBodyPlain(s);
  }

  // ---------- messages on the wire ----------

  ghost predicate IsRaw(s: string) {
    exists v :: ValidValue(v) && Depth(v) <= MAX_SCAN_DEPTH && ValueText(v) == s
  }

  /** What Notify, Call and a successful handler print: the shapes of the fast paths over valid raw values. */
  ghost predicate IsSendable(msg: RpcMessage) {
    && TakesFastPath(msg) && Printable(msg.methodName)
    && (msg.id != "" ==> IsRaw(msg.id)) && (msg.params != "" ==> IsRaw(msg.params))
    && (msg.result != "" ==> IsRaw(msg.result))
    && (IsResultShape(msg) ==> msg.params == "")
  }

  function Compact(key: string, v: Value): Member {
    Member("", key, "", "", v, "")
  }

  lemma CompactText(key: string, v: Value)
    ensures MemberText(Compact(key, v)) == Prefix(true, key) + ValueText(v)
    ensures "," + MemberText(Compact(key, v)) == Prefix(false, key) + ValueText(v)
  {
  }

  lemma Keys()
    ensures PlainName("jsonrpc") && Printable("jsonrpc") && PlainName("id") && Printable("id")
    ensures PlainName("method") && Printable("method") && PlainName("params") && Printable("params")
    ensures PlainName("result") && Printable("result") && PlainName("2.0") && Printable("2.0")
  {
  }

  lemma KeyMeanings()
    ensures forall key | key in {"jsonrpc", "id", "method", "params", "result"} ::
      IsStringBody(key) && Decoded(key) == Some(key)
    ensures IsStringBody("2.0")
  {
    Keys();
    hide PlainName, Printable, IsStringBody, Decoded;
    PlainKey("jsonrpc");
    PlainKey("id");
    PlainKey("method");
    PlainKey("params");
    PlainKey("result");
    PlainKey("2.0");
  }

  function Version(): Member {
    Compact("jsonrpc", Str("2.0"))
  }

  lemma VersionMember()
    ensures ValidMember(Version()) && "{" + MemberText(Version()) == VersionHead() && Depth(Version().value) == 0
  {
    KeyMeanings();
    hide IsStringBody, Decoded;
    VersionText();
    QuotedVersion();
    CompactText("jsonrpc", Str("2.0"));
    hide Prefix, Quote, VersionHead;
    assert ValueText(Str("2.0")) == "\"2.0\"";
  }

  /** The members that follow the version in a printed message. */
  ghost predicate Follows(msg: RpcMessage, id: Value, name: Value, params: Value, result: Value) {
    && (msg.id != "" ==> ValidValue(id) && Depth(id) <= MAX_SCAN_DEPTH && ValueText(id) == msg.id)
    && name == Str(QuoteBody(msg.methodName))
    && (msg.params != "" ==> ValidValue(params) && Depth(params) <= MAX_SCAN_DEPTH && ValueText(params) == msg.params)
    && (msg.result != "" ==> ValidValue(result) && Depth(result) <= MAX_SCAN_DEPTH && ValueText(result) == msg.result)
  }

  function CallMembers(msg: RpcMessage, id: Value, name: Value, params: Value): Members {
    var tail := MoreMembers(Compact("method", name), OneMember(Compact("params", params)));
    MoreMembers(Version(), if msg.id == "" then tail else MoreMembers(Compact("id", id), tail))
  }

  function ResultMembers(id: Value, result: Value): Members {
    MoreMembers(Version(), MoreMembers(Compact("id", id), OneMember(Compact("result", result))))
  }

  lemma PartTexts(id: Value, name: Value, params: Value, result: Value)
    ensures "," + MemberText(Compact("id", id)) == IdPart() + ValueText(id)
    ensures "," + MemberText(Compact("method", name)) == MethodPart() + ValueText(name)
    ensures "," + MemberText(Compact("params", params)) == ParamsPart() + ValueText(params)
    ensures "," + MemberText(Compact("result", result)) == ResultPart() + ValueText(result)
  {
    IdText();
    MethodText();
    ParamsText();
    ResultText();
    CompactText("id", id);
    CompactText("method", name);
    CompactText("params", params);
    CompactText("result", result);
    hide Prefix, IdPart, MethodPart, ParamsPart, ResultPart, MemberText, ValueText;
  }

  lemma MoreText(m: Member, tail: Members)
    ensures MembersText(MoreMembers(m, tail)) == MemberText(m) + ("," + MembersText(tail))
    ensures MembersText(OneMember(m)) == MemberText(m)
  {
  }

  lemma Join3(head: string, v: string, b: string, b': string, p: string, p': string)
    requires "{" + v == head
    ensures "{" + (v + ((b + b') + (p + p'))) + "}" == head + b + b' + p + p' + "}"
  {
  }

  lemma Join4(head: string, v: string, a: string, a': string, b: string, b': string, p: string, p': string)
    requires "{" + v == head
    ensures "{" + (v + ((a + a') + ((b + b') + (p + p')))) + "}" == head + a + a' + b + b' + p + p' + "}"
  {
  }

  lemma TailText(a: Member, b: Members, text: string)
    requires MembersText(b) == text
    ensures "," + MembersText(MoreMembers(a, b)) == ("," + MemberText(a)) + ("," + text)
  {
  }

  lemma CallText(msg: RpcMessage, id: Value, name: Value, params: Value, result: Value)
    requires TakesFastPath(msg) && !IsResultShape(msg) && Follows(msg, id, name, params, result)
    ensures MessageText(msg) == "{" + MembersText(CallMembers(msg, id, name, params)) + "}"
  {
    VersionMember();
    PartTexts(id, name, params, result);
    MethodValueIsQuote(msg.methodName);
    var last := OneMember(Compact("params", params));
    var tail := MoreMembers(Compact("method", name), last);
    MoreText(Compact("params", params), last);
    TailText(Compact("method", name), last, MemberText(Compact("params", params)));
    assert ValueText(name) == Quote(msg.methodName);
    var v := MemberText(Version());
    var quoted := Quote(msg.methodName);
    hide VersionHead, IdPart, MethodPart, ParamsPart, ResultPart, MethodValue, MemberText, ValueText, Quote, Compact,
      Version, MembersText;
    if msg.id == "" {
      MoreText(Version(), tail);
      Join3(VersionHead(), v, MethodPart(), quoted, ParamsPart(), msg.params);
    } else {
      TailText(Compact("id", id), tail, MembersText(tail));
      MoreText(Version(), MoreMembers(Compact("id", id), tail));
      Join4(VersionHead(), v, IdPart(), msg.id, MethodPart(), quoted, ParamsPart(), msg.params);
    }
  }

  lemma ReplyText(msg: RpcMessage, id: Value, name: Value, params: Value, result: Value)
    requires TakesFastPath(msg) && IsResultShape(msg) && Follows(msg, id, name, params, result)
    ensures MessageText(msg) == "{" + MembersText(ResultMembers(id, result)) + "}"
  {
    VersionMember();
    PartTexts(id, name, params, result);
    var last := OneMember(Compact("result", result));
    MoreText(Compact("result", result), last);
    TailText(Compact("id", id), last, MemberText(Compact("result", result)));
    hide VersionHead, IdPart, MethodPart, ParamsPart, ResultPart, MethodValue, MemberText, ValueText, Compact, Version,
      MembersText;
    MoreText(Version(), MoreMembers(Compact("id", id), last));
    Join3(VersionHead(), MemberText(Version()), IdPart(), msg.id, ResultPart(), msg.result);
  }

  lemma CompactIsValid(key: string, v: Value)
    requires IsStringBody(key) && ValidValue(v)
    ensures ValidMember(Compact(key, v))
  {
    hide IsStringBody, ValidValue;
  }

  lemma CallParses(msg: RpcMessage, id: Value, name: Value, params: Value, result: Value, decode: ErrorDecoder)
    requires IsSendable(msg) && !IsResultShape(msg) && Follows(msg, id, name, params, result)
    ensures ParseMessage(MessageText(msg), decode) == Some(msg.(jsonrpc := ""))
  {
    var ms := CallMembers(msg, id, name, params);
    CallText(msg, id, name, params, result);
    VersionMember();
    KeyMeanings();
    QuoteDecodes(msg.methodName);
    assert ValidValue(name) && Depth(name) == 0;
    hide IsStringBody, Decoded, QuoteBody, MessageText, MembersText, ValueText, ValidValue, Depth;
    CompactIsValid("method", name);
    CompactIsValid("params", params);
    if msg.id != "" {
      CompactIsValid("id", id);
    }
    assert IsEnvelope(MessageText(msg), "", ms, "") by { CallIsEnvelope(msg, id, name, params); }
    CallFields(msg, id, name, params);
    CallAdmissible(msg, id, QuoteBody(msg.methodName), params, decode);
    var sentId := if msg.id == "" then None else Some(id);
    FieldsMessage(ms, sentId, Some(name), Some(params), None, decode);
    hide FieldsOf, AllAdmissible, Fields, CallMembers;
    EnvelopeComplete(MessageText(msg), "", ms, "", decode);
  }

  lemma CallIsEnvelope(msg: RpcMessage, id: Value, name: Value, params: Value)
    requires MessageText(msg) == "{" + MembersText(CallMembers(msg, id, name, params)) + "}"
    requires ValidMember(Version()) && ValidMember(Compact("method", name)) && ValidMember(Compact("params", params))
    requires msg.id != "" ==> ValidMember(Compact("id", id)) && Depth(id) <= MAX_SCAN_DEPTH
    requires Depth(Version().value) == 0 && Depth(name) == 0 && Depth(params) <= MAX_SCAN_DEPTH
    ensures IsEnvelope(MessageText(msg), "", CallMembers(msg, id, name, params), "")
  {
    hide ValidMember, MembersText, MessageText, Depth;
    var last := OneMember(Compact("params", params));
    var tail := MoreMembers(Compact("method", name), last);
    assert ValidMembers(last) && MembersDepth(last) == Depth(params);
    assert ValidMembers(tail) && MembersDepth(tail) <= MAX_SCAN_DEPTH;
    var ms := CallMembers(msg, id, name, params);
    assert ValidMembers(ms) && MembersDepth(ms) <= MAX_SCAN_DEPTH by {
      if msg.id != "" {
        assert ValidMembers(MoreMembers(Compact("id", id), tail));
      }
    }
    var text := "{" + MembersText(ms) + "}";
    assert "" + text + "" == text;
  }

  /** The six names of an envelope are told apart by length or first character. */
  lemma NamesDiffer()
    ensures "jsonrpc" != "id" && "jsonrpc" != "method" && "jsonrpc" != "params" && "jsonrpc" != "result" && "jsonrpc" != "error"
    ensures "id" != "method" && "id" != "params" && "id" != "result" && "id" != "error"
    ensures "method" != "params" && "method" != "result" && "method" != "error"
    ensures "params" != "result" && "params" != "error" && "result" != "error"
  {
    assert |"jsonrpc"| == 7 && |"id"| == 2 && |"error"| == 5;
    assert |"method"| == 6 && "method"[0] == 'm';
    assert |"params"| == 6 && "params"[0] == 'p';
    assert |"result"| == 6 && "result"[0] == 'r';
  }

  /** One member at a time: what the members from a compact one on say about a name. */
  lemma NamedAhead(key: string, v: Value, tail: Members, name: string)
    requires Decoded(key) == Some(key)
    ensures LastNamed(OneMember(Compact(key, v)), name) == if key == name then Some(v) else None
    ensures LastNamed(MoreMembers(Compact(key, v), tail), name)
         == if LastNamed(tail, name).Some? then LastNamed(tail, name) else if key == name then Some(v) else None
  {
    hide Decoded;
  }

  /** What each of the envelope's five fields finds. */
  ghost predicate Fields(
      ms: Members, id: Option<Value>, name: Option<Value>, params: Option<Value>, result: Option<Value>)
  {
    && LastNamed(ms, "id") == id && LastNamed(ms, "method") == name && LastNamed(ms, "params") == params
    && LastNamed(ms, "result") == result && LastNamed(ms, "error") == None
  }

  lemma FieldsAhead(key: string, v: Value, tail: Members)
    requires Decoded(key) == Some(key)
    ensures forall name | name in {"id", "method", "params", "result", "error"} ::
      LastNamed(OneMember(Compact(key, v)), name) == if key == name then Some(v) else None
    ensures forall name | name in {"id", "method", "params", "result", "error"} ::
      LastNamed(MoreMembers(Compact(key, v), tail), name)
      == if LastNamed(tail, name).Some? then LastNamed(tail, name) else if key == name then Some(v) else None
  {
    hide Decoded, LastNamed, Compact;
    forall name | name in {"id", "method", "params", "result", "error"}
      ensures LastNamed(OneMember(Compact(key, v)), name) == if key == name then Some(v) else None
      ensures LastNamed(MoreMembers(Compact(key, v), tail), name)
           == if LastNamed(tail, name).Some? then LastNamed(tail, name) else if key == name then Some(v) else None
    {
      NamedAhead(key, v, tail, name);
    }
  }

  lemma CallFields(msg: RpcMessage, id: Value, name: Value, params: Value)
    requires forall key | key in {"jsonrpc", "id", "method", "params", "result"} :: Decoded(key) == Some(key)
    ensures Fields(CallMembers(msg, id, name, params), if msg.id == "" then None else Some(id), Some(name), Some(params), None)
  {
    hide Decoded, LastNamed, Compact;
    NamesDiffer();
    var last := OneMember(Compact("params", params));
    var tail := MoreMembers(Compact("method", name), last);
    FieldsAhead("params", params, last);
    assert Fields(last, None, None, Some(params), None);
    FieldsAhead("method", name, last);
    assert Fields(tail, None, Some(name), Some(params), None);
    var more := MoreMembers(Compact("id", id), tail);
    FieldsAhead("id", id, tail);
    assert Fields(more, Some(id), Some(name), Some(params), None);
    VersionIsCompact();
    FieldsAhead("jsonrpc", Str("2.0"), if msg.id == "" then tail else more);
  }

  lemma VersionIsCompact()
    ensures Version() == Compact("jsonrpc", Str("2.0"))
  {
  }

  lemma CallAdmissible(msg: RpcMessage, id: Value, body: string, params: Value, decode: ErrorDecoder)
    requires forall key | key in {"jsonrpc", "id", "method", "params", "result"} :: Decoded(key) == Some(key)
    requires Decoded(body).Some?
    ensures AllAdmissible(CallMembers(msg, id, Str(body), params), decode)
  {
    hide Decoded;
    NamesDiffer();
    var last := OneMember(Compact("params", params));
    var tail := MoreMembers(Compact("method", Str(body)), last);
    assert AllAdmissible(last, decode);
    assert AllAdmissible(tail, decode);
    assert AllAdmissible(MoreMembers(Compact("id", id), tail), decode);
  }

  lemma FieldsMessage(
      ms: Members, id: Option<Value>, name: Option<Value>, params: Option<Value>, result: Option<Value>, decode: ErrorDecoder)
    requires Fields(ms, id, name, params, result)
    ensures FieldsOf(ms, NO_FIELDS, decode) == RpcMessage(
      NO_FIELDS.jsonrpc, TextOf(id, NO_FIELDS.id),
      if name.Some? && name.value.Str? && Decoded(name.value.body).Some? then Decoded(name.value.body).value
      else NO_FIELDS.methodName,
      TextOf(params, NO_FIELDS.params), TextOf(result, NO_FIELDS.result), NO_FIELDS.error)
  {
    hide Decoded, LastNamed, TextOf;
  }

  lemma ReplyParses(msg: RpcMessage, id: Value, name: Value, params: Value, result: Value, decode: ErrorDecoder)
    requires IsSendable(msg) && IsResultShape(msg) && Follows(msg, id, name, params, result)
    ensures ParseMessage(MessageText(msg), decode) == Some(msg.(jsonrpc := ""))
  {
    var ms := ResultMembers(id, result);
    ReplyText(msg, id, name, params, result);
    VersionMember();
    KeyMeanings();
    hide IsStringBody, Decoded, QuoteBody, MessageText, MembersText, ValueText, ValidValue, Depth;
    CompactIsValid("id", id);
    CompactIsValid("result", result);
    ReplyIsEnvelope(msg, id, result);
    ReplyFields(id, result);
    ReplyAdmissible(id, result, decode);
    FieldsMessage(ms, Some(id), None, None, Some(result), decode);
    hide FieldsOf, AllAdmissible, Fields, ResultMembers;
    EnvelopeComplete(MessageText(msg), "", ms, "", decode);
  }

  lemma ReplyIsEnvelope(msg: RpcMessage, id: Value, result: Value)
    requires MessageText(msg) == "{" + MembersText(ResultMembers(id, result)) + "}"
    requires ValidMember(Version()) && ValidMember(Compact("id", id)) && ValidMember(Compact("result", result))
    requires Depth(Version().value) == 0 && Depth(id) <= MAX_SCAN_DEPTH && Depth(result) <= MAX_SCAN_DEPTH
    ensures IsEnvelope(MessageText(msg), "", ResultMembers(id, result), "")
  {
    hide ValidMember, MembersText, MessageText, Depth;
    var last := OneMember(Compact("result", result));
    var tail := MoreMembers(Compact("id", id), last);
    assert ValidMembers(last) && MembersDepth(last) == Depth(result);
    assert ValidMembers(tail) && MembersDepth(tail) <= MAX_SCAN_DEPTH;
    var text := "{" + MembersText(ResultMembers(id, result)) + "}";
    assert "" + text + "" == text;
  }

  lemma ReplyFields(id: Value, result: Value)
    requires forall key | key in {"jsonrpc", "id", "method", "params", "result"} :: Decoded(key) == Some(key)
    ensures Fields(ResultMembers(id, result), Some(id), None, None, Some(result))
  {
    hide Decoded, LastNamed, Compact;
    NamesDiffer();
    var last := OneMember(Compact("result", result));
    var tail := MoreMembers(Compact("id", id), last);
    FieldsAhead("result", result, last);
    assert Fields(last, None, None, None, Some(result));
    FieldsAhead("id", id, last);
    assert Fields(tail, Some(id), None, None, Some(result));
    VersionIsCompact();
    FieldsAhead("jsonrpc", Str("2.0"), tail);
  }

  lemma ReplyAdmissible(id: Value, result: Value, decode: ErrorDecoder)
    requires forall key | key in {"jsonrpc", "id", "method", "params", "result"} :: Decoded(key) == Some(key)
    ensures AllAdmissible(ResultMembers(id, result), decode)
  {
    hide Decoded;
    NamesDiffer();
    var last := OneMember(Compact("result", result));
    assert AllAdmissible(last, decode);
    assert AllAdmissible(MoreMembers(Compact("id", id), last), decode);
  }

  /** A printed request, notification or result parses back to the same id, method, params and result. */
  lemma MessageRoundTrip(msg: RpcMessage, decode: ErrorDecoder)
    requires IsSendable(msg)
    ensures ParseMessage(MessageText(msg), decode) == Some(msg.(jsonrpc := ""))
  {
    hide ParseMessage, MessageText, ValidValue, ValueText, Depth, QuoteBody, Printable;
    var id := if msg.id == "" then Scalar("") else var v :| ValidValue(v) && Depth(v) <= MAX_SCAN_DEPTH && ValueText(v) == msg.id; v;
    var params := if msg.params == "" then Scalar("") else var v :| ValidValue(v) && Depth(v) <= MAX_SCAN_DEPTH && ValueText(v) == msg.params; v;
    var result := if msg.result == "" then Scalar("") else var v :| ValidValue(v) && Depth(v) <= MAX_SCAN_DEPTH && ValueText(v) == msg.result; v;
    var name := Str(QuoteBody(msg.methodName));
    if IsResultShape(msg) {
      ReplyParses(msg, id, name, params, result, decode);
    } else {
      CallParses(msg, id, name, params, result, decode);
    }
  }

  lemma DecimalIsRaw(n: nat)
    ensures IsRaw(ToDecimal(n))
  {
    var s := ToDecimal(n);
    NoLeadingZero(n);
    assert IsNumberOf(s, "", s, "", "");
    assert ValidValue(Scalar(s)) && ValueText(Scalar(s)) == s;
  }

  /** What callRaw writes for its n-th call. */
  function IssuedRequest(n: nat, name: string, params: string): RpcMessage {
    RpcMessage("2.0", ToDecimal(n), name, params, "", None)
  }

  lemma IssuedRequestIsSendable(n: nat, name: string, params: string)
    requires Printable(name) && name != "" && IsRaw(params) && params != ""
    ensures IsSendable(IssuedRequest(n, name, params))
  {
    hide IsRaw, Printable, ToDecimal;
    DecimalIsRaw(n);
  }

  /** A request under an issued id arrives with its method and params, and its id, echoed, resolves to that call. */
  lemma IssuedRequestArrives(n: nat, name: string, params: string, decode: ErrorDecoder)
    requires Printable(name) && name != "" && IsRaw(params) && params != "" && n < INT64_LIMIT
    ensures var got := ParseMessage(MessageText(IssuedRequest(n, name, params)), decode);
      && got.Some? && got.value.methodName == name && got.value.params == params
      && RpcId(got.value.id) == Some(n) && RpcId("\"" + got.value.id + "\"") == Some(n)
  {
    hide IsRaw, Printable, IsSendable, ParseMessage, MessageText, RpcId, ToDecimal;
    IssuedRequestIsSendable(n, name, params);
    MessageRoundTrip(IssuedRequest(n, name, params), decode);
    EchoResolves(n, "", "");
    var s := ToDecimal(n);
    assert "" + s + "" == s && "" + ("\"" + s + "\"") + "" == "\"" + s + "\"";
  }
}
