/** Error replies: what the general path prints for one is an object of the grammar that reads back as the same error. */
module RpcErrors {
  import opened JsonGrammar
  import opened Options
  import opened JsonScanner
  import opened RpcMessages
  import opened RpcParsing
  import opened RpcPrinting
  import opened RpcRoundTrip
  import Decimal

  function Numeral(n: int): string {
    if n < 0 then "-" + Decimal.ToDecimal(-n) else Decimal.ToDecimal(n)
  }

  lemma NumeralIsScalar(n: int)
    ensures ValidValue(Scalar(Numeral(n))) && Depth(Scalar(Numeral(n))) == 0
  {
    var digits := Decimal.ToDecimal(if n < 0 then -n else n);
    Decimal.NoLeadingZero(if n < 0 then -n else n);
    if n < 0 {
      assert "-" + (digits + ("" + "")) == Numeral(n);
      assert IsNumberOf(Numeral(n), "-", digits, "", "");
    } else {
      assert "" + (digits + ("" + "")) == Numeral(n);
      assert IsNumberOf(Numeral(n), "", digits, "", "");
    }
  }

  /** The members of an error object, data only when there is some. */
  function ErrorMembers(e: RpcError, data: Value): Members {
    var code, message := Compact("code", Scalar(Numeral(e.code))), Compact("message", Str(QuoteBody(e.message)));
    MoreMembers(code, if e.data == "" then OneMember(message) else MoreMembers(message, OneMember(Compact("data", data))))
  }

  predicate IsData(e: RpcError, data: Value) {
    e.data != "" ==> ValueText(data) == e.data
  }

  lemma MemberParts(e: RpcError, data: Value)
    requires IsData(e, data)
    ensures MemberText(Compact("code", Scalar(Numeral(e.code)))) == Prefix(true, "code") + Numeral(e.code)
    ensures "," + MemberText(Compact("message", Str(QuoteBody(e.message)))) == Prefix(false, "message") + Quote(e.message)
    ensures e.data != "" ==> "," + MemberText(Compact("data", data)) == Prefix(false, "data") + e.data
  {
    CompactText("code", Scalar(Numeral(e.code)));
    CompactText("message", Str(QuoteBody(e.message)));
    CompactText("data", data);
    hide MemberText, Prefix, Numeral, QuoteBody;
  }

  lemma ErrorIsObject(e: RpcError, data: Value)
    requires IsData(e, data)
    ensures ErrorText(e) == ValueText(Object(ErrorMembers(e, data)))
  {
    hide Prefix, Quote, QuoteBody, Numeral, MemberText, Compact, MembersText, ErrorText, IsData;
    var code, message := Compact("code", Scalar(Numeral(e.code))), Compact("message", Str(QuoteBody(e.message)));
    var a, b := Prefix(true, "code") + Numeral(e.code), Prefix(false, "message") + Quote(e.message);
    MemberParts(e, data);
    MoreText(message, OneMember(message));
    if e.data == "" {
      MoreText(code, OneMember(message));
      ErrorParts(e, a, b, "");
    } else {
      var last := OneMember(Compact("data", data));
      MoreText(Compact("data", data), last);
      MoreText(message, last);
      MoreText(code, MoreMembers(message, last));
      ErrorParts(e, a, b, Prefix(false, "data") + e.data);
    }
  }

  lemma Regroup(p: string, n: string, q: string, m: string, d: string)
    ensures "{" + p + n + q + m + d + "}" == "{" + ((p + n) + ((q + m) + d)) + "}"
  {
  }

  lemma ErrorParts(e: RpcError, a: string, b: string, c: string)
    requires a == Prefix(true, "code") + Numeral(e.code) && b == Prefix(false, "message") + Quote(e.message)
    requires c == if e.data != "" then Prefix(false, "data") + e.data else ""
    ensures ErrorText(e) == "{" + (a + (b + c)) + "}" && (c == "" ==> ErrorText(e) == "{" + (a + b) + "}")
  {
    hide Prefix, Quote;
    Regroup(Prefix(true, "code"), Numeral(e.code), Prefix(false, "message"), Quote(e.message), c);
    if c == "" { assert b + c == b; }
  }

  // ---------- reading ----------

  /**
   What a decoder makes of an error object with no other names than these three: the 64-bit numeral under the last
   "code", the text under the last "message", and the raw value under the last "data", if there is one.
   */
  ghost predicate Reads(decode: ErrorDecoder) {
    forall ms, e | ValidMembers(ms) && Says(ms, e) :: decode(ValueText(Object(ms))) == Some(e)
  }

  predicate OnlyErrorNames(ms: Members) {
    && (Decoded(ms.m.key) == Some("code") || Decoded(ms.m.key) == Some("message") || Decoded(ms.m.key) == Some("data"))
    && (ms.MoreMembers? ==> OnlyErrorNames(ms.tail))
  }

  predicate Is64Bit(n: int) {
    -0x8000_0000_0000_0000 <= n < 0x8000_0000_0000_0000
  }

  predicate Says(ms: Members, e: RpcError) {
    var message, data := LastNamed(ms, "message"), LastNamed(ms, "data");
    && OnlyErrorNames(ms) && Is64Bit(e.code)
    && LastNamed(ms, "code") == Some(Scalar(Numeral(e.code)))
    && message.Some? && message.value.Str? && Decoded(message.value.body) == Some(e.message)
    && TextOf(data, "") == e.data
  }

  lemma ErrorKeys()
    ensures forall key | key in {"code", "message", "data", "error"} :: IsStringBody(key) && Decoded(key) == Some(key)
    ensures "code" != "message" && "code" != "data" && "message" != "data"
  {
    assert |"code"| == 4 && |"message"| == 7 && |"data"| == 4 && "code"[0] == 'c' && "data"[0] == 'd';
    assert PlainName("code") && Printable("code") && PlainName("message") && Printable("message");
    assert PlainName("data") && Printable("data") && PlainName("error") && Printable("error");
    hide PlainName, Printable, IsStringBody, Decoded;
    PlainKey("code");
    PlainKey("message");
    PlainKey("data");
    PlainKey("error");
  }

  lemma ErrorFinds(e: RpcError, data: Value, name: string)
    requires name == "code" || name == "message" || name == "data"
    ensures LastNamed(ErrorMembers(e, data), name) ==
      if name == "code" then Some(Scalar(Numeral(e.code)))
      else if name == "message" then Some(Str(QuoteBody(e.message)))
      else if e.data == "" then None else Some(data)
  {
    ErrorKeys();
    hide Decoded, IsStringBody, QuoteBody, Numeral, LastNamed, Compact;
    var code, body := Scalar(Numeral(e.code)), Str(QuoteBody(e.message));
    var last := OneMember(Compact("data", data));
    NamedAhead("data", data, last, name);
    NamedAhead("message", body, last, name);
    NamedAhead("code", code, if e.data == "" then OneMember(Compact("message", body)) else MoreMembers(Compact("message", body), last), name);
  }

  lemma ErrorSays(e: RpcError, data: Value)
    requires IsData(e, data) && Printable(e.message) && Is64Bit(e.code)
    ensures Says(ErrorMembers(e, data), e)
  {
    hide Decoded, IsStringBody, QuoteBody, Numeral, LastNamed, Printable, ErrorMembers, OnlyErrorNames;
    ErrorKeys();
    QuoteDecodes(e.message);
    ErrorFinds(e, data, "code");
    ErrorFinds(e, data, "message");
    ErrorFinds(e, data, "data");
    ErrorNames(e, data);
  }

  lemma ErrorNames(e: RpcError, data: Value)
    requires forall key | key in {"code", "message", "data", "error"} :: Decoded(key) == Some(key)
    ensures OnlyErrorNames(ErrorMembers(e, data))
  {
    hide Decoded, QuoteBody, Numeral;
    var message, last := Compact("message", Str(QuoteBody(e.message))), OneMember(Compact("data", data));
    assert OnlyErrorNames(last) && OnlyErrorNames(OneMember(message)) && OnlyErrorNames(MoreMembers(message, last));
  }

  lemma CompactMembers(key: string, v: Value, tail: Members)
    requires IsStringBody(key) && ValidValue(v)
    ensures ValidMembers(OneMember(Compact(key, v))) && MembersDepth(OneMember(Compact(key, v))) == Depth(v)
    ensures ValidMembers(tail) ==> ValidMembers(MoreMembers(Compact(key, v), tail))
    ensures MembersDepth(MoreMembers(Compact(key, v), tail)) == Max(Depth(v), MembersDepth(tail))
  {
    hide IsStringBody, ValidValue;
  }

  lemma ErrorIsValid(e: RpcError, data: Value)
    requires Printable(e.message) && (e.data != "" ==> ValidValue(data) && Depth(data) < 128)
    ensures ValidMembers(ErrorMembers(e, data)) && MembersDepth(ErrorMembers(e, data)) < 128
  {
    var code, body, last := Scalar(Numeral(e.code)), Str(QuoteBody(e.message)), OneMember(Compact("data", data));
    hide Decoded, IsStringBody, QuoteBody, Numeral, Printable, ValidValue, Depth, Compact, ValidMembers, MembersDepth;
    ErrorKeys();
    QuoteDecodes(e.message);
    NumeralIsScalar(e.code);
    BodyIsValid(QuoteBody(e.message));
    if e.data != "" { CompactMembers("data", data, last); }
    CompactMembers("message", body, last);
    CompactMembers("code", code, if e.data == "" then OneMember(Compact("message", body)) else MoreMembers(Compact("message", body), last));
  }

  lemma BodyIsValid(body: string)
    requires IsStringBody(body)
    ensures ValidValue(Str(body)) && Depth(Str(body)) == 0
  {
  }

  // ---------- the reply ----------

  function ErrorReply(id: string, e: RpcError): RpcMessage {
    RpcMessage("2.0", id, "", "", "", Some(e))
  }

  function ReplyMembers(id: Value, error: Value): Members {
    MoreMembers(Version(), MoreMembers(Compact("id", id), OneMember(Compact("error", error))))
  }

  lemma ErrorReplyFields(id: string, e: RpcError)
    requires id != ""
    ensures MessageText(ErrorReply(id, e)) ==
      VersionHead() + (Prefix(false, "id") + id) + (Prefix(false, "error") + ErrorText(e)) + "}"
  {
    hide Prefix, Quote, ErrorText, VersionHead;
    VersionText();
    var msg := ErrorReply(id, e);
    assert ParamsField(msg) == ResultField(msg) == MethodField(msg) == "";
    assert IdField(msg) == Prefix(false, "id") + id && ErrorField(msg) == Prefix(false, "error") + ErrorText(e);
  }

  lemma Join2(head: string, v: string, a: string, b: string)
    requires "{" + v == head
    ensures "{" + (v + (a + b)) + "}" == head + a + b + "}"
  {
  }

  lemma ErrorReplyText(id: Value, e: RpcError, error: Value)
    requires ValueText(id) != "" && ValueText(error) == ErrorText(e)
    ensures MessageText(ErrorReply(ValueText(id), e)) == "{" + MembersText(ReplyMembers(id, error)) + "}"
  {
    VersionMember();
    CompactText("id", id);
    CompactText("error", error);
    ErrorReplyFields(ValueText(id), e);
    hide VersionHead, MemberText, ValueText, Compact, Version, MembersText, Prefix, ErrorText, MessageText;
    var last := OneMember(Compact("error", error));
    var a, b := Prefix(false, "id") + ValueText(id), Prefix(false, "error") + ErrorText(e);
    MoreText(Compact("error", error), last);
    TailText(Compact("id", id), last, MemberText(Compact("error", error)));
    MoreText(Version(), MoreMembers(Compact("id", id), last));
    Join2(VersionHead(), MemberText(Version()), a, b);
  }

  lemma ReplyIsEnvelope(id: Value, error: Value)
    requires ValidValue(id) && ValidValue(error) && Depth(id) <= 128 && Depth(error) <= 128
    ensures ValidMembers(ReplyMembers(id, error)) && MembersDepth(ReplyMembers(id, error)) <= 128
  {
    ErrorKeys();
    KeyMeanings();
    VersionMember();
    VersionIsCompact();
    BodyIsValid("2.0");
    hide Decoded, IsStringBody, ValidValue, Depth, Compact, ValidMembers, MembersDepth, Version, ValidMember;
    var last := OneMember(Compact("error", error));
    CompactMembers("error", error, last);
    CompactMembers("id", id, last);
    CompactMembers("jsonrpc", Str("2.0"), MoreMembers(Compact("id", id), last));
  }

  lemma ReplyNames(id: Value, error: Value)
    ensures var ms := ReplyMembers(id, error);
      && LastNamed(ms, "id") == Some(id) && LastNamed(ms, "error") == Some(error)
      && LastNamed(ms, "method") == LastNamed(ms, "params") == LastNamed(ms, "result") == None
  {
    ErrorKeys();
    KeyMeanings();
    NamesDiffer();
    VersionIsCompact();
    hide Decoded, IsStringBody, LastNamed, Compact, Version;
    var last := OneMember(Compact("error", error));
    FieldsAhead("error", error, last);
    FieldsAhead("id", id, last);
    FieldsAhead("jsonrpc", Str("2.0"), MoreMembers(Compact("id", id), last));
  }

  lemma ReplyIsAdmissible(id: Value, error: Value, decode: ErrorDecoder)
    requires decode(ValueText(error)).Some?
    ensures AllAdmissible(ReplyMembers(id, error), decode)
  {
    ErrorKeys();
    KeyMeanings();
    NamesDiffer();
    VersionIsCompact();
    hide Decoded, IsStringBody, ValueText, Version;
    var last := OneMember(Compact("error", error));
    assert AllAdmissible(last, decode);
    assert AllAdmissible(MoreMembers(Compact("id", id), last), decode);
  }

  lemma ReplyFields(id: Value, error: Value, decode: ErrorDecoder)
    ensures FieldsOf(ReplyMembers(id, error), NO_FIELDS, decode) ==
      RpcMessage("", ValueText(id), "", "", "", decode(ValueText(error)))
  {
    hide LastNamed, ValueText, ReplyMembers;
    ReplyNames(id, error);
  }

  /** Any error reply with a printable message and a valid id and data reads back as the same error under the same id. */
  lemma ErrorReplyRoundTrip(id: Value, e: RpcError, data: Value, decode: ErrorDecoder)
    requires Reads(decode) && Printable(e.message) && Is64Bit(e.code)
    requires ValidValue(id) && Depth(id) <= 128 && ValueText(id) != ""
    requires if e.data == "" then true else ValidValue(data) && Depth(data) < 128 && ValueText(data) == e.data
    ensures ParseMessage(MessageText(ErrorReply(ValueText(id), e)), decode) ==
      Some(ErrorReply(ValueText(id), e).(jsonrpc := ""))
  {
    hide MessageText, ParseMessage, ErrorMembers, ReplyMembers, AllAdmissible, FieldsOf, ErrorText, Says, Printable,
      ValidMembers, MembersDepth;
    var error := Object(ErrorMembers(e, data));
    ErrorIsValid(e, data);
    assert ValidValue(error) && Depth(error) <= 128;
    hide ValidValue, Depth;
    ErrorIsObject(e, data);
    ErrorSays(e, data);
    assert decode(ValueText(error)) == Some(e);
    hide ValueText;
    ErrorReplyText(id, e, error);
    ReplyIsEnvelope(id, error);
    ReplyIsAdmissible(id, error, decode);
    ReplyFields(id, error, decode);
    var line, ms := MessageText(ErrorReply(ValueText(id), e)), ReplyMembers(id, error);
    var text := "{" + MembersText(ms) + "}";
    assert "" + text + "" == text;
    assert IsEnvelope(line, "", ms, "");
    EnvelopeComplete(line, "", ms, "", decode);
  }

  ghost predicate IsShallowRaw(s: string) {
    exists v :: ValidValue(v) && Depth(v) < 128 && ValueText(v) == s
  }

  /** What a failed handler prints: a 64-bit code, a printable message, and no data or a valid raw value. */
  ghost predicate IsErrorReply(msg: RpcMessage) {
    && msg.error.Some? && msg == ErrorReply(msg.id, msg.error.value) && msg.id != "" && IsRaw(msg.id)
    && Is64Bit(msg.error.value.code) && Printable(msg.error.value.message)
    && (msg.error.value.data != "" ==> IsShallowRaw(msg.error.value.data))
  }

  lemma ErrorMessageRoundTrip(msg: RpcMessage, decode: ErrorDecoder)
    requires Reads(decode) && IsErrorReply(msg)
    ensures ParseMessage(MessageText(msg), decode) == Some(msg.(jsonrpc := ""))
  {
    hide MessageText, ParseMessage, ValidValue, ValueText, Depth, Printable, Reads;
    var e := msg.error.value;
    var id := var v :| ValidValue(v) && Depth(v) <= MAX_SCAN_DEPTH && ValueText(v) == msg.id; v;
    var data := if e.data == "" then Scalar("") else var v :| ValidValue(v) && Depth(v) < 128 && ValueText(v) == e.data; v;
    ErrorReplyRoundTrip(id, e, data, decode);
  }
}
