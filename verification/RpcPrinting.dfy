/** appendRPCMessage: the printer of envelopes, with its three fast paths beside the general one. */
module RpcPrinting {
  import opened Options
  import opened RpcMessages
  import Decimal

  predicate Printable(s: string) {
    forall k | 0 <= k < |s| :: ' ' <= s[k] <= '~'
  }

  /** strconv.AppendQuote on printable ASCII, without the quotes. */
  function QuoteBody(s: string): string {
    if s == "" then ""
    else (if s[0] == '"' || s[0] == '\\' then ['\\', s[0]] else [s[0]]) + QuoteBody(s[1..])
  }

  function Quote(s: string): string {
    "\"" + QuoteBody(s) + "\""
  }

  /** appendMethodValue: known methods are copied, others are quoted. */
  function MethodValue(name: string): string {
    if name in METHODS then "\"" + name + "\"" else Quote(name)
  }

  function Prefix(first: bool, name: string): string {
    (if first then "" else ",") + "\"" + name + "\":"
  }

  function ErrorText(e: RpcError): string {
    "{" + Prefix(true, "code") + (if e.code < 0 then "-" + Decimal.ToDecimal(-e.code) else Decimal.ToDecimal(e.code))
    + Prefix(false, "message") + Quote(e.message)
    + (if e.data != "" then Prefix(false, "data") + e.data else "") + "}"
  }

  // The five optional fields of the general path; `first` tells whether nothing was printed before.
  function IdField(msg: RpcMessage): string {
    if msg.id != "" then Prefix(msg.jsonrpc == "", "id") + msg.id else ""
  }

  function MethodField(msg: RpcMessage): string {
    if msg.methodName != "" then Prefix(msg.jsonrpc == "" && msg.id == "", "method") + MethodValue(msg.methodName)
    else ""
  }

  predicate NothingYet(msg: RpcMessage) {
    msg.jsonrpc == "" && msg.id == "" && msg.methodName == ""
  }

  function ParamsField(msg: RpcMessage): string {
    if msg.params != "" then Prefix(NothingYet(msg), "params") + msg.params else ""
  }

  function ResultField(msg: RpcMessage): string {
    if msg.result != "" then Prefix(NothingYet(msg) && msg.params == "", "result") + msg.result else ""
  }

  function ErrorField(msg: RpcMessage): string {
    if msg.error.Some? then
      Prefix(NothingYet(msg) && msg.params == "" && msg.result == "", "error") + ErrorText(msg.error.value)
    else ""
  }

  /** The general path of appendRPCMessage. */
  function GeneralText(msg: RpcMessage): string {
    "{" + (if msg.jsonrpc != "" then Prefix(true, "jsonrpc") + Quote(msg.jsonrpc) else "")
    + IdField(msg) + MethodField(msg) + ParamsField(msg) + ResultField(msg) + ErrorField(msg) + "}"
  }

  predicate IsNotificationShape(msg: RpcMessage) {
    msg.id == "" && msg.methodName != "" && msg.params != "" && msg.result == ""
  }

  predicate IsRequestShape(msg: RpcMessage) {
    msg.id != "" && msg.methodName != "" && msg.params != "" && msg.result == ""
  }

  predicate IsResultShape(msg: RpcMessage) {
    msg.id != "" && msg.methodName == "" && msg.result != ""
  }

  predicate TakesFastPath(msg: RpcMessage) {
    msg.jsonrpc == "2.0" && msg.error == None
    && (IsNotificationShape(msg) || IsRequestShape(msg) || IsResultShape(msg))
  }

  // The literal heads of the fast paths.
  function VersionHead(): string { "{\"jsonrpc\":\"2.0\"" }
  function IdPart(): string { ",\"id\":" }
  function MethodPart(): string { ",\"method\":" }
  function ParamsPart(): string { ",\"params\":" }
  function ResultPart(): string { ",\"result\":" }

  /** The method part of a message, the same on every path. */
  function FastText(msg: RpcMessage): string {
    if IsNotificationShape(msg) then
      VersionHead() + MethodPart() + MethodValue(msg.methodName) + ParamsPart() + msg.params + "}"
    else if IsRequestShape(msg) then
      VersionHead() + IdPart() + msg.id + MethodPart() + MethodValue(msg.methodName) + ParamsPart() + msg.params + "}"
    else VersionHead() + IdPart() + msg.id + ResultPart() + msg.result + "}"
  }

  function MessageText(msg: RpcMessage): string {
    if TakesFastPath(msg) then FastText(msg) else GeneralText(msg)
  }

  lemma {:induction false} QuoteBodyPlain(s: string)
    requires '"' !in s && '\\' !in s
    ensures QuoteBody(s) == s
  {
    if s != "" {
      QuoteBodyPlain(s[1..]);
      assert s == [s[0]] + s[1..];
    }
  }

  predicate PlainName(s: string) {
    forall k | 0 <= k < |s| :: s[k] != '"' && s[k] != '\\'
  }

  predicate PlainNames(names: seq<string>) {
    forall k | 0 <= k < |names| :: PlainName(names[k])
  }

  lemma PlainMethods()
    ensures PlainNames(METHODS)
  {
    PlainCoreMethods();
    PlainSessionMethods();
    PlainHostMethods();
    hide CORE_METHODS, SESSION_METHODS, HOST_METHODS;
  }

  lemma PlainCoreMethods()
    ensures PlainNames(CORE_METHODS)
  {
    assert PlainName("session/update") && PlainName("session/prompt") && PlainName("session/cancel");
    assert PlainName("initialize") && PlainName("authenticate") && PlainName("logout") && PlainName("session/new");
    assert PlainName("session/load");
  }

  lemma PlainSessionMethods()
    ensures PlainNames(SESSION_METHODS)
  {
    assert PlainName("session/resume") && PlainName("session/fork") && PlainName("session/list");
    assert PlainName("session/set_mode") && PlainName("session/set_config_option") && PlainName("session/close");
    assert PlainName("session/delete") && PlainName("session/request_permission");
  }

  lemma PlainHostMethods()
    ensures PlainNames(HOST_METHODS)
  {
    assert PlainName("fs/read_text_file") && PlainName("fs/write_text_file") && PlainName("terminal/create");
    assert PlainName("terminal/output") && PlainName("terminal/wait_for_exit") && PlainName("terminal/kill");
    assert PlainName("terminal/release");
  }

  lemma MethodValueIsQuote(name: string)
    ensures MethodValue(name) == Quote(name)
  {
    if name in METHODS {
      PlainMethods();
      hide METHODS;
      QuoteBodyPlain(name);
    }
  }

  lemma QuotedVersion()
    ensures Quote("2.0") == "\"2.0\""
  {
    QuoteBodyPlain("2.0");
    hide QuoteBody;
  }

  lemma VersionText()
    ensures "{" + (Prefix(true, "jsonrpc") + Quote("2.0")) == VersionHead()
  {
    hide Quote, QuoteBody;
    QuotedVersion();
    assert "{" + (Prefix(true, "jsonrpc") + "\"2.0\"") == VersionHead();
  }

  lemma IdText() ensures Prefix(false, "id") == IdPart() {}
  lemma MethodText() ensures Prefix(false, "method") == MethodPart() {}
  lemma ParamsText() ensures Prefix(false, "params") == ParamsPart() {}
  lemma ResultText() ensures Prefix(false, "result") == ResultPart() {}

  lemma HeadTexts(msg: RpcMessage)
    requires msg.jsonrpc == "2.0"
    ensures "{" + (Prefix(true, "jsonrpc") + Quote(msg.jsonrpc)) == VersionHead()
    ensures Prefix(false, "id") == IdPart() && Prefix(false, "method") == MethodPart()
    ensures Prefix(false, "params") == ParamsPart() && Prefix(false, "result") == ResultPart()
  {
    hide *;
    VersionText();
    IdText();
    MethodText();
    ParamsText();
    ResultText();
  }

  lemma GeneralTextParts(msg: RpcMessage)
    requires msg.jsonrpc == "2.0" && msg.error == None
    ensures GeneralText(msg) == VersionHead() + IdField(msg) + MethodField(msg) + ParamsField(msg) + ResultField(msg) + "}"
  {
    HeadTexts(msg);
    hide Prefix, Quote, IdField, MethodField, ParamsField, ResultField, VersionHead;
    assert ErrorField(msg) == "";
    var head := Prefix(true, "jsonrpc") + Quote(msg.jsonrpc);
    assert GeneralText(msg)
        == ("{" + head) + IdField(msg) + MethodField(msg) + ParamsField(msg) + ResultField(msg) + "" + "}";
  }

  lemma FieldTexts(msg: RpcMessage)
    requires TakesFastPath(msg)
    ensures IdField(msg) == if msg.id == "" then "" else IdPart() + msg.id
    ensures MethodField(msg) == if msg.methodName == "" then "" else MethodPart() + MethodValue(msg.methodName)
    ensures ParamsField(msg) == if msg.params == "" then "" else ParamsPart() + msg.params
    ensures ResultField(msg) == if msg.result == "" then "" else ResultPart() + msg.result
  {
    HeadTexts(msg);
    hide Prefix, IdPart, MethodPart, ParamsPart, ResultPart, VersionHead, MethodValue;
  }

  lemma CallJoin(head: string, id: string, m: string, name: string, p: string, params: string)
    ensures head + id + (m + name) + (p + params) + "" + "}" == head + id + m + name + p + params + "}"
    ensures head + "" + (m + name) + (p + params) + "" + "}" == head + m + name + p + params + "}"
  {
  }

  lemma ResultJoin(head: string, i: string, id: string, params: string, r: string, result: string)
    ensures head + (i + id) + "" + "" + (r + result) + "}" == head + i + id + r + result + "}"
    ensures params != "" ==> head + (i + id) + "" + params + (r + result) + "}" != head + i + id + r + result + "}"
  {
    var general := head + (i + id) + "" + params + (r + result) + "}";
    var fast := head + i + id + r + result + "}";
    assert |general| == |fast| + |params|;
  }

  lemma CallIsGeneral(msg: RpcMessage)
    requires TakesFastPath(msg) && !IsResultShape(msg)
    ensures FastText(msg) == GeneralText(msg)
  {
    GeneralTextParts(msg);
    FieldTexts(msg);
    CallJoin(VersionHead(), IdField(msg), MethodPart(), MethodValue(msg.methodName), ParamsPart(), msg.params);
    hide IdField, MethodField, ParamsField, ResultField, VersionHead, IdPart, MethodPart, ParamsPart, ResultPart,
      MethodValue, Prefix, GeneralText;
    if IsRequestShape(msg) {
      assert VersionHead() + IdPart() + msg.id == VersionHead() + IdField(msg);
    }
  }

  lemma ResultIsGeneral(msg: RpcMessage)
    requires TakesFastPath(msg) && IsResultShape(msg)
    ensures FastText(msg) == GeneralText(msg) <==> msg.params == ""
  {
    GeneralTextParts(msg);
    FieldTexts(msg);
    ResultJoin(VersionHead(), IdPart(), msg.id, ParamsField(msg), ResultPart(), msg.result);
    assert msg.params != "" ==> ParamsField(msg) != "";
    hide IdField, MethodField, ParamsField, ResultField, VersionHead, IdPart, MethodPart, ParamsPart, ResultPart,
      MethodValue, Prefix, GeneralText;
  }

  /**
   The fast paths print what the general path prints, with one exception that no caller meets: a result that
   also carries params loses them.
   */
  lemma FastPathIsGeneral(msg: RpcMessage)
    ensures MessageText(msg) == GeneralText(msg)
       <==> !(TakesFastPath(msg) && IsResultShape(msg) && msg.params != "")
  {
    if TakesFastPath(msg) {
      hide FastText, GeneralText;
      if IsResultShape(msg) {
        ResultIsGeneral(msg);
      } else {
        CallIsGeneral(msg);
      }
    }
  }
}
