/** The JSON-RPC envelope: parseRPCMessage as a function from a line to a message. */
module RpcMessages {
  import opened JsonGrammar
  import opened Options
  import opened JsonScanner

  /** RPCError is what json.Unmarshal makes of an "error" member; the decoder is a parameter everywhere. */
  datatype RpcError = RpcError(code: int, message: string, data: string)

  /** A missing raw member is the empty string, as a nil json.RawMessage has length 0. */
  datatype RpcMessage = RpcMessage(
    jsonrpc: string, id: string, methodName: string, params: string, result: string, error: Option<RpcError>)

  const NO_FIELDS := RpcMessage("", "", "", "", "", None)

  type ErrorDecoder = string -> Option<RpcError>

  // ---------- escapes in keys and methods ----------

  function HexDigit(c: char): (n: nat)
    requires IsHex(c)
  {
    if c <= '9' then c as int - '0' as int
    else if c <= 'F' then c as int - 'A' as int + 10
    else c as int - 'a' as int + 10
  }

  function CodePoint(hex: string): nat
    requires |hex| == 4 && forall k | 0 <= k < 4 :: IsHex(hex[k])
  {
    ((HexDigit(hex[0]) * 16 + HexDigit(hex[1])) * 16 + HexDigit(hex[2])) * 16 + HexDigit(hex[3])
  }

  predicate IsSurrogate(code: nat) {
    0xD800 <= code < 0xE000
  }

  function Byte(n: nat): char {
    if n < 256 then n as char else '\0'
  }

  /** UTF-8 of a code point of the basic plane. */
  function Utf8(code: nat): string {
    if code < 0x80 then [Byte(code)]
    else if code < 0x800 then [Byte(0xC0 + code / 0x40), Byte(0x80 + code % 0x40)]
    else [Byte(0xE0 + code / 0x1000), Byte(0x80 + code / 0x40 % 0x40), Byte(0x80 + code % 0x40)]
  }

  /** The character a two-character escape stands for in RFC 8259, section 7. */
  function ShortMeaning(e: char): char {
    match e
    case 'b' => 8 as char
    case 'f' => 12 as char
    case 'n' => '\n'
    case 'r' => '\r'
    case 't' => '\t'
    case _ => e
  }

  function Append(s: string, r: Option<string>): Option<string> {
    if r.Some? then Some(s + r.value) else None
  }

  /** strconv.Unquote on a scanned body: Go has no `\/` escape and refuses surrogate code points. */
  function Unquote(s: string): Option<string> {
    if s == "" then Some("")
    else if s[0] != '\\' then Append([s[0]], Unquote(s[1..]))
    else if |s| < 2 then None
    else if s[1] == 'u' then
      if |s| < 6 || !IsHex(s[2]) || !IsHex(s[3]) || !IsHex(s[4]) || !IsHex(s[5]) then None
      else if IsSurrogate(CodePoint(s[2..6])) then None
      else Append(Utf8(CodePoint(s[2..6])), Unquote(s[6..]))
    else if s[1] == '/' || !IsShortEscape(s[1]) then None
    else Append([ShortMeaning(s[1])], Unquote(s[2..]))
  }

  /** A key or method body as the parser reads it: only escaped ones go through Unquote. */
  function Decoded(body: string): Option<string> {
    if '\\' in body then Unquote(body) else Some(body)
  }

  // ---------- trimming ----------

  function TrimEnd(s: string): (r: string)
    ensures r <= s
  {
    if s != "" && IsWs(s[|s| - 1]) then TrimEnd(s[..|s| - 1]) else s
  }

  function Trim(s: string): (r: string)
    ensures |r| <= |s|
  {
    TrimEnd(SkipWs(s))
  }

  // ---------- fields ----------

  const CORE_METHODS: seq<string> := [
    "session/update", "session/prompt", "session/cancel", "initialize", "authenticate", "logout", "session/new",
    "session/load"
  ]
  const SESSION_METHODS: seq<string> := [
    "session/resume", "session/fork", "session/list", "session/set_mode", "session/set_config_option",
    "session/close", "session/delete", "session/request_permission"
  ]
  const HOST_METHODS: seq<string> := [
    "fs/read_text_file", "fs/write_text_file", "terminal/create", "terminal/output", "terminal/wait_for_exit",
    "terminal/kill", "terminal/release"
  ]
  const METHODS := CORE_METHODS + SESSION_METHODS + HOST_METHODS

  function Intern(raw: string, names: seq<string>): string {
    if names == [] then raw else if raw == names[0] then names[0] else Intern(raw, names[1..])
  }

  /** canonicalRPCMethod: a known method is replaced by its shared copy. */
  function CanonicalMethod(raw: string): string {
    Intern(raw, METHODS)
  }

  lemma {:induction false} InterningIsIdentity(raw: string, names: seq<string>)
    ensures Intern(raw, names) == raw
  {
    if names != [] { InterningIsIdentity(raw, names[1..]); }
  }

  function ParseMethodValue(value: string): Option<string> {
    var t := ScanString(value);
    if t.None? || SkipWs(t.value.rest) != "" then None
    else if '\\' in t.value.body then Unquote(t.value.body)
    else Some(CanonicalMethod(t.value.body))
  }

  /** One member of the envelope; None when parseRPCMessage gives up on the line. */
  function SetField(msg: RpcMessage, key: string, value: string, decode: ErrorDecoder): Option<RpcMessage> {
    var name := Decoded(key);
    if name.None? then None
    else if name.value == "id" then Some(msg.(id := value))
    else if name.value == "method" then
      var name := ParseMethodValue(value);
      if name.None? then None else Some(msg.(methodName := name.value))
    else if name.value == "params" then Some(msg.(params := value))
    else if name.value == "result" then Some(msg.(result := value))
    else if name.value == "error" then
      var error := decode(value);
      if error.None? then None else Some(msg.(error := error))
    else Some(msg)
  }

  // ---------- the envelope ----------

  /** What follows a member's value `r`. */
  function ParseAfterValue(r: string, msg: RpcMessage, decode: ErrorDecoder): Option<RpcMessage>
    decreases |r|, 0
  {
    var w := SkipWs(r);
    if w == "" then None
    else if w[0] == ',' then
      var next := SkipWs(w[1..]);
      if next != "" && next[0] == '}' then None else ParseMembers(w[1..], msg, decode)
    else if w[0] == '}' && SkipWs(w[1..]) == "" then Some(msg)
    else None
  }

  /** The loop of parseRPCMessage. */
  function ParseMembers(s: string, msg: RpcMessage, decode: ErrorDecoder): Option<RpcMessage>
    decreases |s|, 1
  {
    var t := SkipWs(s);
    if t == "" then None
    else if t[0] == '}' then if SkipWs(t[1..]) == "" then Some(msg) else None
    else
      var key := ScanString(t);
      if key.None? then None
      else
        var u := SkipWs(key.value.rest);
        if u == "" || u[0] != ':' then None
        else
          var v := SkipWs(u[1..]);
          var r := ScanValue(v, 0);
          if r.None? then None
          else
            var stored := SetField(msg, key.value.body, Trim(v[..|v| - |r.value|]), decode);
            if stored.None? then None else ParseAfterValue(r.value, stored.value, decode)
  }

  function ParseMessage(line: string, decode: ErrorDecoder): Option<RpcMessage> {
    var s := Trim(line);
    if |s| < 2 || s[0] != '{' then None else ParseMembers(s[1..], NO_FIELDS, decode)
  }

  // ---------- what the members of an envelope say ----------

  function LastNamed(ms: Members, name: string): Option<Value> {
    var tail := if ms.MoreMembers? then LastNamed(ms.tail, name) else None;
    if tail.Some? then tail
    else if Decoded(ms.m.key) == Some(name) then Some(ms.m.value)
    else None
  }

  /** A member that does not make the parser give up. */
  predicate Admissible(m: Member, decode: ErrorDecoder) {
    && Decoded(m.key).Some?
    && (Decoded(m.key) == Some("method") ==> m.value.Str? && Decoded(m.value.body).Some?)
    && (Decoded(m.key) == Some("error") ==> decode(ValueText(m.value)).Some?)
  }

  predicate AllAdmissible(ms: Members, decode: ErrorDecoder) {
    Admissible(ms.m, decode) && (ms.MoreMembers? ==> AllAdmissible(ms.tail, decode))
  }

  function TextOf(v: Option<Value>, absent: string): string {
    if v.Some? then ValueText(v.value) else absent
  }

  /** The message that an envelope's last members describe; `msg` supplies the fields it lacks. */
  function FieldsOf(ms: Members, msg: RpcMessage, decode: ErrorDecoder): RpcMessage {
    var named := LastNamed(ms, "method");
    var error := LastNamed(ms, "error");
    RpcMessage(
      msg.jsonrpc,
      TextOf(LastNamed(ms, "id"), msg.id),
      if named.Some? && named.value.Str? && Decoded(named.value.body).Some?
        then Decoded(named.value.body).value else msg.methodName,
      TextOf(LastNamed(ms, "params"), msg.params),
      TextOf(LastNamed(ms, "result"), msg.result),
      if error.Some? then decode(ValueText(error.value)) else msg.error)
  }

  /** `line` is an object of the grammar, up to surrounding whitespace, whose members are `ms`. */
  ghost predicate IsEnvelope(line: string, before: string, ms: Members, after: string) {
    && AllWs(before) && AllWs(after) && ValidMembers(ms) && MembersDepth(ms) <= MAX_SCAN_DEPTH
    && line == before + ("{" + MembersText(ms) + "}") + after
  }

  ghost predicate IsEmptyEnvelope(line: string, before: string, ws: string, after: string) {
    AllWs(before) && AllWs(ws) && AllWs(after) && line == before + ("{" + ws + "}") + after
  }

  /** The grammar's reading of a line: an envelope of admissible members and its fields, or an empty object. */
  ghost predicate Means(line: string, msg: RpcMessage, decode: ErrorDecoder) {
    || (exists before, ms, after :: IsEnvelope(line, before, ms, after)
         && AllAdmissible(ms, decode) && msg == FieldsOf(ms, NO_FIELDS, decode))
    || (msg == NO_FIELDS && exists before, ws, after :: IsEmptyEnvelope(line, before, ws, after))
  }

  ghost predicate IsObjectText(line: string) {
    || (exists before, ms, after :: IsEnvelope(line, before, ms, after))
    || (exists before, ws, after :: IsEmptyEnvelope(line, before, ws, after))
  }
}
