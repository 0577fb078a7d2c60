/** parseRPCMessage as rpc.go writes it: one loop over an index into the trimmed line. */
module RpcLoops {
  import opened JsonGrammar
  import opened Options
  import opened JsonScanner
  import opened JsonLoops
  import opened RpcMessages
  import opened RpcParsing

  method TrimJsonSpace(b: string) returns (r: string)
    ensures r == Trim(b)
  {
    var start := SkipJsonSpace(b, 0);
    assert b[0..] == b;
    var end := |b|;
    assert b[start..end] == b[start..];
    while end > start && IsWs(b[end - 1])
      invariant start <= end <= |b|
      invariant TrimEnd(b[start..end]) == Trim(b)
    {
      assert b[start..end - 1] == b[start..end][..|b[start..end]| - 1];
      end := end - 1;
    }
    r := b[start..end];
  }

  method ParseRpcMethodValue(value: string) returns (name: string, ok: bool)
    ensures ParseMethodValue(value) == if ok then Some(name) else None
  {
    hide ScanString, SkipWs;
    assert value[0..] == value;
    var raw, escaped, end, found := ScanJsonString(value, 0);
    if !found {
      return "", false;
    }
    var stop := SkipJsonSpace(value, end);
    if stop != |value| {
      return "", false;
    }
    if !escaped {
      return CanonicalMethod(raw), true;
    }
    var unquoted := Unquote(raw);
    if unquoted.None? {
      return "", false;
    }
    return unquoted.value, true;
  }

  method StoreField(msg: RpcMessage, key: string, keyEscaped: bool, value: string, decode: ErrorDecoder)
    returns (r: RpcMessage, ok: bool)
    requires keyEscaped == ('\\' in key)
    ensures SetField(msg, key, value, decode) == if ok then Some(r) else None
  {
    hide Unquote, ParseMethodValue;
    r, ok := msg, true;
    var field := key;
    if keyEscaped {
      var unquoted := Unquote(key);
      if unquoted.None? {
        return msg, false;
      }
      field := unquoted.value;
    }
    if field == "id" {
      r := msg.(id := value);
    } else if field == "method" {
      var name;
      name, ok := ParseRpcMethodValue(value);
      r := msg.(methodName := name);
    } else if field == "params" {
      r := msg.(params := value);
    } else if field == "result" {
      r := msg.(result := value);
    } else if field == "error" {
      var error := decode(value);
      r, ok := msg.(error := error), error.Some?;
    }
  }

  lemma SpanOf(b: string, i: nat, end: nat)
    requires i <= end <= |b|
    ensures b[i..][..|b[i..]| - |b[end..]|] == b[i..end]
  {
  }

  method ParseRpcMessage(line: string, decode: ErrorDecoder) returns (msg: RpcMessage, ok: bool)
    ensures ParseMessage(line, decode) == if ok then Some(msg) else None
  {
    hide ScanString, ScanValue, SkipWs, Trim, SetField;
    msg, ok := NO_FIELDS, false;
    var b := TrimJsonSpace(line);
    if |b| < 2 || b[0] != '{' {
      return;
    }
    var i: nat := 1;
    while true
      invariant 1 <= i <= |b|
      invariant ParseMembers(b[i..], msg, decode) == ParseMessage(line, decode)
      decreases |b| - i
    {
      SkipWsTwice(b[i..], 0);
      i := SkipJsonSpace(b, i);
      if i >= |b| {
        return;
      }
      if b[i] == '}' {
        assert b[i..][1..] == b[i + 1..];
        var stop := SkipJsonSpace(b, i + 1);
        ok := stop == |b|;
        return;
      }
      var next, r, found;
      next, r, found := ParseRpcMember(b, i, msg, decode);
      if !found {
        return;
      }
      msg := r;
      i := SkipJsonSpace(b, next);
      if i >= |b| {
        return;
      }
      assert b[i..][1..] == b[i + 1..];
      if b[i] == ',' {
        i := i + 1;
        var after := SkipJsonSpace(b, i);
        if after < |b| && b[after] == '}' {
          return;
        }
      } else if b[i] == '}' {
        var stop := SkipJsonSpace(b, i + 1);
        ok := stop == |b|;
        return;
      } else {
        return;
      }
    }
  }

  /** The part of the loop between the start of a member and the end of its value. */
  method ParseRpcMember(b: string, at: nat, msg: RpcMessage, decode: ErrorDecoder)
    returns (next: nat, r: RpcMessage, ok: bool)
    requires at < |b| && SkipWs(b[at..]) == b[at..] && b[at] != '}'
    ensures ok ==> at < next <= |b|
    ensures ParseMembers(b[at..], msg, decode) == if ok then ParseAfterValue(b[next..], r, decode) else None
  {
    hide ScanString, ScanValue, SkipWs, Trim, SetField, ParseAfterValue;
    next, r, ok := at, msg, false;
    var key, keyEscaped, end, found := ScanJsonString(b, at);
    if !found {
      return;
    }
    var i := SkipJsonSpace(b, end);
    if i >= |b| || b[i] != ':' {
      return;
    }
    assert b[i..][1..] == b[i + 1..];
    i := SkipJsonSpace(b, i + 1);
    next, found := ScanJsonValue(b, i);
    if !found {
      return;
    }
    SpanOf(b, i, next);
    var value := TrimJsonSpace(b[i..next]);
    r, ok := StoreField(msg, key, keyEscaped, value, decode);
  }
}
