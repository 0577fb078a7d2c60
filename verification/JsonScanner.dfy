/**
 The scanner of rpc.go as functions from a text to the unread rest of it. The index-based loops of the
 source are in JsonLoops and compute exactly these functions.
 */
module JsonScanner {
  import opened JsonGrammar
  import opened Options

  const MAX_SCAN_DEPTH: nat := 128

  function SkipWs(s: string): (r: string)
    ensures |r| <= |s|
  {
    if s != "" && IsWs(s[0]) then SkipWs(s[1..]) else s
  }

  /** Length of the string body that starts `s`, up to its closing quote. */
  function BodyLength(s: string): (n: Option<nat>)
    ensures n.Some? ==> n.value < |s| && s[n.value] == '"'
  {
    if s == "" || s[0] < ' ' then None
    else if s[0] == '"' then Some(0)
    else if s[0] == '\\' then
      if |s| < 2 then None
      else if s[1] == 'u' then
        if |s| < 6 || !IsHex(s[2]) || !IsHex(s[3]) || !IsHex(s[4]) || !IsHex(s[5]) then None
        else Plus(6, BodyLength(s[6..]))
      else if IsShortEscape(s[1]) then Plus(2, BodyLength(s[2..]))
      else None
    else Plus(1, BodyLength(s[1..]))
  }

  function Plus(k: nat, n: Option<nat>): Option<nat> {
    if n.Some? then Some(k + n.value) else None
  }

  datatype Token = Token(body: string, rest: string)

  function ScanString(s: string): (t: Option<Token>)
    ensures t.Some? ==> |t.value.rest| < |s|
  {
    if s == "" || s[0] != '"' then None
    else
      var n := BodyLength(s[1..]);
      if n.None? || !Utf8Valid(s[1..][..n.value]) then None
      else Some(Token(s[1..][..n.value], s[1..][n.value + 1..]))
  }

  function DigitsLength(s: string): (n: nat)
    ensures n <= |s|
  {
    if s == "" || !IsDigit(s[0]) then 0 else 1 + DigitsLength(s[1..])
  }

  // The three stages of the number automaton; each gets the text its predecessor left over.
  function NumberTail(s: string): bool {
    if s != "" && (s[0] == 'e' || s[0] == 'E') then
      var t := if |s| >= 2 && (s[1] == '+' || s[1] == '-') then s[2..] else s[1..];
      DigitsLength(t) != 0 && DigitsLength(t) == |t|
    else s == ""
  }

  function NumberFraction(s: string): bool {
    if s != "" && s[0] == '.' then
      var n := DigitsLength(s[1..]);
      n != 0 && NumberTail(s[1..][n..])
    else NumberTail(s)
  }

  function NumberOk(s: string): bool {
    var t := if s != "" && s[0] == '-' then s[1..] else s;
    if t == "" || !IsDigit(t[0]) then false
    else if t[0] == '0' then NumberFraction(t[1..])
    else NumberFraction(t[DigitsLength(t)..])
  }

  function LiteralOk(s: string): bool {
    s != "" && (s == "true" || s == "false" || s == "null" || NumberOk(s))
  }

  predicate IsDelimiter(c: char) {
    c == ',' || c == '}' || c == ']' || IsWs(c)
  }

  function LiteralLength(s: string): (n: nat)
    ensures n <= |s|
  {
    if s == "" || IsDelimiter(s[0]) then 0 else 1 + LiteralLength(s[1..])
  }

  function ScanLiteral(s: string): (r: Option<string>)
    ensures r.Some? ==> |r.value| < |s|
  {
    var n := LiteralLength(s);
    if LiteralOk(s[..n]) then Some(s[n..]) else None
  }

  /** scanJSONValueDepth: leading whitespace is skipped here. */
  function ScanValue(s: string, depth: nat): (r: Option<string>)
    ensures r.Some? ==> |r.value| < |s|
    decreases |s|, 1
  {
    var t := SkipWs(s);
    if t == "" then None
    else if t[0] == '"' then
      var tok := ScanString(t);
      if tok.Some? then Some(tok.value.rest) else None
    else if t[0] == '{' then ScanObject(t, depth + 1)
    else if t[0] == '[' then ScanArray(t, depth + 1)
    else ScanLiteral(t)
  }

  function ScanObject(s: string, depth: nat): (r: Option<string>)
    requires s != ""
    ensures r.Some? ==> |r.value| < |s|
    decreases |s|, 0
  {
    if depth > MAX_SCAN_DEPTH then None
    else
      var t := SkipWs(s[1..]);
      if t != "" && t[0] == '}' then Some(t[1..]) else ScanMembers(t, depth)
  }

  /** The loop of scanJSONObject, entered at a member name. */
  function ScanMembers(s: string, depth: nat): (r: Option<string>)
    ensures r.Some? ==> |r.value| < |s|
    decreases |s|, 0
  {
    var key := ScanString(s);
    if key.None? then None
    else
      var t := SkipWs(key.value.rest);
      if t == "" || t[0] != ':' then None
      else
        var v := ScanValue(t[1..], depth);
        if v.None? then None
        else
          var u := SkipWs(v.value);
          if u == "" then None
          else if u[0] == ',' then ScanMembers(SkipWs(u[1..]), depth)
          else if u[0] == '}' then Some(u[1..])
          else None
  }

  function ScanArray(s: string, depth: nat): (r: Option<string>)
    requires s != ""
    ensures r.Some? ==> |r.value| < |s|
    decreases |s|, 0
  {
    if depth > MAX_SCAN_DEPTH then None
    else
      var t := SkipWs(s[1..]);
      if t != "" && t[0] == ']' then Some(t[1..]) else ScanElements(t, depth)
  }

  /** The loop of scanJSONArray, entered at an element. */
  function ScanElements(s: string, depth: nat): (r: Option<string>)
    ensures r.Some? ==> |r.value| < |s|
    decreases |s|, 2
  {
    var v := ScanValue(s, depth);
    if v.None? then None
    else
      var u := SkipWs(v.value);
      if u == "" then None
      else if u[0] == ',' then ScanElements(SkipWs(u[1..]), depth)
      else if u[0] == ']' then Some(u[1..])
      else None
  }
}
