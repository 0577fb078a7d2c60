/** The scanner as rpc.go writes it: loops over an index into the line, proved against JsonScanner. */
module JsonLoops {
  import opened JsonGrammar
  import opened Options
  import opened JsonScanner

  method SkipJsonSpace(b: string, start: nat) returns (i: nat)
    requires start <= |b|
    ensures start <= i <= |b| && b[i..] == SkipWs(b[start..])
  {
    i := start;
    while i < |b|
      invariant start <= i <= |b| && SkipWs(b[i..]) == SkipWs(b[start..])
    {
      if !IsWs(b[i]) {
        return;
      }
      assert b[i..][1..] == b[i + 1..];
      i := i + 1;
    }
  }

  lemma BodyStep(b: string, start: nat, k: nat, n: nat)
    requires start <= k && k + n <= |b|
    requires BodyLength(b[start..]) == Plus(k - start, BodyLength(b[k..]))
    requires BodyLength(b[k..]) == Plus(n, BodyLength(b[k + n..]))
    ensures BodyLength(b[start..]) == Plus(k + n - start, BodyLength(b[k + n..]))
  {
  }

  /** The escape at `b[i]`: its length, or 0 when it is malformed or cut short. */
  method ScanEscape(b: string, i: nat) returns (n: nat)
    requires i < |b| && b[i] == '\\'
    ensures n == 0 ==> BodyLength(b[i..]).None?
    ensures n != 0 ==> i + n <= |b| && BodyLength(b[i..]) == Plus(n, BodyLength(b[i + n..]))
  {
    if i + 1 >= |b| {
      return 0;
    }
    assert b[i..][1] == b[i + 1];
    if b[i + 1] == 'u' {
      if i + 5 >= |b| {
        return 0;
      }
      var j := i + 2;
      while j <= i + 5
        invariant i + 2 <= j <= i + 6
        invariant forall h | 2 <= h < j - i :: IsHex(b[i..][h])
      {
        assert b[i..][j - i] == b[j];
        if !IsHex(b[j]) {
          return 0;
        }
        j := j + 1;
      }
      assert b[i..][6..] == b[i + 6..];
      return 6;
    } else if IsShortEscape(b[i + 1]) {
      assert b[i..][2..] == b[i + 2..];
      return 2;
    } else {
      return 0;
    }
  }

  lemma BodyAt(b: string, i: nat)
    requires i <= |b|
    ensures i == |b| || b[i] < ' ' ==> BodyLength(b[i..]).None?
    ensures i < |b| && b[i] == '"' ==> BodyLength(b[i..]) == Some(0)
    ensures i < |b| && b[i] >= ' ' && b[i] != '"' && b[i] != '\\' ==>
      BodyLength(b[i..]) == Plus(1, BodyLength(b[i + 1..]))
  {
    if i < |b| {
      assert b[i..][1..] == b[i + 1..];
    }
  }

  lemma InAppended(c: char, b: string, start: nat, i: nat, n: nat)
    requires start <= i && i + n <= |b|
    ensures c in b[start..i + n] <==> c in b[start..i] || c in b[i..i + n]
  {
    assert b[start..i + n] == b[start..i] + b[i..i + n];
  }

  /** The loop of scanJSONString, from the first character of the body to its closing quote. */
  method FindClosingQuote(b: string, start: nat) returns (i: nat, escaped: bool, ok: bool)
    requires start <= |b|
    ensures ok == BodyLength(b[start..]).Some?
    ensures ok ==> start <= i < |b| && BodyLength(b[start..]) == Some(i - start)
    ensures ok ==> escaped == ('\\' in b[start..i])
  {
    hide BodyLength;
    i, escaped, ok := start, false, false;
    while i < |b|
      invariant start <= i <= |b|
      invariant BodyLength(b[start..]) == Plus(i - start, BodyLength(b[i..]))
      invariant escaped == ('\\' in b[start..i])
    {
      BodyAt(b, i);
      var n := 1;
      if b[i] == '\\' {
        escaped := true;
        n := ScanEscape(b, i);
        if n == 0 {
          return;
        }
        assert b[i..i + n][0] == '\\';
      } else if b[i] == '"' {
        ok := true;
        return;
      } else if b[i] < ' ' {
        return;
      }
      InAppended('\\', b, start, i, n);
      BodyStep(b, start, i, n);
      i := i + n;
    }
    BodyAt(b, i);
  }

  method ScanJsonString(b: string, at: nat) returns (body: string, escaped: bool, end: nat, ok: bool)
    requires at <= |b|
    ensures ok == ScanString(b[at..]).Some?
    ensures ok ==> at < end <= |b| && ScanString(b[at..]) == Some(Token(body, b[end..]))
    ensures ok ==> escaped == ('\\' in body)
  {
    hide Utf8Valid, BodyLength;
    body, escaped, end, ok := "", false, at, false;
    if at >= |b| || b[at] != '"' {
      return;
    }
    var start := at + 1;
    assert b[at..][1..] == b[start..];
    var i, found;
    i, escaped, found := FindClosingQuote(b, start);
    if !found {
      return;
    }
    assert b[start..][..i - start] == b[start..i] && b[start..][i - start + 1..] == b[i + 1..];
    body, end, ok := b[start..i], i + 1, Utf8Valid(b[start..i]);
  }

  method SkipDigits(value: string, start: nat) returns (i: nat)
    requires start <= |value|
    ensures i == start + DigitsLength(value[start..]) <= |value|
  {
    i := start;
    while i < |value| && IsDigit(value[i])
      invariant start <= i <= |value|
      invariant DigitsLength(value[start..]) == i - start + DigitsLength(value[i..])
    {
      assert value[i..][1..] == value[i + 1..];
      i := i + 1;
    }
  }

  /** The optional fraction at `value[at..]`. */
  method SkipFraction(value: string, at: nat) returns (i: nat, ok: bool)
    requires at <= |value|
    ensures i <= |value| && NumberFraction(value[at..]) == (ok && NumberTail(value[i..]))
  {
    hide DigitsLength, NumberTail;
    i, ok := at, true;
    if i < |value| && value[i] == '.' {
      var start := i + 1;
      i := SkipDigits(value, start);
      assert value[at..][1..] == value[start..];
      assert value[start..][i - start..] == value[i..];
      ok := i != start;
    }
  }

  /** The optional exponent at `value[at..]`. */
  method SkipExponent(value: string, at: nat) returns (i: nat, ok: bool)
    requires at <= |value|
    ensures i <= |value| && NumberTail(value[at..]) == (ok && i == |value|)
  {
    hide DigitsLength;
    i, ok := at, true;
    if i < |value| && (value[i] == 'e' || value[i] == 'E') {
      i := i + 1;
      if i < |value| && (value[i] == '+' || value[i] == '-') {
        i := i + 1;
      }
      assert value[i..] == value[at..][i - at..];
      var start := i;
      i := SkipDigits(value, start);
      ok := i != start;
    }
  }

  /** isValidJSONNumber, called on a non-empty value. */
  method IsValidJsonNumber(value: string) returns (ok: bool)
    requires value != ""
    ensures ok == NumberOk(value)
  {
    hide DigitsLength, NumberFraction, NumberTail;
    var i: nat := 0;
    if value[i] == '-' {
      i := i + 1;
      if i == |value| {
        return false;
      }
    }
    var start := i;
    assert value[start..] == if value[0] == '-' then value[1..] else value;
    if value[i] == '0' {
      i := i + 1;
    } else if '1' <= value[i] <= '9' {
      i := SkipDigits(value, i);
    } else {
      return false;
    }
    assert value[start..][i - start..] == value[i..];
    i, ok := SkipFraction(value, i);
    if !ok {
      return;
    }
    i, ok := SkipExponent(value, i);
    ok := ok && i == |value|;
  }

  method ScanJsonLiteral(b: string, start: nat) returns (end: nat, ok: bool)
    requires start <= |b|
    ensures ok == ScanLiteral(b[start..]).Some?
    ensures ok ==> start < end <= |b| && ScanLiteral(b[start..]) == Some(b[end..])
  {
    end := start;
    while end < |b| && !IsDelimiter(b[end])
      invariant start <= end <= |b|
      invariant LiteralLength(b[start..]) == end - start + LiteralLength(b[end..])
    {
      assert b[end..][1..] == b[end + 1..];
      end := end + 1;
    }
    var value := b[start..end];
    assert value == b[start..][..end - start] && b[end..] == b[start..][end - start..];
    if value == "" {
      ok := false;
    } else if value == "true" || value == "false" || value == "null" {
      ok := true;
    } else {
      ok := IsValidJsonNumber(value);
    }
  }

  /** What every composite scanner below promises: the index form of the functional scan. */
  predicate Agrees(b: string, start: nat, end: nat, ok: bool, r: Option<string>)
  {
    && ok == r.Some?
    && (ok ==> start < end <= |b| && r == Some(b[end..]))
  }

  method ScanJsonValueDepth(b: string, at: nat, depth: nat) returns (end: nat, ok: bool)
    requires at <= |b|
    ensures Agrees(b, at, end, ok, ScanValue(b[at..], depth))
    decreases |b| - at, 1
  {
    hide ScanString, ScanLiteral, ScanObject, ScanArray, SkipWs;
    var i := SkipJsonSpace(b, at);
    if i >= |b| {
      return i, false;
    }
    if b[i] == '"' {
      var body, escaped;
      body, escaped, end, ok := ScanJsonString(b, i);
    } else if b[i] == '{' {
      end, ok := ScanJsonObject(b, i, depth + 1);
    } else if b[i] == '[' {
      end, ok := ScanJsonArray(b, i, depth + 1);
    } else {
      end, ok := ScanJsonLiteral(b, i);
    }
  }

  method ScanJsonObject(b: string, at: nat, depth: nat) returns (end: nat, ok: bool)
    requires at < |b|
    ensures Agrees(b, at, end, ok, ScanObject(b[at..], depth))
    decreases |b| - at, 0
  {
    hide ScanString, ScanValue, SkipWs;
    end, ok := at, false;
    if depth > MAX_SCAN_DEPTH {
      return;
    }
    assert b[at..][1..] == b[at + 1..];
    var i := SkipJsonSpace(b, at + 1);
    if i < |b| && b[i] == '}' {
      assert b[i..][1..] == b[i + 1..];
      return i + 1, true;
    }
    while true
      invariant at < i <= |b|
      invariant ScanMembers(b[i..], depth) == ScanObject(b[at..], depth)
      decreases |b| - i
    {
      ghost var member := i;
      var key, escaped, next, found := ScanJsonString(b, i);
      if !found {
        return;
      }
      i := SkipJsonSpace(b, next);
      if i >= |b| || b[i] != ':' {
        return;
      }
      assert b[i..][1..] == b[i + 1..];
      next, found := ScanJsonValueDepth(b, i + 1, depth);
      if !found {
        return;
      }
      i := SkipJsonSpace(b, next);
      if i >= |b| {
        return;
      }
      assert b[i..][1..] == b[i + 1..];
      if b[i] == ',' {
        i := SkipJsonSpace(b, i + 1);
        assert ScanMembers(b[i..], depth) == ScanMembers(b[member..], depth);
      } else if b[i] == '}' {
        return i + 1, true;
      } else {
        return;
      }
    }
  }

  method ScanJsonArray(b: string, at: nat, depth: nat) returns (end: nat, ok: bool)
    requires at < |b|
    ensures Agrees(b, at, end, ok, ScanArray(b[at..], depth))
    decreases |b| - at, 0
  {
    hide ScanValue, SkipWs;
    end, ok := at, false;
    if depth > MAX_SCAN_DEPTH {
      return;
    }
    assert b[at..][1..] == b[at + 1..];
    var i := SkipJsonSpace(b, at + 1);
    if i < |b| && b[i] == ']' {
      assert b[i..][1..] == b[i + 1..];
      return i + 1, true;
    }
    while true
      invariant at < i <= |b|
      invariant ScanElements(b[i..], depth) == ScanArray(b[at..], depth)
      decreases |b| - i
    {
      ghost var element := i;
      var next, found := ScanJsonValueDepth(b, i, depth);
      if !found {
        return;
      }
      i := SkipJsonSpace(b, next);
      if i >= |b| {
        return;
      }
      assert b[i..][1..] == b[i + 1..];
      if b[i] == ',' {
        i := SkipJsonSpace(b, i + 1);
        assert ScanElements(b[i..], depth) == ScanElements(b[element..], depth);
      } else if b[i] == ']' {
        return i + 1, true;
      } else {
        return;
      }
    }
  }

  method ScanJsonValue(b: string, at: nat) returns (end: nat, ok: bool)
    requires at <= |b|
    ensures Agrees(b, at, end, ok, ScanValue(b[at..], 0))
  {
    end, ok := ScanJsonValueDepth(b, at, 0);
  }
}
