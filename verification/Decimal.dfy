/** Decimal text: printing, the overflow-checked parser of request ids, and their inverse law. */
module Decimal {
  import opened JsonGrammar
  import opened Options
  import opened RpcMessages
  import opened RpcParsing

  newtype int64 = x: int | -0x8000_0000_0000_0000 <= x < 0x8000_0000_0000_0000

  const INT64_LIMIT: nat := 0x8000_0000_0000_0000

  function DigitValue(c: char): nat
    requires IsDigit(c)
  {
    c as int - '0' as int
  }

  function DigitChar(d: nat): (c: char)
    requires d < 10
    ensures IsDigit(c) && DigitValue(c) == d
  {
    ('0' as int + d) as char
  }

  function ValueOf(s: string): nat
    requires AllDigits(s)
  {
    if s == "" then 0 else ValueOf(s[..|s| - 1]) * 10 + DigitValue(s[|s| - 1])
  }

  /** strconv.AppendInt in base 10, for the non-negative numbers the peer issues. */
  function ToDecimal(n: nat): (s: string)
    ensures s != "" && AllDigits(s)
  {
    if n < 10 then [DigitChar(n)] else ToDecimal(n / 10) + [DigitChar(n % 10)]
  }

  lemma {:induction false} ValueOfDecimal(n: nat)
    ensures ValueOf(ToDecimal(n)) == n
  {
    var s := ToDecimal(n);
    if n < 10 {
      assert s[..|s| - 1] == "";
    } else {
      assert s[..|s| - 1] == ToDecimal(n / 10);
      ValueOfDecimal(n / 10);
    }
  }

  lemma DecimalInjective(a: nat, b: nat)
    requires ToDecimal(a) == ToDecimal(b)
    ensures a == b
  {
    ValueOfDecimal(a);
    ValueOfDecimal(b);
  }

  lemma {:induction false} NoLeadingZero(n: nat)
    ensures n > 0 ==> ToDecimal(n)[0] != '0'
    ensures IsInt(ToDecimal(n))
  {
    if n >= 10 { NoLeadingZero(n / 10); }
  }

  lemma {:induction false} ValueGrows(s: string, i: nat)
    requires i <= |s| && AllDigits(s)
    ensures ValueOf(s[..i]) <= ValueOf(s)
  {
    if i < |s| {
      assert s[..|s| - 1][..i] == s[..i];
      ValueGrows(s[..|s| - 1], i);
    } else {
      assert s[..i] == s;
    }
  }

  /** What parsePositiveInt64Bytes decides. */
  function PositiveInt64(s: string): Option<nat> {
    if s != "" && AllDigits(s) && ValueOf(s) < INT64_LIMIT then Some(ValueOf(s)) else None
  }

  /** The loop of the source in 64-bit arithmetic: the verifier checks that no step overflows. */
  method ParsePositiveInt64(s: string) returns (value: int64, ok: bool)
    ensures ok <==> s != "" && AllDigits(s) && ValueOf(s) < INT64_LIMIT
    ensures ok ==> value as int == ValueOf(s)
  {
    value, ok := 0, false;
    if |s| == 0 {
      return;
    }
    for i := 0 to |s|
      invariant AllDigits(s[..i]) && 0 <= value && value as int == ValueOf(s[..i])
    {
      var b := s[i];
      if b < '0' || b > '9' {
        return;
      }
      var digit := (b as int - '0' as int) as int64;
      assert s[..i + 1][..i] == s[..i];
      if value > (0x7FFF_FFFF_FFFF_FFFF - digit) / 10 {
        if AllDigits(s) {
          ValueGrows(s, i + 1);
        }
        return;
      }
      value := value * 10 + digit;
    }
    assert s[..|s|] == s;
    ok := true;
  }

  /** parseRPCID: a bare or a quoted number. */
  function RpcId(raw: string): Option<nat> {
    var id := Trim(raw);
    if id == "" then None
    else if id[0] == '"' then
      if |id| < 2 || id[|id| - 1] != '"' then None else PositiveInt64(id[1..|id| - 1])
    else PositiveInt64(id)
  }

  /** Any echo of an issued id, bare or quoted and with any padding, resolves to that id. */
  lemma EchoResolves(n: nat, before: string, after: string)
    requires n < INT64_LIMIT && AllWs(before) && AllWs(after)
    ensures RpcId(before + ToDecimal(n) + after) == Some(n)
    ensures RpcId(before + ("\"" + ToDecimal(n) + "\"") + after) == Some(n)
  {
    hide Trim;
    ValueOfDecimal(n);
    var s := ToDecimal(n);
    TrimStops(before, s, after);
    TrimStops(before, "\"" + s + "\"", after);
    assert ("\"" + s + "\"")[1..|s| + 1] == s;
  }

  predicate IsNumeral(digits: string, n: nat) {
    digits != "" && AllDigits(digits) && ValueOf(digits) == n
  }

  /** A response resolves to an id only when its own id is a numeral of that number, bare or quoted. */
  lemma ResolvedIdIsTheEchoedOne(n: nat, raw: string)
    requires n < INT64_LIMIT && RpcId(raw) == Some(n)
    ensures exists digits :: IsNumeral(digits, n) && (Trim(raw) == digits || Trim(raw) == "\"" + digits + "\"")
  {
    var id := Trim(raw);
    if id[0] == '"' {
      var digits := id[1..|id| - 1];
      assert IsNumeral(digits, n) && id == "\"" + digits + "\"";
    } else {
      assert IsNumeral(id, n);
    }
  }
}
