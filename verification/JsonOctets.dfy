/** The octets of the grammar: its character classes by their codes, and UTF-8 as the encoding of code points. */
module JsonOctets {
  import opened JsonGrammar

  /** Sections 2, 6 and 7 of RFC 8259, by code. */
  lemma ClassesByCode(c: char)
    ensures IsWs(c) <==> c as int in {0x20, 0x09, 0x0A, 0x0D}
    ensures IsShortEscape(c) <==> c as int in {0x22, 0x5C, 0x2F, 0x62, 0x66, 0x6E, 0x72, 0x74}
    ensures IsDigit(c) <==> 0x30 <= c as int <= 0x39
    ensures IsHex(c) <==> 0x30 <= c as int <= 0x39 || 0x41 <= c as int <= 0x46 || 0x61 <= c as int <= 0x66
  {
  }

  /** A code point that is no surrogate. */
  predicate IsScalar(code: int) {
    0 <= code < 0xD800 || 0xE000 <= code < 0x11_0000
  }

  predicate AllScalar(codes: seq<int>) {
    forall k | 0 <= k < |codes| :: IsScalar(codes[k])
  }

  function Tail(n: int): char {
    (0x80 + n % 0x40) as char
  }

  /** RFC 3629, section 3: the bits of the code point, six to each octet after the first. */
  function Encoded(code: int): string
    requires IsScalar(code)
  {
    if code < 0x80 then [code as char]
    else if code < 0x800 then [(0xC0 + code / 0x40) as char, Tail(code)]
    else if code < 0x1_0000 then [(0xE0 + code / 0x1000) as char, Tail(code / 0x40), Tail(code)]
    else [(0xF0 + code / 0x4_0000) as char, Tail(code / 0x1000), Tail(code / 0x40), Tail(code)]
  }

  function Encoding(codes: seq<int>): string
    requires AllScalar(codes)
  {
    if codes == [] then "" else Encoded(codes[0]) + Encoding(codes[1..])
  }

  lemma TailIsTail(n: nat)
    ensures IsTail(Tail(n)) && Tail(n) as int == 0x80 + n % 0x40
  {
  }

  lemma EncodedIsValid(code: int, rest: string)
    requires IsScalar(code) && Utf8Valid(rest)
    ensures Utf8Valid(Encoded(code) + rest)
  {
    hide Tail;
    var s := Encoded(code) + rest;
    assert s[|Encoded(code)|..] == rest;
    TailIsTail(code);
    if code >= 0x800 { TailIsTail(code / 0x40); }
    if code >= 0x1_0000 { TailIsTail(code / 0x1000); }
    if code < 0x80 {
      assert s[0] as int == code;
    } else if code < 0x800 {
      assert s[0] as int == 0xC0 + code / 0x40;
    } else if code < 0x1_0000 {
      assert s[0] as int == 0xE0 + code / 0x1000;
      SecondOctet(code / 0x40, code / 0x1000);
    } else {
      assert s[0] as int == 0xF0 + code / 0x4_0000;
      SecondOctet(code / 0x1000, code / 0x4_0000);
    }
  }

  /** What the bits of a first octet leave for the second. */
  lemma SecondOctet(n: nat, first: nat)
    requires first == n / 0x40
    ensures n % 0x40 == n - first * 0x40
  {
  }

  lemma {:induction false} EncodingIsValid(codes: seq<int>)
    requires AllScalar(codes)
    ensures Utf8Valid(Encoding(codes))
  {
    if codes != [] {
      EncodingIsValid(codes[1..]);
      EncodedIsValid(codes[0], Encoding(codes[1..]));
    }
  }

  /** The first code point of a valid text. */
  lemma FirstIsEncoded(s: string) returns (code: int)
    requires s != "" && Utf8Valid(s)
    ensures IsScalar(code) && Encoded(code) <= s && Utf8Valid(s[|Encoded(code)|..])
  {
    var c := s[0] as int;
    if c < 0x80 {
      code := c;
    } else if c < 0xE0 {
      code := (c - 0xC0) * 0x40 + (s[1] as int - 0x80);
      assert code / 0x40 == c - 0xC0 && code % 0x40 == s[1] as int - 0x80;
    } else if c < 0xF0 {
      var high := (c - 0xE0) * 0x40 + (s[1] as int - 0x80);
      code := high * 0x40 + (s[2] as int - 0x80);
      assert code / 0x40 == high && code % 0x40 == s[2] as int - 0x80;
      assert high / 0x40 == c - 0xE0 && high % 0x40 == s[1] as int - 0x80;
      assert code / 0x1000 == high / 0x40;
    } else {
      var top := (c - 0xF0) * 0x40 + (s[1] as int - 0x80);
      var high := top * 0x40 + (s[2] as int - 0x80);
      code := high * 0x40 + (s[3] as int - 0x80);
      assert code / 0x40 == high && code % 0x40 == s[3] as int - 0x80;
      assert high / 0x40 == top && high % 0x40 == s[2] as int - 0x80;
      assert top / 0x40 == c - 0xF0 && top % 0x40 == s[1] as int - 0x80;
      assert code / 0x1000 == top && code / 0x4_0000 == top / 0x40;
    }
  }

  lemma {:induction false} ValidIsEncoding(s: string) returns (codes: seq<int>)
    requires Utf8Valid(s)
    ensures AllScalar(codes) && Encoding(codes) == s
    decreases |s|
  {
    hide Utf8Valid;
    if s == "" {
      codes := [];
    } else {
      var code := FirstIsEncoded(s);
      var more := ValidIsEncoding(s[|Encoded(code)|..]);
      codes := [code] + more;
      assert codes[1..] == more;
      assert s == Encoded(code) + s[|Encoded(code)|..];
    }
  }

  /** A text is valid exactly when it is the encoding of code points, none of them a surrogate. */
  lemma Utf8ValidExactly(s: string)
    ensures Utf8Valid(s) <==> exists codes :: AllScalar(codes) && Encoding(codes) == s
  {
    if Utf8Valid(s) {
      var codes := ValidIsEncoding(s);
    }
    if codes :| AllScalar(codes) && Encoding(codes) == s {
      EncodingIsValid(codes);
    }
  }
}
