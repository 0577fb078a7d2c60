/** Comparing dotted numeric versions: an order on their numeric prefixes, padded with zeros. */
module Versions {
  import opened JsonGrammar
  import opened Options
  import opened Strings
  import Decimal

  /** strconv.Atoi: an optional sign, decimal digits, the range of a 64-bit int. */
  function Atoi(s: string): Option<int> {
    var signed := s != "" && (s[0] == '-' || s[0] == '+');
    var digits := if signed then s[1..] else s;
    if digits == "" || !AllDigits(digits) then None
    else
      var n: int := Decimal.ValueOf(digits);
      if signed && s[0] == '-' then if n <= Decimal.INT64_LIMIT then Some(-n) else None
      else if n < Decimal.INT64_LIMIT then Some(n)
      else None
  }

  /** The numbers up to the first field that is none. */
  function NumericPrefix(fields: seq<string>): seq<int> {
    if fields == [] || Atoi(fields[0]).None? then [] else [Atoi(fields[0]).value] + NumericPrefix(fields[1..])
  }

  function Parts(v: string): seq<int> {
    NumericPrefix(SplitDots(v))
  }

  function PartAt(parts: seq<int>, i: nat): int {
    if i < |parts| then parts[i] else 0
  }

  function Sign(a: int, b: int): int {
    if a < b then -1 else if a > b then 1 else 0
  }

  /** The first difference from position `i` on, up to `n`. */
  function CompareFrom(a: seq<int>, b: seq<int>, i: nat, n: nat): int
    decreases n - i
  {
    if i >= n then 0
    else if PartAt(a, i) != PartAt(b, i) then Sign(PartAt(a, i), PartAt(b, i))
    else CompareFrom(a, b, i + 1, n)
  }

  function Longest(a: seq<int>, b: seq<int>): nat {
    if |a| > |b| then |a| else |b|
  }

  function Compare(a: string, b: string): int {
    CompareFrom(Parts(a), Parts(b), 0, Longest(Parts(a), Parts(b)))
  }

  lemma {:induction false} PrefixGrows(fields: seq<string>, i: nat)
    requires i < |fields| && forall j | 0 <= j <= i :: Atoi(fields[j]).Some?
    ensures NumericPrefix(fields[..i + 1]) == NumericPrefix(fields[..i]) + [Atoi(fields[i]).value]
  {
    hide Atoi;
    if i == 0 {
      assert fields[..1][1..] == [];
    } else {
      assert fields[..i + 1][1..] == fields[1..][..i] && fields[..i][1..] == fields[1..][..i - 1];
      PrefixGrows(fields[1..], i - 1);
    }
  }

  lemma {:induction false} PrefixStops(fields: seq<string>, i: nat)
    requires i <= |fields| && (forall j | 0 <= j < i :: Atoi(fields[j]).Some?)
    requires i < |fields| ==> Atoi(fields[i]).None?
    ensures NumericPrefix(fields) == NumericPrefix(fields[..i])
  {
    hide Atoi;
    if i > 0 {
      assert fields[..i][1..] == fields[1..][..i - 1];
      PrefixStops(fields[1..], i - 1);
    }
  }

  method ParseParts(v: string) returns (nums: seq<int>)
    ensures nums == Parts(v)
  {
    hide Atoi;
    nums := [];
    var fields := SplitDots(v);
    for i := 0 to |fields|
      invariant nums == NumericPrefix(fields[..i])
      invariant forall j | 0 <= j < i :: Atoi(fields[j]).Some?
    {
      var n := Atoi(fields[i]);
      if n.None? {
        PrefixStops(fields, i);
        return;
      }
      PrefixGrows(fields, i);
      nums := nums + [n.value];
    }
    assert fields[..|fields|] == fields;
  }

  /** compareVersions */
  method CompareVersions(a: string, b: string) returns (r: int)
    ensures r == Compare(a, b)
    ensures (r < 0 <==> Older(a, b)) && (r > 0 <==> Older(b, a)) && -1 <= r <= 1
  {
    hide Parts;
    CompareIsFirstDifference(a, b);
    var aParts := ParseParts(a);
    var bParts := ParseParts(b);
    var i := 0;
    while i < |aParts| || i < |bParts|
      invariant 0 <= i <= Longest(aParts, bParts)
      invariant CompareFrom(aParts, bParts, 0, Longest(aParts, bParts))
        == CompareFrom(aParts, bParts, i, Longest(aParts, bParts))
      decreases Longest(aParts, bParts) - i
    {
      var av, bv := 0, 0;
      if i < |aParts| {
        av := aParts[i];
      }
      if i < |bParts| {
        bv := bParts[i];
      }
      if av != bv {
        if av < bv {
          return -1;
        }
        return 1;
      }
      i := i + 1;
    }
    r := 0;
  }

  // ---------- what is compared ----------

  /** `s` is `n` in decimal, with an optional sign and within 64 bits. */
  predicate IsNumeral(s: string, digits: string, n: int) {
    && digits != "" && AllDigits(digits) && -0x8000_0000_0000_0000 <= n < 0x8000_0000_0000_0000
    && var value: int := Decimal.ValueOf(digits);
       ((s == digits || s == "+" + digits) && n == value) || (s == "-" + digits && n == -value)
  }

  ghost predicate IsNumber(s: string, n: int) {
    exists digits :: IsNumeral(s, digits, n)
  }

  lemma AtoiIsNumber(s: string, n: int)
    ensures Atoi(s) == Some(n) <==> IsNumber(s, n)
  {
    hide Decimal.ValueOf;
    if Atoi(s) == Some(n) {
      var digits := if s[0] == '-' || s[0] == '+' then s[1..] else s;
      assert s[0] == '-' ==> s == "-" + digits;
      assert s[0] == '+' ==> s == "+" + digits;
      assert s[0] == '-' || s != "-" + digits;
      assert IsNumeral(s, digits, n);
    }
    if digits :| IsNumeral(s, digits, n) {
      assert IsDigit(digits[0]);
      assert ("-" + digits)[1..] == digits && ("+" + digits)[1..] == digits;
    }
  }

  /** The numbers compared are those of the dotted fields, up to the first field that is no number. */
  lemma {:induction false} PrefixIsNumbers(fields: seq<string>)
    ensures var nums := NumericPrefix(fields);
      && |nums| <= |fields| && (forall i | 0 <= i < |nums| :: IsNumber(fields[i], nums[i]))
      && (|nums| < |fields| ==> forall n :: !IsNumber(fields[|nums|], n))
  {
    hide IsNumber, Atoi;
    if fields != [] {
      forall n ensures Atoi(fields[0]) == Some(n) <==> IsNumber(fields[0], n) { AtoiIsNumber(fields[0], n); }
      PrefixIsNumbers(fields[1..]);
    }
  }

  /** The parts of a version: the numbers between its dots, up to the first field that is none. */
  lemma PartsAreNumbers(v: string, fields: seq<string>)
    requires fields != [] && JoinDots(fields) == v && forall f | f in fields :: DotFree(f)
    ensures var nums := Parts(v);
      && |nums| <= |fields| && (forall i | 0 <= i < |nums| :: IsNumber(fields[i], nums[i]))
      && (|nums| < |fields| ==> forall n :: !IsNumber(fields[|nums|], n))
  {
    hide IsNumber;
    SplitOfJoin(fields);
    PrefixIsNumbers(fields);
  }

  /** The first part in which the two differ, missing ones counting as zero, is smaller in `a`. */
  ghost predicate Older(a: string, b: string) {
    exists i: nat :: OlderAt(Parts(a), Parts(b), i)
  }

  predicate OlderAt(a: seq<int>, b: seq<int>, i: nat) {
    PartAt(a, i) < PartAt(b, i) && forall j: nat | j < i :: PartAt(a, j) == PartAt(b, j)
  }

  lemma {:induction false} FirstDifference(a: seq<int>, b: seq<int>, i: nat, n: nat)
    requires Longest(a, b) <= n && i <= n && forall j: nat | j < i :: PartAt(a, j) == PartAt(b, j)
    ensures CompareFrom(a, b, i, n) < 0 <==> exists k: nat :: OlderAt(a, b, k)
    ensures CompareFrom(a, b, i, n) > 0 <==> exists k: nat :: OlderAt(b, a, k)
    decreases n - i
  {
    if i < n {
      if PartAt(a, i) < PartAt(b, i) {
        assert OlderAt(a, b, i);
      } else if PartAt(a, i) > PartAt(b, i) {
        assert OlderAt(b, a, i);
      } else {
        FirstDifference(a, b, i + 1, n);
      }
    }
  }

  /** A negative result means older, a positive one newer: the first differing part decides. */
  lemma CompareIsFirstDifference(a: string, b: string)
    ensures Compare(a, b) < 0 <==> exists i: nat ::
      PartAt(Parts(a), i) < PartAt(Parts(b), i) && forall j: nat | j < i :: PartAt(Parts(a), j) == PartAt(Parts(b), j)
    ensures (Compare(a, b) < 0 <==> Older(a, b)) && (Compare(a, b) > 0 <==> Older(b, a))
  {
    hide Parts;
    FirstDifference(Parts(a), Parts(b), 0, Longest(Parts(a), Parts(b)));
    forall i: nat
      ensures OlderAt(Parts(a), Parts(b), i) <==>
        PartAt(Parts(a), i) < PartAt(Parts(b), i) && forall j: nat | j < i :: PartAt(Parts(a), j) == PartAt(Parts(b), j)
    {
    }
  }

  // ---------- padding ----------

  function Padded(parts: seq<int>, n: nat): (r: seq<int>)
    requires |parts| <= n
    ensures |r| == n && forall i | 0 <= i < n :: r[i] == PartAt(parts, i)
  {
    parts + seq(n - |parts|, _ => 0)
  }

  /** Lexicographic comparison of sequences of one length. */
  function Lexicographic(a: seq<int>, b: seq<int>): int
    requires |a| == |b|
  {
    if a == [] then 0
    else if a[0] < b[0] then -1
    else if a[0] > b[0] then 1
    else Lexicographic(a[1..], b[1..])
  }

  lemma {:induction false} ComparePadded(a: seq<int>, b: seq<int>, i: nat, n: nat)
    requires |a| <= n && |b| <= n && i <= n
    ensures CompareFrom(a, b, i, n) == Lexicographic(Padded(a, n)[i..], Padded(b, n)[i..])
    decreases n - i
  {
    if i < n {
      ComparePadded(a, b, i + 1, n);
      assert Padded(a, n)[i..][1..] == Padded(a, n)[i + 1..] && Padded(b, n)[i..][1..] == Padded(b, n)[i + 1..];
    }
  }

  lemma {:induction false} BeyondBothIsEqual(a: seq<int>, b: seq<int>, i: nat, m: nat, n: nat)
    requires Longest(a, b) <= m <= n && i <= n
    ensures CompareFrom(a, b, i, m) == CompareFrom(a, b, i, n)
    decreases n - i
  {
    if i < n { BeyondBothIsEqual(a, b, i + 1, m, n); }
  }

  /** The comparison is that of the numeric prefixes padded with zeros to any common length. */
  lemma CompareIsPaddedLexicographic(a: string, b: string, n: nat)
    requires |Parts(a)| <= n && |Parts(b)| <= n
    ensures Compare(a, b) == Lexicographic(Padded(Parts(a), n), Padded(Parts(b), n))
  {
    hide Parts;
    var p, q := Parts(a), Parts(b);
    BeyondBothIsEqual(p, q, 0, Longest(p, q), n);
    ComparePadded(p, q, 0, n);
    assert Padded(p, n)[0..] == Padded(p, n) && Padded(q, n)[0..] == Padded(q, n);
  }

  // ---------- the order ----------

  lemma {:induction false} LexicographicLaws(a: seq<int>, b: seq<int>, c: seq<int>)
    requires |a| == |b| == |c|
    ensures Lexicographic(a, b) == -Lexicographic(b, a)
    ensures Lexicographic(a, b) == 0 <==> a == b
    ensures Lexicographic(a, b) <= 0 && Lexicographic(b, c) <= 0 ==> Lexicographic(a, c) <= 0
  {
    if a != [] {
      LexicographicLaws(a[1..], b[1..], c[1..]);
      assert a == [a[0]] + a[1..] && b == [b[0]] + b[1..];
    }
  }

  /**
   A total preorder: reflexive, antisymmetric in sign, transitive; and two versions are equivalent exactly when
   their numeric prefixes agree up to trailing zeros.
   */
  lemma VersionsAreOrdered(a: string, b: string, c: string)
    ensures Compare(a, a) == 0
    ensures Compare(a, b) == -Compare(b, a) && -1 <= Compare(a, b) <= 1
    ensures Compare(a, b) <= 0 && Compare(b, c) <= 0 ==> Compare(a, c) <= 0
    ensures Compare(a, b) == 0 <==> forall i: nat :: PartAt(Parts(a), i) == PartAt(Parts(b), i)
  {
    hide Parts, Compare, Lexicographic;
    var p, q, r := Parts(a), Parts(b), Parts(c);
    var n := |p| + |q| + |r|;
    CompareIsPaddedLexicographic(a, a, n);
    CompareIsPaddedLexicographic(a, b, n);
    CompareIsPaddedLexicographic(b, a, n);
    CompareIsPaddedLexicographic(b, c, n);
    CompareIsPaddedLexicographic(a, c, n);
    LexicographicLaws(Padded(p, n), Padded(p, n), Padded(p, n));
    LexicographicLaws(Padded(p, n), Padded(q, n), Padded(r, n));
    CompareIsSign(a, b);
    if Compare(a, b) == 0 {
      forall i: nat ensures PartAt(p, i) == PartAt(q, i) {
        if i < n { assert Padded(p, n)[i] == Padded(q, n)[i]; }
      }
    }
    if forall i: nat :: PartAt(p, i) == PartAt(q, i) {
      assert Padded(p, n) == Padded(q, n);
    }
  }

  lemma CompareIsSign(a: string, b: string)
    ensures -1 <= Compare(a, b) <= 1
  {
    hide Parts;
    FirstDifferenceIsSign(Parts(a), Parts(b), 0, Longest(Parts(a), Parts(b)));
  }

  lemma {:induction false} FirstDifferenceIsSign(a: seq<int>, b: seq<int>, i: nat, n: nat)
    ensures -1 <= CompareFrom(a, b, i, n) <= 1
    decreases n - i
  {
    if i < n { FirstDifferenceIsSign(a, b, i + 1, n); }
  }
}
