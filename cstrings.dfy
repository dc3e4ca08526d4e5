/**
 * The handful of C library routines the device code relies on, stated over
 * `string` (a C string is the text before its first NUL):
 * strchr, strstr, strncpy into a bounded buffer, isspace, atoi and `%d`.
 */
module CStrings {
  import opened Wrappers

  const NUL: char := '\0'

  /** isspace in the C locale. */
  predicate IsSpace(c: char) {
    c == ' ' || c == '\t' || c == '\n' || c == '\r' || c == '\U{B}' || c == '\U{C}'
  }

  predicate IsDigit(c: char) {
    '0' <= c <= '9'
  }

  /** strchr as an index: the first position holding `c`, or |s| when there is none. */
  function IndexOf(s: string, c: char): (r: nat)
    ensures r <= |s|
    ensures forall j :: 0 <= j < r ==> s[j] != c
    ensures r < |s| ==> s[r] == c
  {
    if s == [] then 0
    else if s[0] == c then 0
    else 1 + IndexOf(s[1..], c)
  }

  /** The three facts IndexOf promises pin it down. */
  lemma IndexOfUnique(s: string, c: char, k: nat)
    requires k <= |s|
    requires forall j :: 0 <= j < k ==> s[j] != c
    requires k < |s| ==> s[k] == c
    ensures IndexOf(s, c) == k
  {
  }

  /** Searching past a prefix that does not hold `c`. */
  lemma IndexOfAppend(a: string, b: string, c: char)
    requires c !in a
    ensures IndexOf(a + b, c) == |a| + IndexOf(b, c)
  {
    var s := a + b;
    var k := |a| + IndexOf(b, c);
    forall j | 0 <= j < k ensures s[j] != c {
      if j >= |a| {
        assert s[j] == b[j - |a|];
      }
    }
    if k < |s| {
      assert s[k] == b[IndexOf(b, c)];
    }
    IndexOfUnique(s, c, k);
  }

  /** A prefix that holds `c` decides where `c` is first found. */
  lemma IndexOfPrefix(a: string, b: string, c: char)
    requires c in a
    ensures IndexOf(a + b, c) == IndexOf(a, c)
  {
    var k := IndexOf(a, c);
    forall j | 0 <= j <= k ensures (a + b)[j] == a[j] { }
    IndexOfUnique(a + b, c, k);
  }

  /** The C string a character buffer holds: everything before the first NUL. */
  function CStr(s: string): (r: string)
    ensures NUL !in r
    ensures r <= s
    ensures NUL !in s ==> r == s
    ensures |r| < |s| ==> s[|r|] == NUL
  {
    s[..IndexOf(s, NUL)]
  }

  /**
   * What a buffer of `n + 1` characters holds after strncpy(dst, src, n):
   * at most the first `n` characters of `src`.
   */
  function Truncate(s: string, n: nat): (r: string)
    ensures |r| <= n
    ensures r <= s
    ensures |s| <= n ==> r == s
    ensures |s| > n ==> |r| == n
  {
    if |s| <= n then s else s[..n]
  }

  lemma TruncateTwice(s: string, m: nat, n: nat)
    requires n <= m
    ensures Truncate(Truncate(s, m), n) == Truncate(s, n)
  {
  }

  /** `pat` occurs in `s` starting at position `j`. */
  predicate MatchAt(s: string, pat: string, j: nat) {
    j + |pat| <= |s| && s[j..j + |pat|] == pat
  }

  /** The first occurrence of `pat` in `s` at or after position `i`. */
  function FindFrom(s: string, pat: string, i: nat): (r: Option<nat>)
    requires i <= |s|
    ensures r.Some? ==> i <= r.value && MatchAt(s, pat, r.value)
    ensures r.Some? ==> forall j :: i <= j < r.value ==> !MatchAt(s, pat, j)
    ensures r.None? ==> forall j :: i <= j <= |s| ==> !MatchAt(s, pat, j)
    decreases |s| - i
  {
    if i + |pat| > |s| then None
    else if s[i..i + |pat|] == pat then Some(i)
    else FindFrom(s, pat, i + 1)
  }

  /** strstr as an index: the first position where `pat` occurs in `s`, if any. */
  function FindSub(s: string, pat: string): (r: Option<nat>)
    ensures r.Some? ==> MatchAt(s, pat, r.value)
    ensures r.Some? ==> forall j :: 0 <= j < r.value ==> !MatchAt(s, pat, j)
    ensures r.None? <==> forall j :: 0 <= j <= |s| ==> !MatchAt(s, pat, j)
  {
    FindFrom(s, pat, 0)
  }

  /** strstr(s, pat) != NULL. */
  predicate Contains(s: string, pat: string) {
    FindSub(s, pat).Some?
  }

  lemma ContainsIff(s: string, pat: string)
    ensures Contains(s, pat) <==> exists j :: 0 <= j <= |s| && MatchAt(s, pat, j)
  {
    if Contains(s, pat) {
      assert MatchAt(s, pat, FindSub(s, pat).value);
    }
  }

  /** A pattern with a character the text lacks occurs nowhere in it. */
  lemma MissingCharNoMatch(s: string, pat: string, i: nat)
    requires i < |pat| && pat[i] !in s
    ensures !Contains(s, pat)
  {
    forall j | 0 <= j <= |s| ensures !MatchAt(s, pat, j) {
      if j + |pat| <= |s| {
        assert s[j..j + |pat|][i] == s[j + i];
      }
    }
  }

  // ---- Decimal numbers: printf("%d") and atoi ----

  function DigitChar(d: nat): (c: char)
    requires d < 10
    ensures IsDigit(c)
  {
    "0123456789"[d]
  }

  function DigitValue(c: char): nat
    requires IsDigit(c)
  {
    (c as int - '0' as int) as nat
  }

  lemma DigitRoundTrip(d: nat)
    requires d < 10
    ensures DigitValue(DigitChar(d)) == d
  {
  }

  /** The decimal digits of a natural number, most significant first. */
  function NatDecimal(n: nat): (r: string)
    ensures r != []
    ensures forall j :: 0 <= j < |r| ==> IsDigit(r[j])
    decreases n
  {
    if n < 10 then [DigitChar(n)] else NatDecimal(n / 10) + [DigitChar(n % 10)]
  }

  /** What printf("%d", n) writes. */
  function Decimal(n: int): (r: string)
    ensures r != [] && (IsDigit(r[0]) || r[0] == '-')
  {
    if n < 0 then "-" + NatDecimal(-n) else NatDecimal(n)
  }

  /** The value of a string of decimal digits. */
  function DigitsValue(ds: string): nat
    requires forall j :: 0 <= j < |ds| ==> IsDigit(ds[j])
  {
    if ds == [] then 0
    else 10 * DigitsValue(ds[..|ds| - 1]) + DigitValue(ds[|ds| - 1])
  }

  /** The length of the leading run of whitespace. */
  function SpaceSpan(s: string): (r: nat)
    ensures r <= |s|
    ensures forall j :: 0 <= j < r ==> IsSpace(s[j])
    ensures r < |s| ==> !IsSpace(s[r])
  {
    if s != [] && IsSpace(s[0]) then 1 + SpaceSpan(s[1..]) else 0
  }

  /** The length of the leading run of decimal digits. */
  function DigitSpan(s: string): (r: nat)
    ensures r <= |s|
    ensures forall j :: 0 <= j < r ==> IsDigit(s[j])
    ensures r < |s| ==> !IsDigit(s[r])
  {
    if s != [] && IsDigit(s[0]) then 1 + DigitSpan(s[1..]) else 0
  }

  /** The value of the leading digit run of `s` (0 when there is none). */
  function LeadingValue(s: string): nat {
    DigitsValue(s[..DigitSpan(s)])
  }

  /**
   * atoi: leading whitespace is skipped, one optional sign is read, then the
   * longest run of digits; anything after that run is ignored.
   */
  function Atoi(s: string): int {
    var t := s[SpaceSpan(s)..];
    if t != [] && t[0] == '-' then -(LeadingValue(t[1..]) as int)
    else if t != [] && t[0] == '+' then LeadingValue(t[1..])
    else LeadingValue(t)
  }

  predicate IsInt32(n: int) {
    -0x8000_0000 <= n < 0x8000_0000
  }

  lemma {:induction false} DigitsValueOfDecimal(n: nat)
    ensures DigitsValue(NatDecimal(n)) == n
    decreases n
  {
    var ds := NatDecimal(n);
    if n < 10 {
      DigitRoundTrip(n);
    } else {
      DigitsValueOfDecimal(n / 10);
      DigitRoundTrip(n % 10);
      assert ds[..|ds| - 1] == NatDecimal(n / 10);
    }
  }

  lemma DigitSpanAll(s: string)
    requires forall j :: 0 <= j < |s| ==> IsDigit(s[j])
    ensures DigitSpan(s) == |s|
  {
  }

  /** atoi reads back exactly the number printf("%d") wrote. */
  lemma AtoiDecimal(n: int)
    ensures Atoi(Decimal(n)) == n
  {
    var s := Decimal(n);
    assert SpaceSpan(s) == 0;
    assert s[0..] == s;
    var ds := NatDecimal(if n < 0 then -n else n);
    DigitSpanAll(ds);
    assert ds[..|ds|] == ds;
    DigitsValueOfDecimal(if n < 0 then -n else n);
    if n < 0 {
      assert s[1..] == ds;
    } else {
      assert s[0] != '-' && s[0] != '+';
    }
  }

  /** A number below 10^k has at most k digits (k >= 1: zero has one digit). */
  lemma {:induction false} NatDecimalLength(n: nat, k: nat)
    requires k >= 1 && n < Pow10(k)
    ensures |NatDecimal(n)| <= k
    decreases n
  {
    if n >= 10 {
      assert n / 10 < Pow10(k - 1);
      NatDecimalLength(n / 10, k - 1);
    }
  }

  function Pow10(k: nat): (r: nat)
    ensures r >= 1
  {
    if k == 0 then 1 else 10 * Pow10(k - 1)
  }

  /** A 32-bit int prints in at most 11 characters. */
  lemma DecimalInt32Length(n: int)
    requires IsInt32(n)
    ensures |Decimal(n)| <= 11
  {
    assert Pow10(10) == 10_000_000_000;
    NatDecimalLength(if n < 0 then -n else n, 10);
  }

  lemma DecimalNoNul(n: int)
    ensures NUL !in Decimal(n)
    ensures '\n' !in Decimal(n)
    ensures '=' !in Decimal(n)
  {
    var s := Decimal(n);
    var ds := NatDecimal(if n < 0 then -n else n);
    forall j | 0 <= j < |s| ensures s[j] != NUL && s[j] != '\n' && s[j] != '=' {
      if n < 0 && j > 0 {
        assert s[j] == ds[j - 1];
      }
    }
  }
}
