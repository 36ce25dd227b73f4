/** Character classes and the small string operations both apps rely on:
    Python's `str.strip`, `str.isalnum`, the regular expression class `\D`,
    decimal rendering of integers (f-strings) and decimal parsing (the numeric
    coercion of the ledger's id column). Characters are classified over ASCII,
    plus the Latin-1 code points Python also counts as whitespace. */
module Text {
  import Seqs
  import opened Wrappers

  predicate IsDigit(c: char) {
    '0' <= c <= '9'
  }

  predicate IsAlnum(c: char) {
    IsDigit(c) || ('a' <= c <= 'z') || ('A' <= c <= 'Z')
  }

  /** `str.isspace` restricted to code points below 256: tab to carriage
      return, the four separators 0x1C-0x1F, space, NEL and no-break space. */
  predicate IsSpace(c: char) {
    c == ' ' || ('\t' <= c <= '\r') || ('\U{1C}' <= c <= '\U{1F}') || c == '\U{85}' || c == '\U{A0}'
  }

  predicate AllDigits(s: string) {
    forall i :: 0 <= i < |s| ==> IsDigit(s[i])
  }

  predicate AllSpace(s: string) {
    forall i :: 0 <= i < |s| ==> IsSpace(s[i])
  }

  predicate EndsWith(s: string, suffix: string) {
    |suffix| <= |s| && s[|s| - |suffix|..] == suffix
  }

  // ---------------------------------------------------------------------
  // Character filters
  // ---------------------------------------------------------------------

  /** `re.sub(r'\D', '', s)`: every non-digit removed, the digits kept in order. */
  function StripNonDigits(s: string): (r: string)
    ensures AllDigits(r)
    ensures AllDigits(s) ==> r == s
    ensures forall c :: IsDigit(c) ==> multiset(r)[c] == multiset(s)[c]
    ensures forall c :: !IsDigit(c) ==> c !in r
  {
    Seqs.FilterKeepsAll(IsDigit, s);
    Seqs.Filter(IsDigit, s)
  }

  /** `"".join(x for x in s if x.isalnum())`. */
  function KeepAlnum(s: string): (r: string)
    ensures forall i :: 0 <= i < |r| ==> IsAlnum(r[i])
    ensures forall c :: IsAlnum(c) ==> multiset(r)[c] == multiset(s)[c]
    ensures (forall i :: 0 <= i < |s| ==> IsAlnum(s[i])) ==> r == s
  {
    Seqs.FilterKeepsAll(IsAlnum, s);
    Seqs.Filter(IsAlnum, s)
  }

  /** Filtering keeps order: the characters kept from `a + b` are those
      kept from `a` followed by those kept from `b`. With the contract above,
      this fixes the result character by character. */
  lemma StripNonDigitsAppend(a: string, b: string)
    ensures StripNonDigits(a + b) == StripNonDigits(a) + StripNonDigits(b)
  {
    Seqs.FilterAppend(IsDigit, a, b);
  }

  /** The same for the letters and digits that `KeepAlnum` keeps. */
  lemma KeepAlnumAppend(a: string, b: string)
    ensures KeepAlnum(a + b) == KeepAlnum(a) + KeepAlnum(b)
  {
    Seqs.FilterAppend(IsAlnum, a, b);
  }

  // ---------------------------------------------------------------------
  // str.strip()
  // ---------------------------------------------------------------------

  /** `s.lstrip()`: the suffix of `s` left after its leading whitespace. */
  function TrimStart(s: string): (r: string)
    ensures |r| <= |s| && r == s[|s| - |r|..]
    ensures AllSpace(s[..|s| - |r|])
    ensures r == [] || !IsSpace(r[0])
  {
    if s != [] && IsSpace(s[0]) then TrimStart(s[1..]) else s
  }

  /** `s.rstrip()`: the prefix of `s` left after its trailing whitespace. */
  function TrimEnd(s: string): (r: string)
    ensures |r| <= |s| && r == s[..|r|]
    ensures AllSpace(s[|r|..])
    ensures r == [] || !IsSpace(r[|r| - 1])
  {
    if s != [] && IsSpace(s[|s| - 1]) then
      var r := TrimEnd(s[..|s| - 1]);
      assert s[|r|..] == s[..|s| - 1][|r|..] + [s[|s| - 1]];
      r
    else s
  }

  /** `s.strip()`. */
  function Trim(s: string): (r: string)
    ensures |r| <= |s|
    ensures r == [] || (!IsSpace(r[0]) && !IsSpace(r[|r| - 1]))
  {
    TrimEnd(TrimStart(s))
  }

  /** Trim removes only surrounding whitespace: its result is a slice of
      `s` with nothing but whitespace before it and after it. */
  lemma TrimRemovesOnlySurroundingSpace(s: string)
    ensures exists i ::
              0 <= i <= |s| - |Trim(s)| && AllSpace(s[..i]) &&
              Trim(s) == s[i..i + |Trim(s)|] && AllSpace(s[i + |Trim(s)|..])
  {
    var t := TrimStart(s);
    var r := Trim(s);
    assert r == TrimEnd(t);
    var i := SliceBetweenSpaces(s, t, r);
  }

  /** A prefix `r` of a suffix `t` of `s`, where what lies outside `t` in `s`
      and outside `r` in `t` is whitespace, is a slice of `s` between
      whitespace starting at `i`. */
  lemma SliceBetweenSpaces(s: string, t: string, r: string) returns (i: nat)
    requires |t| <= |s| && t == s[|s| - |t|..] && AllSpace(s[..|s| - |t|])
    requires |r| <= |t| && r == t[..|r|] && AllSpace(t[|r|..])
    ensures i <= |s| - |r| && AllSpace(s[..i])
    ensures r == s[i..i + |r|] && AllSpace(s[i + |r|..])
  {
    i := |s| - |t|;
    assert r == s[i..i + |r|];
    assert s[i + |r|..] == t[|r|..];
  }

  /** Trim is exactly the removal of surrounding whitespace: whatever is
      padded with whitespace on either side comes back out unchanged, as long
      as it neither starts nor ends with whitespace itself. */
  lemma {:induction false} TrimOfPadded(a: string, x: string, b: string)
    requires AllSpace(a) && AllSpace(b)
    requires x == [] || (!IsSpace(x[0]) && !IsSpace(x[|x| - 1]))
    ensures Trim(a + x + b) == x
  {
    if x == [] {
      assert a + x + b == a + b;
    } else {
      TrimStartOfPadded(a, x + b);
      assert a + x + b == a + (x + b);
      TrimEndOfPadded(x, b);
    }
  }

  lemma {:induction false} TrimStartOfPadded(a: string, y: string)
    requires AllSpace(a)
    requires y == [] || !IsSpace(y[0])
    ensures TrimStart(a + y) == y
  {
    if a != [] {
      assert (a + y)[1..] == a[1..] + y;
      TrimStartOfPadded(a[1..], y);
    } else {
      assert a + y == y;
    }
  }

  lemma {:induction false} TrimEndOfPadded(x: string, b: string)
    requires AllSpace(b)
    requires x == [] || !IsSpace(x[|x| - 1])
    ensures TrimEnd(x + b) == x
  {
    if b != [] {
      assert (x + b)[..|x + b| - 1] == x + b[..|b| - 1];
      TrimEndOfPadded(x, b[..|b| - 1]);
    } else {
      assert x + b == x;
    }
  }

  // ---------------------------------------------------------------------
  // Decimal rendering and parsing
  // ---------------------------------------------------------------------

  function DigitChar(d: nat): (c: char)
    requires d < 10
    ensures IsDigit(c)
  {
    ('0' as int + d) as char
  }

  function DigitValue(c: char): (d: nat)
    requires IsDigit(c)
    ensures d < 10 && DigitChar(d) == c
  {
    c as int - '0' as int
  }

  /** `str(n)` for a natural number: its decimal digits, without leading zeros. */
  function NatToString(n: nat): (r: string)
    ensures r != [] && AllDigits(r)
    ensures r[0] == '0' ==> n == 0 && r == "0"
    decreases n
  {
    if n < 10 then [DigitChar(n)] else NatToString(n / 10) + [DigitChar(n % 10)]
  }

  /** The number a non-empty string of decimal digits denotes. */
  function DigitsValue(s: string): (v: nat)
    requires AllDigits(s)
  {
    if s == [] then 0 else DigitsValue(s[..|s| - 1]) * 10 + DigitValue(s[|s| - 1])
  }

  /** Reading back the digits of `n` gives `n`. */
  lemma {:induction false} NatToStringRoundTrip(n: nat)
    ensures DigitsValue(NatToString(n)) == n
    decreases n
  {
    var r := NatToString(n);
    if n < 10 {
      assert r[..0] == [];
    } else {
      NatToStringRoundTrip(n / 10);
      assert r[..|r| - 1] == NatToString(n / 10);
    }
  }

  /** `str(i)` for any integer: a minus sign before the digits of `|i|`. */
  function IntToString(i: int): (r: string)
    ensures r != []
    ensures i >= 0 ==> AllDigits(r)
    ensures i < 0 ==> r[0] == '-' && AllDigits(r[1..]) && |r| >= 2
  {
    if i < 0 then "-" + NatToString(-i) else NatToString(i)
  }

  /** A non-empty digit string without a superfluous leading zero. */
  predicate CanonicalDigits(d: string) {
    d != [] && AllDigits(d) && (d[0] == '0' ==> |d| == 1)
  }

  /** The decimal text of an integer as `str` writes it: canonical digits,
      after a minus sign when the value is not zero. */
  predicate CanonicalInt(s: string) {
    CanonicalDigits(s) || (|s| >= 2 && s[0] == '-' && CanonicalDigits(s[1..]) && s[1] != '0')
  }

  /** Digits that do not start with '0' denote a positive number. */
  lemma {:induction false} LeadingNonZeroIsPositive(d: string)
    ensures d != [] && AllDigits(d) && d[0] != '0' ==> DigitsValue(d) >= 1
    decreases |d|
  {
    if |d| > 1 {
      LeadingNonZeroIsPositive(d[..|d| - 1]);
    }
  }

  /** Canonical digits are the rendering of the number they denote. */
  lemma {:induction false} CanonicalDigitsRoundTrip(d: string)
    ensures CanonicalDigits(d) ==> NatToString(DigitsValue(d)) == d
    decreases |d|
  {
    if !CanonicalDigits(d) {
    } else if |d| > 1 {
      var init := d[..|d| - 1];
      LeadingNonZeroIsPositive(init);
      CanonicalDigitsRoundTrip(init);
      var v := DigitsValue(d);
      assert v == DigitsValue(init) * 10 + DigitValue(d[|d| - 1]);
      assert v / 10 == DigitsValue(init) && v % 10 == DigitValue(d[|d| - 1]);
      assert d == init + [d[|d| - 1]];
    } else {
      assert d[..0] == [];
    }
  }

  /** Parses an optional minus sign followed by at least one decimal digit;
      any other string is not a number. Digits denote a non-negative value,
      a minus sign a value that is not positive, and a text in canonical form
      is exactly the rendering of the value it parses to. */
  function ParseInt(s: string): (r: Option<int>)
    ensures r.Some? <==> (s != [] && AllDigits(s)) || (|s| >= 2 && s[0] == '-' && AllDigits(s[1..]))
    ensures r.Some? && s[0] != '-' ==> r.value >= 0
    ensures r.Some? && s[0] == '-' ==> r.value <= 0
    ensures r.Some? && CanonicalInt(s) ==> IntToString(r.value) == s
  {
    if s != [] && AllDigits(s) then
      CanonicalDigitsRoundTrip(s);
      Some(DigitsValue(s))
    else if |s| >= 2 && s[0] == '-' && AllDigits(s[1..]) then
      var d := s[1..];
      CanonicalDigitsRoundTrip(d);
      LeadingNonZeroIsPositive(d);
      assert s == "-" + d;
      Some(0 - DigitsValue(d) as int)
    else None
  }

  /** A leading zero does not change the number a digit string denotes. */
  lemma {:induction false} LeadingZeroAddsNothing(d: string)
    ensures AllDigits(d) ==> AllDigits("0" + d) && DigitsValue("0" + d) == DigitsValue(d)
    decreases |d|
  {
    if d == [] {
      assert ("0" + d)[..0] == [];
    } else if AllDigits(d) {
      var init := d[..|d| - 1];
      LeadingZeroAddsNothing(init);
      assert ("0" + d)[..|d|] == "0" + init;
    }
  }

  /** `pd.to_numeric` ignores leading zeros: "007" reads as 7. */
  lemma ParseIntLeadingZero(d: string)
    requires d != [] && AllDigits(d)
    ensures ParseInt("0" + d) == ParseInt(d)
  {
    LeadingZeroAddsNothing(d);
  }

  /** A minus sign before digits negates the value they denote, so "-0"
      reads as 0 and "-007" as -7. */
  lemma ParseIntNegative(d: string)
    requires d != [] && AllDigits(d)
    ensures ParseInt("-" + d) == Some(-ParseInt(d).value)
  {
  }

  /** Rendering an integer and parsing it back is the identity. */
  lemma IntToStringRoundTrip(i: int)
    ensures ParseInt(IntToString(i)) == Some(i)
  {
    if i < 0 {
      NatToStringRoundTrip(-i);
      assert IntToString(i)[1..] == NatToString(-i);
    } else {
      NatToStringRoundTrip(i);
    }
  }

  /** Distinct integers render as distinct strings. */
  lemma IntToStringInjective(i: int, j: int)
    requires IntToString(i) == IntToString(j)
    ensures i == j
  {
    IntToStringRoundTrip(i);
    IntToStringRoundTrip(j);
  }
}
