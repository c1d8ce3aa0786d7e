/**
 * Character classes and string helpers shared by the modelled code:
 * Python's `str.isspace` (also the meaning of `\s` in a `str` pattern),
 * `str.strip()`, and the decimal parse of `int(s)` on strings.
 */
module PyText {
  import opened Common

  /** Python's `str.isspace()` for one character (also the regex class `\s`). */
  predicate IsSpace(c: char)
  {
    ('\U{9}' <= c <= '\U{d}') || ('\U{1c}' <= c <= '\U{20}')
    || c == '\U{85}' || c == '\U{a0}' || c == '\U{1680}'
    || ('\U{2000}' <= c <= '\U{200a}') || c == '\U{2028}' || c == '\U{2029}'
    || c == '\U{202f}' || c == '\U{205f}' || c == '\U{3000}'
  }

  /** Every character of `s` is whitespace. */
  predicate AllSpace(s: string)
  {
    forall i :: 0 <= i < |s| ==> IsSpace(s[i])
  }

  /** `s.lstrip()`: drops the leading whitespace. */
  function LStrip(s: string): (r: string)
    ensures |r| <= |s|
    ensures r == [] || !IsSpace(r[0])
  {
    if s != [] && IsSpace(s[0]) then LStrip(s[1..]) else s
  }

  /** `s.rstrip()`: drops the trailing whitespace. */
  function RStrip(s: string): (r: string)
    ensures |r| <= |s|
    ensures r == [] || !IsSpace(r[|r| - 1])
  {
    if s != [] && IsSpace(s[|s| - 1]) then RStrip(s[..|s| - 1]) else s
  }

  /** `LStrip(s)` is a suffix of `s` after whitespace only. */
  lemma {:induction false} LStripSuffix(s: string)
    ensures var n := |s| - |LStrip(s)|; LStrip(s) == s[n..] && AllSpace(s[..n])
  {
    if s != [] && IsSpace(s[0]) {
      var r := LStrip(s[1..]);
      LStripSuffix(s[1..]);
      var n := |s| - |r|;
      assert s[1..][|s[1..]| - |r|..] == s[n..];
      assert forall k | 0 <= k < n :: s[..n][k] == s[k];
      assert forall k | 1 <= k < n :: s[k] == s[1..][..|s[1..]| - |r|][k - 1];
    }
  }

  /** `RStrip(s)` is a prefix of `s` followed by whitespace only. */
  lemma {:induction false} RStripPrefix(s: string)
    ensures var n := |RStrip(s)|; RStrip(s) == s[..n] && AllSpace(s[n..])
  {
    if s != [] && IsSpace(s[|s| - 1]) {
      var init := s[..|s| - 1];
      var r := RStrip(init);
      RStripPrefix(init);
      var n := |r|;
      assert init[..n] == s[..n];
      assert forall k | n <= k < |s| - 1 :: s[k] == init[n..][k - n];
    }
  }

  /** `s.strip()`: `s` with its leading and trailing whitespace removed. */
  function Strip(s: string): (r: string)
    ensures |r| <= |s|
    ensures r == [] || (!IsSpace(r[0]) && !IsSpace(r[|r| - 1]))
  {
    RStripPrefix(LStrip(s));
    RStrip(LStrip(s))
  }

  /** `Strip(s)` is the slice of `s` between a whitespace prefix and a whitespace suffix. */
  lemma StripSlice(s: string)
    ensures var i, r := |s| - |LStrip(s)|, Strip(s);
      i + |r| <= |s| && r == s[i..i + |r|] && AllSpace(s[..i]) && AllSpace(s[i + |r|..])
  {
    var l, r := LStrip(s), Strip(s);
    var i := |s| - |l|;
    LStripSuffix(s);
    RStripPrefix(l);
    assert r == l[..|r|];
    assert s[i + |r|..] == l[|r|..];
  }

  /** `not s.strip()`: the string is empty or whitespace only. */
  predicate IsBlank(s: string)
  {
    AllSpace(s)
  }

  /** Stripping leaves nothing exactly when the string is blank. */
  lemma {:induction false} StripEmptyIffBlank(s: string)
    ensures Strip(s) == [] <==> IsBlank(s)
  {
    StripSlice(s);
    var l := LStrip(s);
    if Strip(s) == [] {
      assert s[..|s|] == s;
    } else {
      assert s[|s| - |l|] == Strip(s)[0];
    }
  }

  /** Where `Strip(s)` sits in `s`. */
  lemma StripOffset(s: string) returns (i: int)
    ensures 0 <= i && i + |Strip(s)| <= |s| && s[i..i + |Strip(s)|] == Strip(s)
  {
    var l, r := LStrip(s), Strip(s);
    i := |s| - |l|;
    LStripSuffix(s);
    RStripPrefix(l);
    assert s[i..i + |r|] == l[..|r|];
  }

  /** A string ending in a non-space strips to a non-empty suffix of itself. */
  lemma StripKeepsEnd(s: string)
    requires s != [] && !IsSpace(s[|s| - 1])
    ensures Strip(s) != [] && s[|s| - |Strip(s)|..] == Strip(s)
  {
    StripEmptyIffBlank(s);
    var l := LStrip(s);
    LStripSuffix(s);
    assert l[|l| - 1] == s[|s| - 1];
  }

  /** A string starting with a non-space strips to something non-empty. */
  lemma StripKeepsStart(s: string)
    requires s != [] && !IsSpace(s[0])
    ensures Strip(s) != []
  {
    StripEmptyIffBlank(s);
  }

  /** A stripped string strips to itself. */
  lemma StripIdempotent(s: string)
    ensures Strip(Strip(s)) == Strip(s)
  {
  }

  /** ASCII decimal digit. */
  predicate IsDigit(c: char)
  {
    '0' <= c <= '9'
  }

  /** A non-empty run of ASCII digits. */
  predicate IsDigits(d: string)
  {
    d != [] && forall i :: 0 <= i < |d| ==> IsDigit(d[i])
  }

  /** The value of a run of ASCII digits, most significant first. */
  function DigitsValue(d: string): nat
    requires forall i :: 0 <= i < |d| ==> IsDigit(d[i])
  {
    if d == [] then 0
    else
      assert IsDigit(d[|d| - 1]);
      DigitsValue(d[..|d| - 1]) * 10 + ((d[|d| - 1] as int) - ('0' as int))
  }

  /** The digits after an optional leading sign. */
  function Unsigned(t: string): (d: string)
    ensures |d| <= |t| && t[|t| - |d|..] == d
  {
    if t != [] && (t[0] == '-' || t[0] == '+') then t[1..] else t
  }

  /**
   * `int(s)` on a string: surrounding whitespace, an optional sign, then one or
   * more decimal digits; anything else raises `ValueError`, which is `None` here.
   */
  function ParseInt(s: string): (r: Option<int>)
    ensures r.Some? <==> Strip(s) != [] && IsDigits(Unsigned(Strip(s)))
    ensures r.Some? ==> !IsBlank(s)
  {
    var t := Strip(s);
    StripEmptyIffBlank(s);
    if t == [] then None
    else
      var digits := if t[0] == '-' || t[0] == '+' then t[1..] else t;
      if IsDigits(digits) then
        var n: int := DigitsValue(digits);
        Some(if t[0] == '-' then -n else n)
      else None
  }

  /** The ASCII digit for `d`. */
  function DigitChar(d: nat): (c: char)
    requires d < 10
    ensures IsDigit(c) && (c as int) - ('0' as int) == d
  {
    ('0' as int + d) as char
  }

  /** The decimal digits of `n`, most significant first, without leading zeros. */
  function Digits(n: nat): (d: string)
    ensures IsDigits(d) && DigitsValue(d) == n
  {
    if n < 10 then [DigitChar(n)]
    else
      var d := Digits(n / 10) + [DigitChar(n % 10)];
      assert d[..|d| - 1] == Digits(n / 10);
      d
  }

  /** `str(n)`: the decimal form of an integer, with a leading `-` when negative. */
  function Decimal(n: int): (d: string)
    ensures d != [] && !IsSpace(d[0]) && !IsSpace(d[|d| - 1])
  {
    if n < 0 then "-" + Digits(-n) else Digits(n)
  }

  /** Leading whitespace before a non-space start is what `lstrip` removes. */
  lemma {:induction false} LStripPadded(a: string, x: string)
    requires AllSpace(a) && (x == [] || !IsSpace(x[0]))
    ensures LStrip(a + x) == x
  {
    if a != [] {
      assert (a + x)[1..] == a[1..] + x;
      LStripPadded(a[1..], x);
    } else {
      assert a + x == x;
    }
  }

  /** Trailing whitespace after a non-space end is what `rstrip` removes. */
  lemma {:induction false} RStripPadded(x: string, b: string)
    requires AllSpace(b) && (x == [] || !IsSpace(x[|x| - 1]))
    ensures RStrip(x + b) == x
  {
    if b != [] {
      assert (x + b)[..|x + b| - 1] == x + b[..|b| - 1];
      RStripPadded(x, b[..|b| - 1]);
    } else {
      assert x + b == x;
    }
  }

  /** Whitespace around a string that starts and ends with non-spaces strips off exactly. */
  lemma StripPadded(a: string, m: string, b: string)
    requires AllSpace(a) && AllSpace(b)
    requires m != [] && !IsSpace(m[0]) && !IsSpace(m[|m| - 1])
    ensures Strip(a + m + b) == m
  {
    assert a + m + b == a + (m + b);
    LStripPadded(a, m + b);
    RStripPadded(m, b);
  }

  /** `int(str(n))` gives `n` back, whatever whitespace surrounds the digits. */
  lemma ParseDecimal(a: string, n: int, b: string)
    requires AllSpace(a) && AllSpace(b)
    ensures ParseInt(a + Decimal(n) + b) == Some(n)
  {
    var d := Decimal(n);
    StripPadded(a, d, b);
    if n < 0 {
      assert d[1..] == Digits(-n);
    }
  }
}
