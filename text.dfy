/** String helpers that stand for the Python built-ins the core uses:
    `str.strip`, `str.rstrip`, `str.split`, `" ".join` and the decimal rendering of `int`. */
module Text {
  import opened Wrappers

  /** The characters for which Python's `str.isspace()` holds; `strip()` and `rstrip()` without
      arguments remove exactly these. */
  predicate IsSpace(c: char) {
    || c == ' '
    || '\t' <= c <= '\r'
    || '\U{001C}' <= c <= '\U{001F}'
    || c == '\U{0085}' || c == '\U{00A0}' || c == '\U{1680}'
    || '\U{2000}' <= c <= '\U{200A}'
    || c == '\U{2028}' || c == '\U{2029}' || c == '\U{202F}' || c == '\U{205F}' || c == '\U{3000}'
  }

  /** `s.rstrip()`: `s` with its trailing whitespace removed. */
  function RStrip(s: string): (r: string)
    ensures r <= s && (r == [] || !IsSpace(r[|r| - 1]))
  {
    if |s| > 0 && IsSpace(s[|s| - 1]) then RStrip(s[..|s| - 1]) else s
  }

  /** `s.lstrip()`: `s` with its leading whitespace removed. */
  function LStrip(s: string): (r: string)
    ensures |r| <= |s|
  {
    if |s| > 0 && IsSpace(s[0]) then LStrip(s[1..]) else s
  }

  /** `s.strip()`: `s` without leading and trailing whitespace. */
  function Strip(s: string): (r: string)
    ensures |r| <= |s|
    ensures r == [] || (!IsSpace(r[0]) && !IsSpace(r[|r| - 1]))
  {
    StripEnds(s);
    LStrip(RStrip(s))
  }

  /** `rstrip` keeps the longest prefix that does not end in whitespace: everything it cuts off
      is whitespace. */
  lemma {:induction false} RStripMeaning(s: string)
    ensures var r := RStrip(s);
      && r == s[..|r|] && (r == [] || !IsSpace(r[|r| - 1]))
      && forall i :: |r| <= i < |s| ==> IsSpace(s[i])
    decreases |s|
  {
    if |s| > 0 && IsSpace(s[|s| - 1]) {
      var t := s[..|s| - 1];
      RStripMeaning(t);
      assert forall i :: 0 <= i < |t| ==> t[i] == s[i];
    }
  }

  /** `lstrip` keeps the longest suffix that does not start with whitespace. */
  lemma {:induction false} LStripMeaning(s: string)
    ensures var r := LStrip(s);
      && r == s[|s| - |r|..] && (r == [] || !IsSpace(r[0]))
      && forall i :: 0 <= i < |s| - |r| ==> IsSpace(s[i])
    decreases |s|
  {
    if |s| > 0 && IsSpace(s[0]) {
      var t := s[1..];
      LStripMeaning(t);
      assert forall i :: 0 <= i < |t| ==> t[i] == s[i + 1];
    }
  }

  /** `strip` removes exactly the whitespace at both ends: the result is a slice `s[a..a + |r|]`
      with whitespace before and after it, and no whitespace at either of its own ends. */
  lemma StripMeaning(s: string)
    ensures var r, a := Strip(s), |RStrip(s)| - |Strip(s)|;
      && (r == [] || (!IsSpace(r[0]) && !IsSpace(r[|r| - 1])))
      && 0 <= a && a + |r| <= |s| && s[a..a + |r|] == r
      && (forall i :: 0 <= i < a ==> IsSpace(s[i]))
      && (forall i :: a + |r| <= i < |s| ==> IsSpace(s[i]))
  {
    StripEnds(s);
    StripSlice(s);
  }

  /** Neither end of the result of `lstrip` after `rstrip` is whitespace. */
  lemma StripEnds(s: string)
    ensures var r := LStrip(RStrip(s)); r == [] || (!IsSpace(r[0]) && !IsSpace(r[|r| - 1]))
  {
    var t := RStrip(s);
    RStripMeaning(s);
    LStripMeaning(t);
    var r := LStrip(t);
    if r != [] {
      assert r[|r| - 1] == t[|t| - 1];
    }
  }

  /** The result of `strip` is the slice between the leading and the trailing whitespace. */
  lemma StripSlice(s: string)
    ensures var r, a := Strip(s), |RStrip(s)| - |Strip(s)|;
      && 0 <= a && a + |r| <= |s| && s[a..a + |r|] == r
      && (forall i :: 0 <= i < a ==> IsSpace(s[i]))
      && (forall i :: a + |r| <= i < |s| ==> IsSpace(s[i]))
  {
    var t := RStrip(s);
    RStripMeaning(s);
    LStripMeaning(t);
    var r := LStrip(t);
    var a := |t| - |r|;
    assert s[a..a + |r|] == r by {
      assert s[..|t|] == t;
      assert s[a..|t|] == t[a..];
    }
    assert forall i :: 0 <= i < a ==> s[i] == t[i];
  }

  /** Every character `strip` keeps comes from its input. */
  lemma StripChars(s: string)
    ensures forall c :: c in Strip(s) ==> c in s
  {
    StripMeaning(s);
    var r, a := Strip(s), |RStrip(s)| - |Strip(s)|;
    forall c | c in r
      ensures c in s
    {
      var j :| 0 <= j < |r| && r[j] == c;
      assert s[a + j] == c;
    }
  }

  /** Stripping whitespace from a string that has none at either end changes nothing. */
  lemma StripClean(s: string)
    requires s == [] || (!IsSpace(s[0]) && !IsSpace(s[|s| - 1]))
    ensures Strip(s) == s
  {
    assert RStrip(s) == s;
  }

  /** Index of the first occurrence of `c` in `s`. */
  function IndexOf(s: string, c: char): (r: nat)
    requires c in s
    ensures r < |s| && s[r] == c
    ensures forall j :: 0 <= j < r ==> s[j] != c
  {
    if s[0] == c then 0 else 1 + IndexOf(s[1..], c)
  }

  /** `s.split("/")[-1]`: what follows the last `/`, or all of `s` when it has none. */
  function LastSegment(s: string): (r: string)
    ensures '/' !in r
    ensures |r| <= |s| && r == s[|s| - |r|..]
    ensures r == s || s[|s| - |r| - 1] == '/'
    decreases |s|
  {
    if '/' !in s then s else LastSegment(s[IndexOf(s, '/') + 1..])
  }

  /** `sep.join(parts)`. */
  function Join(parts: seq<string>, sep: string): (r: string)
    ensures parts == [] ==> r == []
    ensures |parts| == 1 ==> r == parts[0]
  {
    if parts == [] then []
    else if |parts| == 1 then parts[0]
    else parts[0] + sep + Join(parts[1..], sep)
  }

  predicate IsDigit(c: char) { '0' <= c <= '9' }

  function DigitChar(d: nat): (c: char)
    requires d < 10
    ensures IsDigit(c) && DigitValue(c) == d
  {
    ('0' as int + d) as char
  }

  function DigitValue(c: char): (d: nat)
    requires IsDigit(c)
    ensures d < 10
  {
    (c as int - '0' as int) as nat
  }

  /** The number a string of decimal digits denotes (the reading direction of `int(...)`). */
  function DigitsValue(s: string): nat
    requires forall i :: 0 <= i < |s| ==> IsDigit(s[i])
  {
    if s == [] then 0 else DigitsValue(s[..|s| - 1]) * 10 + DigitValue(s[|s| - 1])
  }

  /** `str(n)` for a natural number: non-empty, all digits, no leading zero, and it reads back as `n`. */
  function NatToString(n: nat): (r: string)
    ensures |r| > 0
    ensures forall i :: 0 <= i < |r| ==> IsDigit(r[i])
    ensures r[0] != '0' || r == "0"
    ensures DigitsValue(r) == n
  {
    if n < 10 then [DigitChar(n)]
    else
      var r := NatToString(n / 10) + [DigitChar(n % 10)];
      assert r[..|r| - 1] == NatToString(n / 10);
      assert n == (n / 10) * 10 + n % 10;
      r
  }

  /** `str(i)` for a Python `int`. */
  function IntToString(i: int): (r: string)
    ensures |r| > 0
    ensures i < 0 <==> r[0] == '-'
  {
    if i < 0 then "-" + NatToString(-i) else NatToString(i)
  }

  /** Reads a rendered integer back; `None` for anything `IntToString` does not produce. */
  function ParseInt(s: string): Option<int> {
    if |s| > 0 && s[0] == '-' then
      var t := s[1..];
      if |t| > 0 && forall i :: 0 <= i < |t| ==> IsDigit(t[i]) then Some(-(DigitsValue(t) as int))
      else None
    else if |s| > 0 && forall i :: 0 <= i < |s| ==> IsDigit(s[i]) then Some(DigitsValue(s) as int)
    else None
  }

  /** Rendering an integer loses nothing: it parses back to itself. */
  lemma IntRoundTrip(i: int)
    ensures ParseInt(IntToString(i)) == Some(i)
  {
    if i < 0 {
      assert IntToString(i)[1..] == NatToString(-i);
    }
  }

  /** Different integers render differently. */
  lemma IntToStringInjective(a: int, b: int)
    requires IntToString(a) == IntToString(b)
    ensures a == b
  {
    IntRoundTrip(a);
    IntRoundTrip(b);
  }
}
