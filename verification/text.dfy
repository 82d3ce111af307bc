/** Strings, bytes and the few Python string operations the bridge relies on:
    prefix and suffix tests, `str.strip()` and the decimal rendering of an `int`
    inside an f-string. */
module Text {

  /** One octet of an HTTP body or of a digest. */
  newtype byte = x: int | 0 <= x < 256

  predicate StartsWith(s: string, p: string) {
    |p| <= |s| && s[..|p|] == p
  }

  predicate EndsWith(s: string, q: string) {
    |q| <= |s| && s[|s| - |q|..] == q
  }

  /** An opening followed by an opening of what comes after it. */
  lemma StartsWithThen(s: string, a: string, b: string)
    requires StartsWith(s, a) && StartsWith(s[|a|..], b)
    ensures StartsWith(s, a + b)
  {
    assert s[..|a| + |b|] == s[..|a|] + s[|a|..][..|b|];
  }

  /** The pieces of a three-part concatenation: both openings and the ending. */
  lemma ConcatParts(a: string, b: string, c: string)
    ensures StartsWith(a + b + c, a)
    ensures StartsWith(a + b + c, a + b)
    ensures EndsWith(a + b + c, c)
    ensures |a + b + c| == |a + b| + |c|
  {
    assert (a + b + c)[..|a|] == a;
    assert (a + b + c)[..|a + b|] == a + b;
    assert (a + b + c)[|a + b|..] == c;
  }

  /** A string is fixed by a prefix and a suffix that together cover it exactly. */
  lemma {:induction false} PartsDetermine(s: string, a: string, b: string)
    requires StartsWith(s, a) && EndsWith(s, b) && |s| == |a| + |b|
    ensures s == a + b
  {
    assert s == s[..|a|] + s[|a|..];
  }

  /** The position of the first `c` in `s`, or `|s|` when there is none. */
  function IndexOf(s: string, c: char): (k: nat)
    ensures k <= |s|
    ensures forall j :: 0 <= j < k ==> s[j] != c
    ensures k < |s| ==> s[k] == c
  {
    if |s| == 0 || s[0] == c then 0 else 1 + IndexOf(s[1..], c)
  }

  /** Searching past a part that does not contain `c`. */
  lemma {:induction false} IndexOfAppend(a: string, b: string, c: char)
    requires c !in a
    ensures IndexOf(a + b, c) == |a| + IndexOf(b, c)
    decreases |a|
  {
    if |a| > 0 {
      assert (a + b)[1..] == a[1..] + b;
      IndexOfAppend(a[1..], b, c);
    } else {
      assert a + b == b;
    }
  }

  /** The characters Python's `str.isspace` accepts: what `str.strip()` removes. */
  predicate IsSpace(c: char) {
    || c == ' ' || c == '\t' || c == '\n' || c == '\r'
    || c == '\U{b}' || c == '\U{c}'
    || ('\U{1c}' <= c <= '\U{1f}')
    || c == '\U{85}' || c == '\U{a0}' || c == '\U{1680}'
    || ('\U{2000}' <= c <= '\U{200a}')
    || c == '\U{2028}' || c == '\U{2029}' || c == '\U{202f}' || c == '\U{205f}'
    || c == '\U{3000}'
  }

  /** Every character of `s` is whitespace. */
  predicate AllSpace(s: string) {
    |s| == 0 || (IsSpace(s[0]) && AllSpace(s[1..]))
  }

  /** Whitespace followed by one more whitespace character is whitespace. */
  lemma {:induction false} AllSpaceSnoc(s: string, c: char)
    requires AllSpace(s) && IsSpace(c)
    ensures AllSpace(s + [c])
  {
    if |s| > 0 {
      assert (s + [c])[1..] == s[1..] + [c];
      AllSpaceSnoc(s[1..], c);
    }
  }

  /** Whitespace without its last character is still whitespace, and that character was. */
  lemma {:induction false} AllSpaceInit(s: string)
    requires |s| > 0 && AllSpace(s)
    ensures AllSpace(s[..|s| - 1]) && IsSpace(s[|s| - 1])
  {
    if |s| > 1 {
      assert s[..|s| - 1][1..] == s[1..][..|s[1..]| - 1];
      AllSpaceInit(s[1..]);
    }
  }

  /** Python's `s.lstrip()`. */
  function StripStart(s: string): (r: string)
    ensures EndsWith(s, r)
    ensures AllSpace(s[..|s| - |r|])
    ensures r == [] || !IsSpace(r[0])
  {
    if |s| > 0 && IsSpace(s[0]) then
      var r := StripStart(s[1..]);
      StripStartStep(s, r);
      r
    else
      s
  }

  /** Python's `s.rstrip()`. */
  function StripEnd(s: string): (r: string)
    ensures StartsWith(s, r)
    ensures AllSpace(s[|r|..])
    ensures r == [] || !IsSpace(r[|r| - 1])
  {
    if |s| > 0 && IsSpace(s[|s| - 1]) then
      var r := StripEnd(s[..|s| - 1]);
      StripEndStep(s, r);
      r
    else
      s
  }

  /** One leading whitespace character more in front of what `lstrip` removes. */
  lemma StripStartStep(s: string, r: string)
    requires |s| > 0 && IsSpace(s[0])
    requires EndsWith(s[1..], r) && AllSpace(s[1..][..|s[1..]| - |r|])
    ensures EndsWith(s, r) && AllSpace(s[..|s| - |r|])
  {
    var cut := s[..|s| - |r|];
    assert cut[0] == s[0];
    assert cut[1..] == s[1..][..|s[1..]| - |r|];
    assert s[|s| - |r|..] == s[1..][|s[1..]| - |r|..];
  }

  /** One trailing whitespace character more behind what `rstrip` removes. */
  lemma StripEndStep(s: string, r: string)
    requires |s| > 0 && IsSpace(s[|s| - 1])
    requires StartsWith(s[..|s| - 1], r) && AllSpace(s[..|s| - 1][|r|..])
    ensures StartsWith(s, r) && AllSpace(s[|r|..])
  {
    assert s[|r|..] == s[..|s| - 1][|r|..] + [s[|s| - 1]];
    AllSpaceSnoc(s[..|s| - 1][|r|..], s[|s| - 1]);
    assert s[..|r|] == s[..|s| - 1][..|r|];
  }

  /** Python's `s.strip()`: the result is a slice of `s` that neither begins nor
      ends with whitespace, and everything cut off on either side is whitespace. */
  function Strip(s: string): (r: string)
    ensures r == [] || (!IsSpace(r[0]) && !IsSpace(r[|r| - 1]))
    ensures exists i :: 0 <= i <= |s| - |r| && StripsTo(s, i, r)
  {
    var t := StripStart(s);
    var r := StripEnd(t);
    TrimmedEnds(t, r);
    StripSlice(s, t, r);
    r
  }

  /** A prefix of a text that starts with a non-space, ending in a non-space, is trimmed on both sides. */
  lemma TrimmedEnds(t: string, r: string)
    requires StartsWith(t, r)
    requires t == [] || !IsSpace(t[0])
    requires r == [] || !IsSpace(r[|r| - 1])
    ensures r == [] || (!IsSpace(r[0]) && !IsSpace(r[|r| - 1]))
  {
    assert r == [] || r[0] == t[0];
  }

  /** What `rstrip` keeps of what `lstrip` kept sits in `s` between two runs of whitespace. */
  lemma StripSlice(s: string, t: string, r: string)
    requires EndsWith(s, t) && AllSpace(s[..|s| - |t|])
    requires StartsWith(t, r) && AllSpace(t[|r|..])
    ensures StripsTo(s, |s| - |t|, r)
  {
    var i := |s| - |t|;
    assert s[i..] == t;
    assert s[i..i + |r|] == r;
    assert s[i + |r|..] == t[|r|..];
  }

  /** `r` sits at offset `i` of `s`, and only whitespace surrounds it. */
  ghost predicate StripsTo(s: string, i: int, r: string) {
    && 0 <= i <= i + |r| <= |s|
    && s[i..i + |r|] == r
    && AllSpace(s[..i])
    && AllSpace(s[i + |r|..])
  }

  /** `rstrip` removes a whitespace tail and stops at the last non-space character. */
  lemma {:induction false} StripEndDropsSpace(s: string, w: string)
    requires AllSpace(w)
    requires s == [] || !IsSpace(s[|s| - 1])
    ensures StripEnd(s + w) == s
    decreases |w|
  {
    if w != [] {
      AllSpaceInit(w);
      assert (s + w)[..|s + w| - 1] == s + w[..|w| - 1];
      StripEndDropsSpace(s, w[..|w| - 1]);
    } else {
      assert s + w == s;
    }
  }

  /** Trailing whitespace is removed: stripping `s + w` when `w` is whitespace. */
  lemma StripDropsTrailingSpace(s: string, w: string)
    requires AllSpace(w)
    requires |s| > 0 && !IsSpace(s[0]) && !IsSpace(s[|s| - 1])
    ensures Strip(s + w) == s
  {
    assert (s + w)[0] == s[0];
    assert StripStart(s + w) == s + w;
    StripEndDropsSpace(s, w);
  }

  function DigitChar(d: nat): char
    requires d < 10
  {
    "0123456789"[d]
  }

  predicate IsDigit(c: char) {
    '0' <= c <= '9'
  }

  /** The decimal digits of `n`, most significant first, without leading zeros. */
  function NatToString(n: nat): (r: string)
    ensures |r| > 0
    ensures forall k :: 0 <= k < |r| ==> IsDigit(r[k])
    ensures r[0] == '0' ==> n == 0
    decreases n
  {
    if n < 10 then [DigitChar(n)] else NatToString(n / 10) + [DigitChar(n % 10)]
  }

  /** Python's `str(n)` for an integer, as an f-string renders it. */
  function IntToString(n: int): (r: string)
    ensures |r| > 0
    ensures r[0] == '-' <==> n < 0
  {
    if n < 0 then "-" + NatToString(-n) else NatToString(n)
  }

  /** The value of a string of decimal digits: the reading direction of `NatToString`. */
  function DigitsValue(s: string): nat
    requires forall k :: 0 <= k < |s| ==> IsDigit(s[k])
  {
    if |s| == 0 then 0
    else
      assert IsDigit(s[|s| - 1]);
      DigitsValue(s[..|s| - 1]) * 10 + (s[|s| - 1] as int - '0' as int)
  }

  /** Reading back the digits `NatToString` writes gives the number again. */
  lemma {:induction false} NatToStringRoundTrip(n: nat)
    ensures DigitsValue(NatToString(n)) == n
    decreases n
  {
    var r := NatToString(n);
    if n >= 10 {
      NatToStringRoundTrip(n / 10);
      assert r[..|r| - 1] == NatToString(n / 10);
    }
  }

  lemma NatToStringInjective(a: nat, b: nat)
    requires NatToString(a) == NatToString(b)
    ensures a == b
  {
    NatToStringRoundTrip(a);
    NatToStringRoundTrip(b);
  }

  /** Distinct integers render as distinct strings. */
  lemma IntToStringInjective(m: int, n: int)
    requires IntToString(m) == IntToString(n)
    ensures m == n
  {
    assert (m < 0) == (n < 0);
    if m < 0 {
      NegativeInjective(m, n);
    } else {
      NatToStringInjective(m, n);
    }
  }

  lemma NegativeInjective(m: int, n: int)
    requires m < 0 && n < 0
    requires IntToString(m) == IntToString(n)
    ensures m == n
  {
    NegativeDigits(m);
    NegativeDigits(n);
    NatToStringInjective(-m, -n);
  }

  /** After the minus sign, a negative number renders as its magnitude. */
  lemma NegativeDigits(n: int)
    requires n < 0
    ensures IntToString(n)[1..] == NatToString(-n)
  {
    assert ("-" + NatToString(-n))[1..] == NatToString(-n);
  }
}
