/** The pieces of Python's `str` that the analyzer relies on: `strip()` and
    the ASCII decimal digits that `strptime` and `float` read. */
module Text {

  /** Python's `str.isspace()` on one character: the characters
      `str.strip()` removes when it is called without arguments. */
  predicate IsSpace(c: char)
  {
    c == ' ' || ('\t' <= c <= '\r') || ('\U{1c}' <= c <= '\U{1f}') || c == '\U{85}' || c == '\U{a0}'
    || c == '\U{1680}' || ('\U{2000}' <= c <= '\U{200a}') || ('\U{2028}' <= c <= '\U{2029}')
    || c == '\U{202f}' || c == '\U{205f}' || c == '\U{3000}'
  }

  /** Printable ASCII characters other than the blank are not white space. */
  lemma PrintableIsNotSpace(c: char)
    requires '!' <= c <= '~'
    ensures !IsSpace(c)
  {
  }

  /** The blank is white space. */
  lemma BlankIsSpace()
    ensures IsSpace(' ')
  {
  }

  predicate AllSpace(s: string)
  {
    forall i :: 0 <= i < |s| ==> IsSpace(s[i])
  }

  /** How many white-space characters `s` starts with. */
  function LeadingSpace(s: string): (n: nat)
    ensures n <= |s|
    ensures forall i :: 0 <= i < n ==> IsSpace(s[i])
    ensures n < |s| ==> !IsSpace(s[n])
  {
    if s != [] && IsSpace(s[0]) then 1 + LeadingSpace(s[1..]) else 0
  }

  /** How many white-space characters `s` ends with. */
  function TrailingSpace(s: string): (n: nat)
    ensures n <= |s|
    ensures forall i :: |s| - n <= i < |s| ==> IsSpace(s[i])
    ensures n < |s| ==> !IsSpace(s[|s| - n - 1])
  {
    if s != [] && IsSpace(s[|s| - 1]) then
      var p := s[..|s| - 1];
      assert forall i :: 0 <= i < |p| ==> p[i] == s[i];
      1 + TrailingSpace(p)
    else 0
  }

  /** `s.strip()`: `s` without its leading and trailing white space. */
  function Strip(s: string): (r: string)
    ensures |r| <= |s|
    ensures r != [] ==> !IsSpace(r[0]) && !IsSpace(r[|r| - 1])
  {
    var a := LeadingSpace(s);
    var t := s[a..];
    var b := TrailingSpace(t);
    assert |s| - b > a ==> s[|s| - b - 1] == t[|t| - b - 1];
    s[a..|s| - b]
  }

  /** What `strip()` keeps is the slice of `s` that starts after its leading
      white space, with only white space before and after it. */
  lemma StripSlice(s: string)
    ensures var r, a := Strip(s), LeadingSpace(s);
            a + |r| <= |s| && r == s[a..a + |r|] && AllSpace(s[..a]) && AllSpace(s[a + |r|..])
  {
    StripIsSlice(s);
    StripTrailing(s);
    SpaceAround(s, LeadingSpace(s), |Strip(s)|);
  }

  lemma StripIsSlice(s: string)
    ensures LeadingSpace(s) + |Strip(s)| <= |s|
    ensures Strip(s) == s[LeadingSpace(s)..LeadingSpace(s) + |Strip(s)|]
  {
  }

  lemma StripTrailing(s: string)
    ensures forall i :: LeadingSpace(s) + |Strip(s)| <= i < |s| ==> IsSpace(s[i])
  {
    var a := LeadingSpace(s);
    var t := s[a..];
    var b := TrailingSpace(t);
    assert |Strip(s)| == |s| - b - a;
    forall i | |s| - b <= i < |s| ensures IsSpace(s[i]) {
      assert s[i] == t[i - a];
    }
  }

  /** White space in front of position `a` and from `a + n` on. */
  lemma SpaceAround(s: string, a: nat, n: nat)
    requires a + n <= |s|
    requires forall i :: 0 <= i < a ==> IsSpace(s[i])
    requires forall i :: a + n <= i < |s| ==> IsSpace(s[i])
    ensures AllSpace(s[..a]) && AllSpace(s[a + n..])
  {
    var rest := s[a + n..];
    forall i | 0 <= i < |rest| ensures IsSpace(rest[i]) {
      assert rest[i] == s[a + n + i];
    }
  }

  /** Stripping yields the empty string exactly when the text is all white space. */
  lemma StripEmptyIffAllSpace(s: string)
    ensures Strip(s) == [] <==> AllSpace(s)
  {
    var a := LeadingSpace(s);
    var t := s[a..];
    var b := TrailingSpace(t);
    if Strip(s) == [] {
      assert b == |t|;
      assert a == |s|;
    } else {
      assert a < |s|;
    }
  }

  /** Leading white space in front of a text that starts with none is counted exactly. */
  lemma {:induction false} LeadingPadding(pre: string, s: string)
    requires AllSpace(pre)
    requires s != [] ==> !IsSpace(s[0])
    ensures LeadingSpace(pre + s) == |pre|
  {
    if pre != [] {
      assert (pre + s)[1..] == pre[1..] + s;
      LeadingPadding(pre[1..], s);
    } else {
      assert pre + s == s;
    }
  }

  /** Trailing white space after a text that ends with none is counted exactly. */
  lemma {:induction false} TrailingPadding(s: string, post: string)
    requires AllSpace(post)
    requires s != [] ==> !IsSpace(s[|s| - 1])
    ensures TrailingSpace(s + post) == |post|
  {
    if post != [] {
      assert (s + post)[..|s + post| - 1] == s + post[..|post| - 1];
      TrailingPadding(s, post[..|post| - 1]);
    } else {
      assert s + post == s;
    }
  }

  /** White space around a text that has none at its own ends is removed exactly. */
  lemma StripRemovesPadding(pre: string, s: string, post: string)
    requires AllSpace(pre) && AllSpace(post)
    requires s != [] ==> !IsSpace(s[0]) && !IsSpace(s[|s| - 1])
    ensures Strip(pre + s + post) == s
  {
    var u := pre + s + post;
    if s == [] {
      assert u == pre + post;
      SpaceConcat(pre, post);
      StripEmptyIffAllSpace(u);
    } else {
      assert u == pre + (s + post);
      LeadingPadding(pre, s + post);
      assert u[|pre|..] == s + post;
      TrailingPadding(s, post);
      StripLength(u);
      StripIsSlice(u);
      assert u[|pre|..|pre| + |s|] == s;
    }
  }

  lemma SpaceConcat(a: string, b: string)
    requires AllSpace(a) && AllSpace(b)
    ensures AllSpace(a + b)
  {
    forall i | 0 <= i < |a + b| ensures IsSpace((a + b)[i]) {
      if i < |a| { assert (a + b)[i] == a[i]; } else { assert (a + b)[i] == b[i - |a|]; }
    }
  }

  /** `strip()` cuts the counted white space off both ends. */
  lemma StripLength(s: string)
    ensures var a := LeadingSpace(s);
            |Strip(s)| == |s| - a - TrailingSpace(s[a..])
  {
  }

  predicate IsDigit(c: char)
  {
    '0' <= c <= '9'
  }

  predicate AllDigits(s: string)
  {
    forall i :: 0 <= i < |s| ==> IsDigit(s[i])
  }

  function DigitValue(c: char): (d: nat)
    requires IsDigit(c)
    ensures d < 10
  {
    c as int - '0' as int
  }

  function DigitChar(d: nat): (c: char)
    requires d < 10
    ensures IsDigit(c) && DigitValue(c) == d
  {
    ('0' as int + d) as char
  }

  function Pow10(n: nat): (p: nat)
    ensures p >= 1
  {
    if n == 0 then 1 else 10 * Pow10(n - 1)
  }

  /** The number a string of decimal digits denotes (leading zeros allowed). */
  function DigitsValue(s: string): (n: nat)
    requires AllDigits(s)
    ensures n < Pow10(|s|)
  {
    if s == [] then 0 else DigitsValue(s[..|s| - 1]) * 10 + DigitValue(s[|s| - 1])
  }

  /** `n` written with exactly `w` digits, zero-padded (`%0wd`, keeping the low digits). */
  function Pad(n: nat, w: nat): (s: string)
    ensures |s| == w && AllDigits(s)
  {
    if w == 0 then "" else Pad(n / 10, w - 1) + [DigitChar(n % 10)]
  }

  /** `n` written in decimal without leading zeros (`str(n)`). */
  function NatText(n: nat): (s: string)
    ensures s != [] && AllDigits(s)
  {
    if n < 10 then [DigitChar(n)] else NatText(n / 10) + [DigitChar(n % 10)]
  }

  /** Reading back a zero-padded number gives the number, when it fits the width. */
  lemma {:induction false} PadValue(n: nat, w: nat)
    requires n < Pow10(w)
    ensures DigitsValue(Pad(n, w)) == n
  {
    if w > 0 {
      var s := Pad(n, w);
      assert s[..w - 1] == Pad(n / 10, w - 1);
      PadValue(n / 10, w - 1);
    }
  }

  /** Reading back `str(n)` gives `n`. */
  lemma {:induction false} NatTextValue(n: nat)
    ensures DigitsValue(NatText(n)) == n
  {
    if n >= 10 {
      var s := NatText(n);
      assert s[..|s| - 1] == NatText(n / 10);
      NatTextValue(n / 10);
    }
  }
}
