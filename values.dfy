/** `convert_to_float` (analyzer.py:113-121): the reading's value text as a
    number, or `None` for a missing, blank or unreadable value.  Python's
    `float()` grammar is restricted to plain decimals: an optional sign,
    digits, and an optional fraction ("12", "-0.5", ".5", "5."). */
module ValueParser {
  import opened Wrappers
  import opened Text

  /** Position of the first '.' in `s`, or `|s|` when there is none. */
  function IndexOfDot(s: string): (i: nat)
    ensures i <= |s| && (i < |s| ==> s[i] == '.')
    ensures forall j :: 0 <= j < i ==> s[j] != '.'
  {
    if s == [] then 0
    else if s[0] == '.' then 0
    else 1 + IndexOfDot(s[1..])
  }

  /** The number that the digits `whole`, a '.' and the digits `frac` denote. */
  function DecimalValue(whole: string, frac: string): (x: real)
    requires AllDigits(whole) && AllDigits(frac)
    ensures x >= 0.0
  {
    DigitsValue(whole) as real + DigitsValue(frac) as real / Pow10(|frac|) as real
  }

  /** An unsigned decimal: digits, optionally a '.' and more digits, at least one digit in all. */
  function ParseUnsigned(s: string): (r: Option<real>)
    ensures r.Some? ==> r.value >= 0.0
  {
    var i := IndexOfDot(s);
    var whole := s[..i];
    var frac := if i < |s| then s[i + 1..] else "";
    if AllDigits(whole) && AllDigits(frac) && |whole| + |frac| > 0 then
      Some(DecimalValue(whole, frac))
    else None
  }

  /** `float(s)` on the decimal grammar; `None` where `float` raises. */
  function ParseDecimal(s: string): (r: Option<real>)
  {
    if s != [] && (s[0] == '+' || s[0] == '-') then
      match ParseUnsigned(s[1..])
      case Some(x) => Some(if s[0] == '-' then -x else x)
      case None => None
    else ParseUnsigned(s)
  }

  function ConvertToFloat(v: Option<string>): (r: Option<real>)
    ensures r.Some? ==> v.Some? && Strip(v.value) != []
  {
    match v
    case None => None
    case Some(s) =>
      var t := Strip(s);
      if t == [] then None else ParseDecimal(t)
  }

  /** A missing value and a value that is only white space give no number;
      anything else gives the number its trimmed text denotes, or none. */
  lemma ConvertToFloatSpec(v: Option<string>)
    ensures v.None? ==> ConvertToFloat(v).None?
    ensures v.Some? && AllSpace(v.value) ==> ConvertToFloat(v).None?
    ensures v.Some? && !AllSpace(v.value) ==> ConvertToFloat(v) == ParseDecimal(Strip(v.value))
  {
    if v.Some? {
      StripEmptyIffAllSpace(v.value);
    }
  }

  /** White space around the value text does not change the number read:
      `convert_to_float` reads its trimmed text. */
  lemma {:induction false} ConvertIgnoresPadding(pre: string, s: string, post: string)
    requires AllSpace(pre) && AllSpace(post)
    requires s != [] && !IsSpace(s[0]) && !IsSpace(s[|s| - 1])
    ensures ConvertToFloat(Some(pre + s + post)) == ParseDecimal(s)
  {
    StripRemovesPadding(pre, s, post);
  }

  lemma {:induction false} ParseNatText(m: nat)
    ensures ParseUnsigned(NatText(m)) == Some(m as real)
  {
    var d := NatText(m);
    NoDotInDigits(d);
    assert d[..|d|] == d;
    NatTextValue(m);
    assert DigitsValue("") == 0;
  }

  /** `str(n)` of an integer reads back as that integer. */
  lemma {:induction false} ParseIntegerText(n: int)
    ensures ParseDecimal(if n < 0 then "-" + NatText(-n) else NatText(n)) == Some(n as real)
  {
    var m: nat := if n < 0 then -n else n;
    var d := NatText(m);
    ParseNatText(m);
    assert IsDigit(d[0]);
    if n < 0 {
      var s := "-" + d;
      assert s[0] == '-' && s[1..] == d;
      assert ParseDecimal(s) == Some(-(m as real));
    } else {
      assert ParseDecimal(d) == ParseUnsigned(d);
    }
  }

  /** In digits, a dot and more text, the first dot is the one after the digits. */
  lemma DotAfterDigits(whole: string, frac: string)
    requires AllDigits(whole)
    ensures var s := whole + "." + frac;
            IndexOfDot(s) == |whole| && s[..|whole|] == whole && s[|whole| + 1..] == frac
  {
    var s := whole + "." + frac;
    NoDotInDigits(whole);
    IndexOfDotAt(s, |whole|);
    assert s[..|whole|] == whole;
    assert s[|whole| + 1..] == frac;
  }

  lemma ParseUnsignedSplit(whole: string, frac: string)
    requires AllDigits(whole) && AllDigits(frac) && |whole| + |frac| > 0
    ensures ParseUnsigned(whole + "." + frac)
            == Some(DecimalValue(whole, frac))
  {
    DotAfterDigits(whole, frac);
  }

  /** Digits, a dot and digits read as the whole part plus the fraction. */
  lemma ParseDecimalSplit(whole: string, frac: string)
    requires whole != [] && AllDigits(whole) && AllDigits(frac)
    ensures ParseDecimal(whole + "." + frac)
            == Some(DecimalValue(whole, frac))
  {
    var s := whole + "." + frac;
    assert s[0] == whole[0] && IsDigit(s[0]);
    assert ParseDecimal(s) == ParseUnsigned(s);
    ParseUnsignedSplit(whole, frac);
  }

  /** A number written with a fixed number of fraction digits reads back as
      that number ("52.5" is 52 + 5/10). */
  lemma ParseFixedPointText(n: nat, f: nat, w: nat)
    requires f < Pow10(w)
    ensures ParseDecimal(NatText(n) + "." + Pad(f, w)) == Some(n as real + f as real / Pow10(w) as real)
  {
    var whole, frac := NatText(n), Pad(f, w);
    ParseDecimalSplit(whole, frac);
    NatTextValue(n);
    PadValue(f, w);
    assert DecimalValue(whole, frac) == n as real + f as real / Pow10(w) as real;
  }

  lemma {:induction false} NoDotInDigits(s: string)
    requires AllDigits(s)
    ensures IndexOfDot(s) == |s|
  {
    if s != [] {
      NoDotInDigits(s[1..]);
    }
  }

  lemma {:induction false} IndexOfDotAt(s: string, k: nat)
    requires k < |s| && s[k] == '.'
    requires forall j :: 0 <= j < k ==> s[j] != '.'
    ensures IndexOfDot(s) == k
  {
    if k > 0 {
      IndexOfDotAt(s[1..], k - 1);
    }
  }

  lemma TenDigits()
    ensures AllDigits("10") && DigitsValue("10") == 10
  {
    assert "10"[..1] == "1" && "1"[..0] == "";
  }

  lemma FiftyTwoDigits()
    ensures AllDigits("52") && DigitsValue("52") == 52
  {
    assert "52"[..1] == "5" && "5"[..0] == "";
  }

  lemma OneDigit(d: string)
    requires |d| == 1 && IsDigit(d[0])
    ensures AllDigits(d) && DigitsValue(d) == DigitValue(d[0]) && Pow10(|d|) == 10
  {
    assert d[..0] == "";
  }

  lemma ParseTenExample()
    ensures ParseDecimal("10.0") == Some(10.0)
  {
    TenDigits();
    OneDigit("0");
    ParseDecimalSplit("10", "0");
    assert DecimalValue("10", "0") == 10.0;
    assert "10" + "." + "0" == "10.0";
  }

  lemma ParseFiftyTwoExample()
    ensures ParseDecimal("52.5") == Some(52.5)
  {
    FiftyTwoDigits();
    OneDigit("5");
    ParseDecimalSplit("52", "5");
    assert DecimalValue("52", "5") == 52.5;
    assert "52" + "." + "5" == "52.5";
  }

  /** The first value text of the end-to-end test data reads as its number. */
  lemma ConvertDataExample()
    ensures ConvertToFloat(Some("10.0")) == Some(10.0)
  {
    var s := "10.0";
    PrintableIsNotSpace(s[0]);
    PrintableIsNotSpace(s[|s| - 1]);
    StripRemovesPadding("", s, "");
    assert "" + s + "" == s;
    ParseTenExample();
  }

  /** White space around the value text is trimmed before it is read. */
  lemma ConvertPaddedExample()
    ensures ConvertToFloat(Some(" 52.5 ")) == Some(52.5)
  {
    var s, pad := "52.5", " ";
    assert AllSpace(pad) by { assert pad[0] == ' '; BlankIsSpace(); }
    PrintableIsNotSpace(s[0]);
    PrintableIsNotSpace(s[|s| - 1]);
    StripRemovesPadding(pad, s, pad);
    assert pad + s + pad == " 52.5 ";
    ParseFiftyTwoExample();
  }

  /** "n/a" is not a decimal. */
  lemma NotANumber()
    ensures ParseDecimal("n/a") == None
  {
    var u := "n/a";
    assert !AllDigits(u[..IndexOfDot(u)]) by {
      assert IndexOfDot(u) >= 1 by { assert u[0] != '.'; }
      assert !IsDigit(u[0]);
    }
  }

  /** Missing, empty and non-numeric value texts give no number. */
  lemma ConvertNoValueExamples()
    ensures ConvertToFloat(Some("")) == None
    ensures ConvertToFloat(Some("n/a")) == None
    ensures ConvertToFloat(None) == None
  {
    var u := "n/a";
    assert Strip(u) == u by {
      PrintableIsNotSpace(u[0]);
      PrintableIsNotSpace(u[|u| - 1]);
      assert LeadingSpace(u) == 0 && TrailingSpace(u) == 0;
      assert u[0..] == u && u[..|u|] == u;
    }
    NotANumber();
  }
}
