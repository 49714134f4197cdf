/**
 `srgb_to_css`: the CSS text `rgb(R, G, B)` the web engine hands to the page
 for a colour, each channel scaled to a byte with Rust's saturating cast.
 */
module Css {

  import opened Wrappers
  import opened Colour

  /** `(x * 255.0) as u8`. Rust's float-to-integer cast truncates toward zero
      and then saturates into [0, 255] (a NaN, which reals do not have, would
      give 0). */
  function ChannelByte(x: real): (b: nat)
    ensures b <= 255
    ensures x <= 0.0 ==> b == 0
    ensures x >= 1.0 ==> b == 255
    ensures 0.0 <= x < 1.0 ==> b as real <= x * 255.0 < b as real + 1.0
  {
    var y := x * 255.0;
    if y <= 0.0 then 0 else if y >= 255.0 then 255 else y.Floor
  }

  /** A brighter channel never gets a smaller byte. */
  lemma ChannelByteMonotonic(x: real, y: real)
    requires x <= y
    ensures ChannelByte(x) <= ChannelByte(y)
  {
  }

  /* ----- Decimal text ----- */

  predicate IsDigit(c: char) {
    '0' <= c <= '9'
  }

  predicate AllDigits(s: string) {
    forall i :: 0 <= i < |s| ==> IsDigit(s[i])
  }

  function DigitChar(d: nat): (c: char)
    requires d < 10
    ensures IsDigit(c)
  {
    (48 + d) as char
  }

  function DigitValue(c: char): (d: nat)
    requires IsDigit(c)
    ensures d < 10
  {
    c as int - 48
  }

  /** The `{}` formatting of a number: shortest decimal text, no leading zero. */
  function DecimalString(n: nat): (s: string)
    ensures 1 <= |s|
    ensures AllDigits(s)
    ensures 1 < |s| ==> s[0] != '0'
  {
    if n < 10 then [DigitChar(n)] else DecimalString(n / 10) + [DigitChar(n % 10)]
  }

  /** Reads decimal text back into a number. */
  function ParseDecimal(s: string): nat
    requires AllDigits(s)
  {
    if s == [] then 0 else ParseDecimal(s[..|s| - 1]) * 10 + DigitValue(s[|s| - 1])
  }

  lemma {:induction false} DecimalRoundTrip(n: nat)
    ensures ParseDecimal(DecimalString(n)) == n
  {
    if n >= 10 {
      var s := DecimalString(n);
      assert s[..|s| - 1] == DecimalString(n / 10);
      DecimalRoundTrip(n / 10);
    }
  }

  /** The length of the longest all-digit prefix. */
  function SpanDigits(s: string): (k: nat)
    ensures k <= |s|
    ensures AllDigits(s[..k])
    ensures k < |s| ==> !IsDigit(s[k])
  {
    if s == [] || !IsDigit(s[0]) then 0 else 1 + SpanDigits(s[1..])
  }

  /** Reads a number at the front of the text, in the `{}` form only: `None`
      when no digit is there or the digits start with a redundant `0`. */
  function ReadNumber(s: string): Option<(nat, string)> {
    var k := SpanDigits(s);
    if k == 0 || (k > 1 && s[0] == '0') then None else Some((ParseDecimal(s[..k]), s[k..]))
  }

  lemma {:induction false} SpanOfDecimal(d: string, rest: string)
    requires AllDigits(d)
    requires rest == [] || !IsDigit(rest[0])
    ensures SpanDigits(d + rest) == |d|
  {
    if d != [] {
      assert (d + rest)[1..] == d[1..] + rest;
      SpanOfDecimal(d[1..], rest);
    }
  }

  lemma ReadNumberOf(n: nat, rest: string)
    requires rest == [] || !IsDigit(rest[0])
    ensures ReadNumber(DecimalString(n) + rest) == Some((n, rest))
  {
    var d := DecimalString(n);
    SpanOfDecimal(d, rest);
    assert (d + rest)[..|d|] == d;
    assert (d + rest)[|d|..] == rest;
    DecimalRoundTrip(n);
  }

  /** Digits without a leading zero stand for a positive number. */
  lemma {:induction false} ParseDecimalPositive(d: string)
    requires AllDigits(d) && 1 <= |d| && d[0] != '0'
    ensures 1 <= ParseDecimal(d)
  {
    if 1 < |d| {
      ParseDecimalPositive(d[..|d| - 1]);
    }
  }

  /** Digits in the `{}` form are the formatting of the number they stand for. */
  lemma {:induction false} DecimalOfParse(d: string)
    requires AllDigits(d) && 1 <= |d| && (1 < |d| ==> d[0] != '0')
    ensures DecimalString(ParseDecimal(d)) == d
  {
    var last := d[|d| - 1];
    if |d| == 1 {
      assert DigitChar(DigitValue(last)) == last;
      assert d == [last];
    } else {
      var init := d[..|d| - 1];
      var n := ParseDecimal(d);
      ParseDecimalPositive(init);
      DecimalOfParse(init);
      assert n / 10 == ParseDecimal(init) && n % 10 == DigitValue(last);
      assert DigitChar(DigitValue(last)) == last;
      assert d == init + [last];
    }
  }

  /** What `ReadNumber` accepts is exactly a formatted number followed by
      text that does not start with a digit. */
  lemma ReadNumberCanonical(s: string)
    requires ReadNumber(s).Some?
    ensures var (n, rest) := ReadNumber(s).value;
      s == DecimalString(n) + rest && (rest == [] || !IsDigit(rest[0]))
  {
    var k := SpanDigits(s);
    DecimalOfParse(s[..k]);
    assert s == s[..k] + s[k..];
  }

  /* ----- CSS colour text ----- */

  /** The `rgb({}, {}, {})` format string. */
  function CssText(r: nat, g: nat, b: nat): string {
    "rgb(" + DecimalString(r) + ", " + DecimalString(g) + ", " + DecimalString(b) + ")"
  }

  /** `srgb_to_css`. */
  function SrgbToCss(c: Srgb): (s: string)
    ensures 12 <= |s|
    ensures s[..4] == "rgb(" && s[|s| - 1] == ')'
  {
    CssText(ChannelByte(c.red), ChannelByte(c.green), ChannelByte(c.blue))
  }

  /** Strips an expected literal from the front of the text, then reads a number. */
  function ReadField(lit: string, s: string): Option<(nat, string)> {
    if |lit| <= |s| && s[..|lit|] == lit then ReadNumber(s[|lit|..]) else None
  }

  lemma ReadFieldOf(lit: string, n: nat, rest: string)
    requires rest == [] || !IsDigit(rest[0])
    ensures ReadField(lit, lit + DecimalString(n) + rest) == Some((n, rest))
  {
    var s := lit + DecimalString(n) + rest;
    assert s[..|lit|] == lit;
    assert s[|lit|..] == DecimalString(n) + rest;
    ReadNumberOf(n, rest);
  }

  /** Reads `rgb(R, G, B)` text back into its three numbers. */
  function ParseCss(s: string): Option<(nat, nat, nat)> {
    match ReadField("rgb(", s)
    case None => None
    case Some((r, s1)) =>
      match ReadField(", ", s1)
      case None => None
      case Some((g, s2)) =>
        match ReadField(", ", s2)
        case None => None
        case Some((b, s3)) => if s3 == ")" then Some((r, g, b)) else None
  }

  /** What `ReadField` accepts is the literal, a formatted number, and text
      that does not start with a digit. */
  lemma ReadFieldCanonical(lit: string, s: string)
    requires ReadField(lit, s).Some?
    ensures var (n, rest) := ReadField(lit, s).value;
      s == lit + DecimalString(n) + rest && (rest == [] || !IsDigit(rest[0]))
  {
    ReadNumberCanonical(s[|lit|..]);
    assert s == s[..|lit|] + s[|lit|..];
  }

  /** The other direction: text that parses is exactly the formatted text
      of the three numbers it parses to. */
  lemma ParseCssCanonical(s: string)
    requires ParseCss(s).Some?
    ensures var (r, g, b) := ParseCss(s).value; s == CssText(r, g, b)
  {
    var (r, s1) := ReadField("rgb(", s).value;
    var (g, s2) := ReadField(", ", s1).value;
    var (b, s3) := ReadField(", ", s2).value;
    ReadFieldCanonical("rgb(", s);
    ReadFieldCanonical(", ", s1);
    ReadFieldCanonical(", ", s2);
    assert ParseCss(s) == Some((r, g, b)) && s3 == ")";
    var dr, dg, db := DecimalString(r), DecimalString(g), DecimalString(b);
    assert s2 == ", " + db + ")";
    assert s1 == ", " + dg + s2;
    assert s == "rgb(" + dr + s1;
    assert CssText(r, g, b) == "rgb(" + dr + ", " + dg + ", " + db + ")";
    Regroup("rgb(", dr, ", ", dg, ", ", db, ")");
  }

  /** Concatenation regrouped to the right. */
  lemma Regroup(a: string, b: string, c: string, d: string, e: string, f: string, g: string)
    ensures a + b + c + d + e + f + g == a + b + (c + d + (e + f + g))
  {
    assert a + b + c + d + e + f + g == (a + b) + (c + d) + (e + f + g);
  }

  lemma CssTextRoundTrip(r: nat, g: nat, b: nat)
    ensures ParseCss(CssText(r, g, b)) == Some((r, g, b))
  {
    var tail2 := ", " + DecimalString(b) + ")";
    var tail1 := ", " + DecimalString(g) + tail2;
    assert CssText(r, g, b) == "rgb(" + DecimalString(r) + tail1;
    ReadFieldOf("rgb(", r, tail1);
    ReadFieldOf(", ", g, tail2);
    ReadFieldOf(", ", b, ")");
  }

  /** The CSS text carries exactly the three channel bytes, in order. */
  lemma CssRoundTrip(c: Srgb)
    ensures ParseCss(SrgbToCss(c)) == Some((ChannelByte(c.red), ChannelByte(c.green), ChannelByte(c.blue)))
  {
    CssTextRoundTrip(ChannelByte(c.red), ChannelByte(c.green), ChannelByte(c.blue));
  }

  /** The printed text is the only text that parses to the colour's bytes,
      so the bytes pin the text down. */
  lemma CssTextUnique(c: Srgb, s: string)
    requires ParseCss(s) == Some((ChannelByte(c.red), ChannelByte(c.green), ChannelByte(c.blue)))
    ensures s == SrgbToCss(c)
  {
    ParseCssCanonical(s);
  }

  /** Black is written `rgb(0, 0, 0)`. */
  lemma BlackCss()
    ensures SrgbToCss(Black) == "rgb(0, 0, 0)"
  {
  }

}
