/**
 The textbook formulas for HSV, HSL and sRGB, written out over the reals.

 The game itself leaves colour conversion to an external library; these
 definitions are only used to name concrete colours on which a misread lens
 can be exhibited (see `Game.HslLensMisreadsRed`). Hue is in degrees and is
 expected in [0, 360).
 */
module Textbook {

  import opened Colour

  /** The pure chroma part of a hue: the colour with chroma `c` at hue `h`,
      before the lightness offset is added. */
  function HueChroma(h: real, c: real): Srgb {
    var hp := h / 60.0;
    if hp < 1.0 then Srgb(c, c * hp, 0.0)
    else if hp < 2.0 then Srgb(c * (2.0 - hp), c, 0.0)
    else if hp < 3.0 then Srgb(0.0, c, c * (hp - 2.0))
    else if hp < 4.0 then Srgb(0.0, c * (4.0 - hp), c)
    else if hp < 5.0 then Srgb(c * (hp - 4.0), 0.0, c)
    else Srgb(c, 0.0, c * (6.0 - hp))
  }

  function Offset(c: Srgb, m: real): Srgb {
    Srgb(c.red + m, c.green + m, c.blue + m)
  }

  function Abs(x: real): real {
    if x < 0.0 then -x else x
  }

  /** HSV (hue, saturation, value) to sRGB. */
  function HsvToSrgb(x: Coords): Srgb {
    var chroma := x.c2 * x.c1;
    Offset(HueChroma(x.c0, chroma), x.c2 - chroma)
  }

  /** HSL (hue, saturation, lightness) to sRGB. */
  function HslToSrgb(x: Coords): Srgb {
    var chroma := (1.0 - Abs(2.0 * x.c2 - 1.0)) * x.c1;
    Offset(HueChroma(x.c0, chroma), x.c2 - chroma / 2.0)
  }

  function Max3(a: real, b: real, c: real): real {
    if a >= b && a >= c then a else if b >= c then b else c
  }

  function Min3(a: real, b: real, c: real): real {
    if a <= b && a <= c then a else if b <= c then b else c
  }

  /** sRGB to HSL (hue, saturation, lightness); an achromatic colour gets hue 0. */
  function SrgbToHsl(c: Srgb): Coords {
    var hi := Max3(c.red, c.green, c.blue);
    var lo := Min3(c.red, c.green, c.blue);
    var l := (hi + lo) / 2.0;
    var d := hi - lo;
    var denom := 1.0 - Abs(2.0 * l - 1.0);
    if d == 0.0 || denom == 0.0 then Coords(0.0, 0.0, l)
    else
      var sector :=
        if hi == c.red then (if c.green >= c.blue then (c.green - c.blue) / d else (c.green - c.blue) / d + 6.0)
        else if hi == c.green then (c.blue - c.red) / d + 2.0
        else (c.red - c.green) / d + 4.0;
      Coords(60.0 * sector, d / denom, l)
  }

  /** Pure red in HSL is hue 0, full saturation, half lightness. */
  lemma RedAsHsl()
    ensures SrgbToHsl(Srgb(1.0, 0.0, 0.0)) == Coords(0.0, 1.0, 0.5)
  {
    var red := Srgb(1.0, 0.0, 0.0);
    assert Max3(red.red, red.green, red.blue) == 1.0;
    assert Min3(red.red, red.green, red.blue) == 0.0;
    assert Abs(2.0 * 0.5 - 1.0) == 0.0;
  }

  /** Read as HSV, the coordinates (0, 1, 0.5) are dark red. */
  lemma HalfRedAsHsv()
    ensures HsvToSrgb(Coords(0.0, 1.0, 0.5)) == Srgb(0.5, 0.0, 0.0)
  {
    assert HueChroma(0.0, 0.5) == Srgb(0.5, 0.0, 0.0);
  }

  /** Read as HSL, the coordinates (0, 1, 0.5) are pure red. */
  lemma HalfRedAsHsl()
    ensures HslToSrgb(Coords(0.0, 1.0, 0.5)) == Srgb(1.0, 0.0, 0.0)
  {
    var x := Coords(0.0, 1.0, 0.5);
    assert 2.0 * x.c2 - 1.0 == 0.0;
    assert Abs(2.0 * x.c2 - 1.0) == 0.0;
    var chroma := (1.0 - Abs(2.0 * x.c2 - 1.0)) * x.c1;
    assert chroma == 1.0;
    assert x.c2 - chroma / 2.0 == 0.0;
    assert HueChroma(0.0, 1.0) == Srgb(1.0, 0.0, 0.0);
    assert HslToSrgb(x) == Offset(HueChroma(0.0, 1.0), 0.0);
  }

}
