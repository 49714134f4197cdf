/**
 The colour values the game works with, and the colour-science library it calls.

 The program uses 32-bit floats throughout; here every component is a `real`.
 The conversions between sRGB and the other colour spaces, and the CIEDE2000
 distance, live in an external library. They are gathered into a `Palette`
 record of total functions which every operation that needs them receives as a
 parameter, so nothing below depends on how a conversion is computed.
 */
module Colour {

  /** An sRGB colour with non-linear components, nominally in [0, 1]. */
  datatype Srgb = Srgb(red: real, green: real, blue: real)

  /** The three coordinates of a colour in some other space
      (HSV: hue in positive degrees, saturation, value; HSL: hue, saturation,
      lightness; CIELAB: L, a, b; CIEXYZ: X, Y, Z; CIELCh: L, chroma, hue). */
  datatype Coords = Coords(c0: real, c1: real, c2: real)

  /** The conversions of the colour-science library, one pair per space, and the
      CIEDE2000 colour difference between two CIELAB colours. */
  datatype Palette = Palette(
    hsvToSrgb: Coords -> Srgb, srgbToHsv: Srgb -> Coords,
    hslToSrgb: Coords -> Srgb, srgbToHsl: Srgb -> Coords,
    labToSrgb: Coords -> Srgb, srgbToLab: Srgb -> Coords,
    xyzToSrgb: Coords -> Srgb, srgbToXyz: Srgb -> Coords,
    lchToSrgb: Coords -> Srgb, srgbToLch: Srgb -> Coords,
    deltaE: (Coords, Coords) -> real)

  const Black: Srgb := Srgb(0.0, 0.0, 0.0)

  /** The sum of the three channels, the brightness measure used by the target filter. */
  function ChannelSum(c: Srgb): real {
    c.red + c.green + c.blue
  }

  /** The HSV saturation of an sRGB colour, as the library computes it. */
  function HsvSaturation(pal: Palette, c: Srgb): real {
    pal.srgbToHsv(c).c1
  }

}
