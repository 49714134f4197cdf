/**
 The game rules of `src/game.rs`: sliders, the target filter, rejection
 sampling of the target, and the colour choosers that turn an sRGB colour into
 three named sliders and back.
 */
module Game {

  import opened Wrappers
  import opened Colour
  import Textbook

  /** A named, bounded slider. `Slider::new_linear` is this constructor: it
      stores the value as given and never clamps it into [min, max]. */
  datatype Slider = Slider(name: string, value: real, min: real, max: real)

  /* ----- Target filter ----- */

  /** Why a colour is never offered as a target. */
  datatype ExcludeReason = TooDark | TooBright | LowSaturation | HighSaturation

  /** The `Display` text of a reason. */
  function ReasonText(r: ExcludeReason): string {
    match r
    case TooDark => "Too dark"
    case TooBright => "Too bright"
    case LowSaturation => "Low saturation"
    case HighSaturation => "High saturation"
  }

  /** The four reasons print as four different strings. */
  lemma ReasonTextDistinct(a: ExcludeReason, b: ExcludeReason)
    ensures ReasonText(a) == ReasonText(b) <==> a == b
  {
  }

  /** The thresholds. In the program these are f32 products (`0.08 * 3.`,
      `0.92 * 3.`), here exact reals. */
  const DarkLimit: real := 0.08 * 3.0
  const BrightLimit: real := 0.92 * 3.0
  const MinSaturation: real := 0.15
  const MaxSaturation: real := 0.9

  /** Neither too dark nor too bright; both bounds included. */
  predicate InBrightnessBand(c: Srgb) {
    DarkLimit <= ChannelSum(c) <= BrightLimit
  }

  /** A colour the game may offer as a target. */
  predicate Presentable(pal: Palette, c: Srgb) {
    InBrightnessBand(c) && MinSaturation <= HsvSaturation(pal, c) <= MaxSaturation
  }

  /** The target filter: brightness is checked before saturation, too dark
      before too bright, and the bounds are strict, so a channel sum of exactly
      0.24 or 2.76 goes on to the saturation tests. */
  function IsExcluded(pal: Palette, c: Srgb): (r: Option<ExcludeReason>)
    ensures r == Some(TooDark) <==> ChannelSum(c) < DarkLimit
    ensures r == Some(TooBright) <==> BrightLimit < ChannelSum(c)
    ensures r == Some(LowSaturation) <==> InBrightnessBand(c) && HsvSaturation(pal, c) < MinSaturation
    ensures r == Some(HighSaturation) <==> InBrightnessBand(c) && MaxSaturation < HsvSaturation(pal, c)
    ensures r == None <==> Presentable(pal, c)
  {
    if c.blue + c.green + c.red < 0.08 * 3.0 then Some(TooDark)
    else if c.blue + c.green + c.red > 0.92 * 3.0 then Some(TooBright)
    else
      var saturation := pal.srgbToHsv(c).c1;
      if saturation < 0.15 then Some(LowSaturation)
      else if saturation > 0.9 then Some(HighSaturation)
      else None
  }

  /* ----- Target generation ----- */

  datatype ColorChallenge = ColorChallenge(target: Srgb)

  /** The result of sampling: the challenge and how many three-value draws
      were taken from the random stream (the last one being the target). */
  datatype Drawn = Drawn(challenge: ColorChallenge, attempts: nat)

  /** The k-th draw: red, green and blue are taken from the stream in that order. */
  function Draw(rng: seq<real>, k: nat): Srgb
    requires 3 * k + 3 <= |rng|
  {
    Srgb(rng[3 * k], rng[3 * k + 1], rng[3 * k + 2])
  }

  /** Rejection sampling from draw `k` on. `rng` is the finite part of the
      random stream that is available; `None` means every complete draw in it
      was excluded (the program would keep drawing). */
  function SampleFrom(pal: Palette, rng: seq<real>, k: nat): (r: Option<Drawn>)
    decreases |rng| - 3 * k
    ensures r.Some? ==> k < r.value.attempts && 3 * r.value.attempts <= |rng|
    ensures r.Some? ==> r.value.challenge.target == Draw(rng, r.value.attempts - 1)
    ensures r.Some? ==> IsExcluded(pal, r.value.challenge.target) == None
    ensures r.Some? ==> forall j :: k <= j < r.value.attempts - 1 ==> IsExcluded(pal, Draw(rng, j)).Some?
    ensures r.None? <==> forall j: nat :: k <= j && 3 * j + 3 <= |rng| ==> IsExcluded(pal, Draw(rng, j)).Some?
  {
    if |rng| < 3 * k + 3 then None
    else
      var target := Draw(rng, k);
      if IsExcluded(pal, target).Some? then SampleFrom(pal, rng, k + 1)
      else Some(Drawn(ColorChallenge(target), k + 1))
  }

  /** `ColorChallenge::new`: the first draw of the stream that the filter lets
      through becomes the target; every earlier draw was excluded. */
  function NewChallenge(pal: Palette, rng: seq<real>): (r: Option<Drawn>)
    ensures r.Some? ==> Presentable(pal, r.value.challenge.target)
    ensures r.Some? ==> 0 < r.value.attempts && 3 * r.value.attempts <= |rng|
    ensures r.Some? ==> r.value.challenge.target == Draw(rng, r.value.attempts - 1)
    ensures r.Some? ==> forall j :: 0 <= j < r.value.attempts - 1 ==> !Presentable(pal, Draw(rng, j))
    ensures r.None? <==> forall j: nat :: 3 * j + 3 <= |rng| ==> !Presentable(pal, Draw(rng, j))
  {
    SampleFrom(pal, rng, 0)
  }

  /* ----- Colour choosers ----- */

  /** The six colour choosers. */
  datatype Chooser = RgbChooser | HsvChooser | HslChooser | LabChooser | XyzChooser | LchChooser

  predicate DistinctNames(s: seq<Slider>) {
    forall i, j :: 0 <= i < j < |s| ==> s[i].name != s[j].name
  }

  /** Same length, and position by position the same name, min and max. */
  predicate SameShape(a: seq<Slider>, b: seq<Slider>) {
    |a| == |b| &&
    forall i :: 0 <= i < |a| ==> a[i].name == b[i].name && a[i].min == b[i].min && a[i].max == b[i].max
  }

  /** A chooser's default sliders: three sliders, distinct names, every
      default inside its bounds. */
  function InitSliders(ch: Chooser): (r: seq<Slider>)
    ensures |r| == 3
    ensures DistinctNames(r)
    ensures forall i :: 0 <= i < |r| ==> r[i].min < r[i].max
    ensures forall i :: 0 <= i < |r| ==> r[i].min <= r[i].value <= r[i].max
  {
    match ch
    case RgbChooser => [Slider("R", 0.5, 0.0, 1.0), Slider("G", 0.5, 0.0, 1.0), Slider("B", 0.5, 0.0, 1.0)]
    case HsvChooser => [Slider("H", 180.0, 0.0, 360.0), Slider("S", 0.5, 0.0, 1.0), Slider("V", 0.5, 0.0, 1.0)]
    case HslChooser => [Slider("H", 180.0, 0.0, 360.0), Slider("S", 0.5, 0.0, 1.0), Slider("L", 0.5, 0.0, 1.0)]
    case LabChooser => [Slider("L", 50.0, 0.0, 100.0), Slider("a", 64.0, -128.0, 128.0), Slider("b", 64.0, -128.0, 128.0)]
    case XyzChooser => [Slider("x", 0.5, 0.0, 1.0), Slider("y", 0.5, 0.0, 1.0), Slider("z", 0.5, 0.0, 1.0)]
    case LchChooser => [Slider("L", 50.0, 0.0, 100.0), Slider("C", 64.0, 0.0, 128.0), Slider("H", 180.0, 0.0, 360.0)]
  }

  /** A slider vector shaped like the chooser's defaults. */
  predicate Conforms(s: seq<Slider>, ch: Chooser) {
    SameShape(s, InitSliders(ch))
  }

  /** The values of the first three sliders, the only part a chooser reads. */
  function Values(s: seq<Slider>): Coords
    requires |s| >= 3
  {
    Coords(s[0].value, s[1].value, s[2].value)
  }

  /** The library's conversion from sRGB into the chooser's space (the RGB
      chooser copies the channels). */
  function ToCoords(pal: Palette, ch: Chooser, c: Srgb): Coords {
    match ch
    case RgbChooser => Coords(c.red, c.green, c.blue)
    case HsvChooser => pal.srgbToHsv(c)
    case HslChooser => pal.srgbToHsl(c)
    case LabChooser => pal.srgbToLab(c)
    case XyzChooser => pal.srgbToXyz(c)
    case LchChooser => pal.srgbToLch(c)
  }

  /** The library's conversion from the chooser's space back to sRGB. */
  function ToSrgb(pal: Palette, ch: Chooser, x: Coords): Srgb {
    match ch
    case RgbChooser => Srgb(x.c0, x.c1, x.c2)
    case HsvChooser => pal.hsvToSrgb(x)
    case HslChooser => pal.hslToSrgb(x)
    case LabChooser => pal.labToSrgb(x)
    case XyzChooser => pal.xyzToSrgb(x)
    case LchChooser => pal.lchToSrgb(x)
  }

  /** `from_srgb`: the colour's coordinates in the chooser's space, on
      sliders shaped like the chooser's defaults. Values are not clamped. */
  function FromSrgb(pal: Palette, ch: Chooser, c: Srgb): (r: seq<Slider>)
    ensures Conforms(r, ch)
    ensures Values(r) == ToCoords(pal, ch, c)
  {
    match ch
    case RgbChooser =>
      [Slider("R", c.red, 0.0, 1.0), Slider("G", c.green, 0.0, 1.0), Slider("B", c.blue, 0.0, 1.0)]
    case HsvChooser =>
      var hsv := pal.srgbToHsv(c);
      [Slider("H", hsv.c0, 0.0, 360.0), Slider("S", hsv.c1, 0.0, 1.0), Slider("V", hsv.c2, 0.0, 1.0)]
    case HslChooser =>
      var hsl := pal.srgbToHsl(c);
      [Slider("H", hsl.c0, 0.0, 360.0), Slider("S", hsl.c1, 0.0, 1.0), Slider("L", hsl.c2, 0.0, 1.0)]
    case LabChooser =>
      var lab := pal.srgbToLab(c);
      [Slider("L", lab.c0, 0.0, 100.0), Slider("a", lab.c1, -128.0, 128.0), Slider("b", lab.c2, -128.0, 128.0)]
    case XyzChooser =>
      var xyz := pal.srgbToXyz(c);
      [Slider("x", xyz.c0, 0.0, 1.0), Slider("y", xyz.c1, 0.0, 1.0), Slider("z", xyz.c2, 0.0, 1.0)]
    case LchChooser =>
      var lch := pal.srgbToLch(c);
      [Slider("L", lch.c0, 0.0, 100.0), Slider("C", lch.c1, 0.0, 128.0), Slider("H", lch.c2, 0.0, 360.0)]
  }

  /** The conversion `as_srgb` applies to the three slider values: the
      library's way back from the chooser's space, except that the HSL
      chooser builds an `Hsv` from its hue, saturation and lightness and so
      goes back through the HSV conversion. */
  function ReadCoords(pal: Palette, ch: Chooser, x: Coords): Srgb {
    if ch == HslChooser then pal.hsvToSrgb(x) else ToSrgb(pal, ch, x)
  }

  /** `as_srgb`, as the program writes it: the first three slider values read
      through `ReadCoords`. Fewer than three sliders is an index panic in the
      program, hence the precondition. Every chooser but HSL reads its sliders
      in its own space; the HSL chooser reads them as HSV. */
  function AsSrgb(pal: Palette, ch: Chooser, s: seq<Slider>): (r: Srgb)
    requires |s| >= 3
    ensures ch != HslChooser ==> r == AsSrgbCorrected(pal, ch, s)
    ensures ch == HslChooser ==> r == pal.hsvToSrgb(Values(s))
  {
    ReadCoords(pal, ch, Values(s))
  }

  /** `as_srgb` as evidently intended: every chooser, HSL included, reads its
      sliders in its own space. Sliders made by `from_srgb` give back the
      colour whenever the library's own conversion pair for the space does. */
  function AsSrgbCorrected(pal: Palette, ch: Chooser, s: seq<Slider>): (r: Srgb)
    requires |s| >= 3
    ensures forall c :: s == FromSrgb(pal, ch, c) && ToSrgb(pal, ch, ToCoords(pal, ch, c)) == c ==> r == c
  {
    ToSrgb(pal, ch, Values(s))
  }

  /** The RGB chooser round-trips exactly, whatever the library does:
      a colour survives `from_srgb` then `as_srgb`, even outside [0, 1]. */
  lemma RgbRoundTrip(pal: Palette, c: Srgb)
    ensures AsSrgb(pal, RgbChooser, FromSrgb(pal, RgbChooser, c)) == c
    ensures FromSrgb(pal, RgbChooser, c)[0].value == c.red
  {
  }

  /** The other direction: RGB sliders of the right shape are rebuilt unchanged. */
  lemma RgbSlidersRoundTrip(pal: Palette, s: seq<Slider>)
    requires Conforms(s, RgbChooser)
    ensures FromSrgb(pal, RgbChooser, AsSrgb(pal, RgbChooser, s)) == s
  {
    var r := FromSrgb(pal, RgbChooser, AsSrgb(pal, RgbChooser, s));
    assert forall i :: 0 <= i < 3 ==> r[i] == s[i];
  }

  /** With the corrected reading, every chooser round-trips a colour exactly
      when the library's own pair of conversions for its space does. */
  lemma RoundTripWhenPaletteInverts(pal: Palette, ch: Chooser, c: Srgb)
    requires ToSrgb(pal, ch, ToCoords(pal, ch, c)) == c
    ensures AsSrgbCorrected(pal, ch, FromSrgb(pal, ch, c)) == c
  {
  }

  /** As written, a chooser round-trips a colour when reading the colour's
      coordinates back through `ReadCoords` gives the colour; for HSL that is
      the HSV conversion applied to the HSL coordinates. */
  lemma RoundTripWhenReadInverts(pal: Palette, ch: Chooser, c: Srgb)
    requires ReadCoords(pal, ch, ToCoords(pal, ch, c)) == c
    ensures AsSrgb(pal, ch, FromSrgb(pal, ch, c)) == c
  {
  }

  /** The HSL chooser misreads its own output: pure red becomes
      HSL (0, 1, 0.5), which read as HSV is dark red (0.5, 0, 0); read as HSL
      it is red again. The requirements are the library's values at these
      three points; they are the textbook values (`Textbook.RedAsHsl`,
      `Textbook.HalfRedAsHsv`, `Textbook.HalfRedAsHsl`). */
  lemma HslLensMisreadsRed(pal: Palette)
    requires pal.srgbToHsl(Srgb(1.0, 0.0, 0.0)) == Coords(0.0, 1.0, 0.5)
    requires pal.hsvToSrgb(Coords(0.0, 1.0, 0.5)) == Srgb(0.5, 0.0, 0.0)
    requires pal.hslToSrgb(Coords(0.0, 1.0, 0.5)) == Srgb(1.0, 0.0, 0.0)
    ensures AsSrgb(pal, HslChooser, FromSrgb(pal, HslChooser, Srgb(1.0, 0.0, 0.0))) == Srgb(0.5, 0.0, 0.0)
    ensures AsSrgbCorrected(pal, HslChooser, FromSrgb(pal, HslChooser, Srgb(1.0, 0.0, 0.0))) == Srgb(1.0, 0.0, 0.0)
  {
    assert Values(FromSrgb(pal, HslChooser, Srgb(1.0, 0.0, 0.0))) == Coords(0.0, 1.0, 0.5);
  }

  /** The same discrepancy for a library that follows the textbook formulas at
      these points. */
  lemma TextbookHslLensMisreadsRed(pal: Palette)
    requires pal.srgbToHsl == Textbook.SrgbToHsl
    requires pal.hsvToSrgb == Textbook.HsvToSrgb
    requires pal.hslToSrgb == Textbook.HslToSrgb
    ensures AsSrgb(pal, HslChooser, FromSrgb(pal, HslChooser, Srgb(1.0, 0.0, 0.0))) != Srgb(1.0, 0.0, 0.0)
    ensures AsSrgbCorrected(pal, HslChooser, FromSrgb(pal, HslChooser, Srgb(1.0, 0.0, 0.0))) == Srgb(1.0, 0.0, 0.0)
  {
    Textbook.RedAsHsl();
    Textbook.HalfRedAsHsv();
    Textbook.HalfRedAsHsl();
    HslLensMisreadsRed(pal);
  }

  /** `convert_to` (and `chooser_convert`, which only forwards to it): the
      destination is replaced by the source colour in the destination's space.
      `clone_from_slice` panics unless the lengths agree, hence `|dst| == 3`. */
  function ConvertTo(pal: Palette, src: Chooser, dstCh: Chooser, sliders: seq<Slider>, dst: seq<Slider>): (r: seq<Slider>)
    requires |sliders| >= 3 && |dst| == 3
    ensures |r| == |dst|
    ensures Conforms(r, dstCh)
    ensures Values(r) == ToCoords(pal, dstCh, AsSrgb(pal, src, sliders))
    ensures dstCh == RgbChooser ==> AsSrgb(pal, RgbChooser, r) == AsSrgb(pal, src, sliders)
  {
    FromSrgb(pal, dstCh, AsSrgb(pal, src, sliders))
  }

  /** Nothing of the old destination survives, and the source is only read
      through its first three values. */
  lemma ConvertOverwrites(pal: Palette, src: Chooser, dstCh: Chooser, s1: seq<Slider>, s2: seq<Slider>, d1: seq<Slider>, d2: seq<Slider>)
    requires |s1| >= 3 && |s2| >= 3 && |d1| == 3 && |d2| == 3
    requires Values(s1) == Values(s2)
    ensures ConvertTo(pal, src, dstCh, s1, d1) == ConvertTo(pal, src, dstCh, s2, d2)
  {
  }

}
