/**
 The web engine's `GameContext`: one target challenge and one slider vector per
 colour model, kept in step by `switch_model` and `update_slider`, and read by
 the string-keyed queries the page calls.
 */
module Engine {

  import opened Wrappers
  import opened Colour
  import opened Game
  import opened Css

  /* ----- Models and their string ids ----- */

  /** The five colour models the engine keeps a slider vector for. */
  datatype Model = SrgbModel | HsvModel | HslModel | LabModel | XyzModel

  function ModelId(m: Model): string {
    match m
    case SrgbModel => "srgb"
    case HsvModel => "hsv"
    case HslModel => "hsl"
    case LabModel => "lab"
    case XyzModel => "xyz"
  }

  function ChooserOf(m: Model): Chooser {
    match m
    case SrgbModel => RgbChooser
    case HsvModel => HsvChooser
    case HslModel => HslChooser
    case LabModel => LabChooser
    case XyzModel => XyzChooser
  }

  /** The string dispatch of every engine entry point; `None` is the `_` arm. */
  function ParseModel(id: string): (r: Option<Model>)
    ensures r.Some? ==> ModelId(r.value) == id
  {
    if id == "srgb" then Some(SrgbModel)
    else if id == "hsv" then Some(HsvModel)
    else if id == "hsl" then Some(HslModel)
    else if id == "lab" then Some(LabModel)
    else if id == "xyz" then Some(XyzModel)
    else None
  }

  /** Every model is reached by its own id. */
  lemma ParseModelId(m: Model)
    ensures ParseModel(ModelId(m)) == Some(m)
  {
  }

  /** `available_models`: exactly the recognised ids, sRGB first, each once. */
  function AvailableModels(): (r: seq<string>)
    ensures |r| == 5 && r[0] == "srgb"
    ensures forall i :: 0 <= i < 5 ==> ParseModel(r[i]) == Some([SrgbModel, HsvModel, HslModel, LabModel, XyzModel][i])
    ensures forall id :: id in r <==> ParseModel(id).Some?
    ensures forall i, j :: 0 <= i < j < |r| ==> r[i] != r[j]
  {
    ["srgb", "hsv", "hsl", "lab", "xyz"]
  }

  /** `model_name`, falling back to "Unknown". */
  function ModelName(id: string): (r: string)
    ensures r == "Unknown" <==> ParseModel(id).None?
  {
    if id == "srgb" then "sRGB"
    else if id == "hsv" then "HSV"
    else if id == "hsl" then "HSL"
    else if id == "lab" then "CIELAB"
    else if id == "xyz" then "CIEXYZ"
    else "Unknown"
  }

  /** `model_info_link`, falling back to the empty string. It also knows
      "rgb8", which is not an available model. */
  function ModelInfoLink(id: string): (r: string)
    ensures r == "" <==> ParseModel(id).None? && id != "rgb8"
    ensures r != "" && id !in AvailableModels() ==> id == "rgb8"
  {
    if id == "srgb" then "https://en.wikipedia.org/wiki/SRGB"
    else if id == "rgb8" then "https://en.wikipedia.org/wiki/RGB_color_model"
    else if id == "hsv" then "https://en.wikipedia.org/wiki/HSL_and_HSV"
    else if id == "hsl" then "https://en.wikipedia.org/wiki/HSL_and_HSV"
    else if id == "lab" then "https://en.wikipedia.org/wiki/CIELAB_color_space"
    else if id == "xyz" then "https://en.wikipedia.org/wiki/CIE_1931_color_space"
    else ""
  }

  /* ----- The context ----- */

  datatype GameContext = GameContext(
    game: ColorChallenge,
    srgb: seq<Slider>, hsv: seq<Slider>, hsl: seq<Slider>, lab: seq<Slider>, xyz: seq<Slider>)

  function Vector(ctx: GameContext, m: Model): seq<Slider> {
    match m
    case SrgbModel => ctx.srgb
    case HsvModel => ctx.hsv
    case HslModel => ctx.hsl
    case LabModel => ctx.lab
    case XyzModel => ctx.xyz
  }

  /** Replaces one model's vector and nothing else. */
  function WithVector(ctx: GameContext, m: Model, v: seq<Slider>): (r: GameContext)
    ensures Vector(r, m) == v && r.game == ctx.game
    ensures forall o :: o != m ==> Vector(r, o) == Vector(ctx, o)
  {
    match m
    case SrgbModel => ctx.(srgb := v)
    case HsvModel => ctx.(hsv := v)
    case HslModel => ctx.(hsl := v)
    case LabModel => ctx.(lab := v)
    case XyzModel => ctx.(xyz := v)
  }

  /** Two contexts with the same challenge and the same five vectors are equal. */
  lemma ContextExt(a: GameContext, b: GameContext)
    requires a.game == b.game
    requires forall m :: Vector(a, m) == Vector(b, m)
    ensures a == b
  {
    assert Vector(a, SrgbModel) == Vector(b, SrgbModel);
    assert Vector(a, HsvModel) == Vector(b, HsvModel);
    assert Vector(a, HslModel) == Vector(b, HslModel);
    assert Vector(a, LabModel) == Vector(b, LabModel);
    assert Vector(a, XyzModel) == Vector(b, XyzModel);
  }

  /** Every vector is shaped like its chooser's defaults (three sliders, fixed
      names and bounds). This holds of every context the engine keeps. */
  predicate WellShaped(ctx: GameContext) {
    forall m :: Conforms(Vector(ctx, m), ChooserOf(m))
  }

  /** The context `init_game` stores for a challenge: every model at its
      chooser's defaults. This is `NewContext` without its presentable-target
      requirement, so that `Ui.Apply` can replay an `init_game` call for any
      challenge; `NewContext` returns it and says so. */
  function InitialContext(challenge: ColorChallenge): (r: GameContext)
    ensures WellShaped(r) && r.game == challenge
  {
    GameContext(challenge,
      InitSliders(RgbChooser), InitSliders(HsvChooser), InitSliders(HslChooser),
      InitSliders(LabChooser), InitSliders(XyzChooser))
  }

  /** `GameContext::new` (and `init_game`, which stores it): the challenge,
      drawn by `ColorChallenge::new` and so presentable (`Game.NewChallenge`),
      and every model at its chooser's defaults. */
  function NewContext(pal: Palette, challenge: ColorChallenge): (r: GameContext)
    requires Presentable(pal, challenge.target)
    ensures WellShaped(r) && r.game == challenge && Presentable(pal, r.game.target)
    ensures r == InitialContext(challenge)
    ensures forall m :: Vector(r, m) == InitSliders(ChooserOf(m))
    ensures forall m, i :: 0 <= i < 3 ==> Vector(r, m)[i].min <= Vector(r, m)[i].value <= Vector(r, m)[i].max
  {
    InitialContext(challenge)
  }

  /** The engine's authoritative colour: the sRGB vector read as sRGB. */
  function Authoritative(pal: Palette, ctx: GameContext): Srgb
    requires |ctx.srgb| >= 3
  {
    AsSrgb(pal, RgbChooser, ctx.srgb)
  }

  /* ----- Queries ----- */

  /** `model_sliders`: a copy of the model's vector, for the five ids only. */
  function ModelSliders(ctx: GameContext, id: string): (r: Option<seq<Slider>>)
    ensures r.Some? <==> id in AvailableModels()
    ensures r.Some? ==> r.value == Vector(ctx, ParseModel(id).value)
  {
    match ParseModel(id)
    case None => None
    case Some(m) => Some(Vector(ctx, m))
  }

  /** The colour shown for a model id: the model's sliders read through its
      chooser's `as_srgb`, or black for an id the engine does not know. The
      sRGB model shows its slider values themselves; the HSL model goes back
      through the HSV conversion, as `HSLChooser::as_srgb` does. */
  function CurrentColor(pal: Palette, ctx: GameContext, id: string): (r: Srgb)
    requires WellShaped(ctx)
    ensures ParseModel(id).None? ==> r == Black
    ensures id == "srgb" ==> r == Srgb(ctx.srgb[0].value, ctx.srgb[1].value, ctx.srgb[2].value)
    ensures id == "hsl" ==> r == pal.hsvToSrgb(Values(ctx.hsl))
    ensures ParseModel(id).Some? && id != "hsl" ==>
      r == ToSrgb(pal, ChooserOf(ParseModel(id).value), Values(Vector(ctx, ParseModel(id).value)))
  {
    assert Conforms(Vector(ctx, SrgbModel), ChooserOf(SrgbModel));
    assert Conforms(Vector(ctx, HslModel), ChooserOf(HslModel));
    match ParseModel(id)
    case None => Black
    case Some(m) => AsSrgb(pal, ChooserOf(m), Vector(ctx, m))
  }

  /** `current_color_css`: the text carries the bytes of the model's colour;
      an unknown id gives black. */
  function CurrentColorCss(pal: Palette, ctx: GameContext, id: string): (s: string)
    requires WellShaped(ctx)
    ensures ParseModel(id).None? ==> s == "rgb(0, 0, 0)"
    ensures var c := CurrentColor(pal, ctx, id);
      ParseCss(s) == Some((ChannelByte(c.red), ChannelByte(c.green), ChannelByte(c.blue)))
  {
    BlackCss();
    CssRoundTrip(CurrentColor(pal, ctx, id));
    SrgbToCss(CurrentColor(pal, ctx, id))
  }

  /** `target_color_css`. */
  function TargetColorCss(ctx: GameContext): (s: string)
    ensures var c := ctx.game.target;
      ParseCss(s) == Some((ChannelByte(c.red), ChannelByte(c.green), ChannelByte(c.blue)))
  {
    CssRoundTrip(ctx.game.target);
    SrgbToCss(ctx.game.target)
  }

  /** `compute_score`: CIEDE2000 between the target and the sRGB vector's
      colour, both taken to Lab by the library. A player who rebuilt the
      target exactly scores the distance of the target to itself. */
  function ComputeScore(pal: Palette, ctx: GameContext): (r: real)
    requires |ctx.srgb| >= 3
    ensures r == pal.deltaE(pal.srgbToLab(ctx.game.target), pal.srgbToLab(Authoritative(pal, ctx)))
    ensures r == pal.deltaE(pal.srgbToLab(ctx.game.target), pal.srgbToLab(ToSrgb(pal, RgbChooser, Values(ctx.srgb))))
    ensures Values(ctx.srgb) == Coords(ctx.game.target.red, ctx.game.target.green, ctx.game.target.blue) ==>
      r == pal.deltaE(pal.srgbToLab(ctx.game.target), pal.srgbToLab(ctx.game.target))
  {
    pal.deltaE(pal.srgbToLab(ctx.game.target), pal.srgbToLab(AsSrgb(pal, RgbChooser, ctx.srgb)))
  }

  /** The score depends on the target and the sRGB values only. */
  lemma ScoreReadsOnlySrgb(pal: Palette, a: GameContext, b: GameContext)
    requires |a.srgb| >= 3 && |b.srgb| >= 3
    requires a.game == b.game && Values(a.srgb) == Values(b.srgb)
    ensures ComputeScore(pal, a) == ComputeScore(pal, b)
  {
  }

  /** What `color_acceptable` reports. The program maps three reasons to
      codes and has no arm for `HighSaturation`; that gap is kept visible as
      `Unmapped` instead of being given a code. */
  datatype Advisory = Acceptable | Flagged(code: string) | Unmapped(reason: ExcludeReason)

  /** `color_acceptable`: the target filter applied to the authoritative colour. */
  function ColorAcceptable(pal: Palette, ctx: GameContext): (r: Advisory)
    requires |ctx.srgb| >= 3
    ensures r == Acceptable <==> Presentable(pal, Authoritative(pal, ctx))
    ensures r == Flagged("too_dark") <==> ChannelSum(Authoritative(pal, ctx)) < DarkLimit
    ensures r == Flagged("too_bright") <==> BrightLimit < ChannelSum(Authoritative(pal, ctx))
    ensures r == Flagged("low_saturation") <==> IsExcluded(pal, Authoritative(pal, ctx)) == Some(LowSaturation)
    ensures r.Unmapped? <==> IsExcluded(pal, Authoritative(pal, ctx)) == Some(HighSaturation)
    ensures r.Flagged? ==> r.code in ["low_saturation", "too_bright", "too_dark"]
  {
    match IsExcluded(pal, AsSrgb(pal, RgbChooser, ctx.srgb))
    case None => Acceptable
    case Some(LowSaturation) => Flagged("low_saturation")
    case Some(TooBright) => Flagged("too_bright")
    case Some(TooDark) => Flagged("too_dark")
    case Some(HighSaturation) => Unmapped(HighSaturation)
  }

  /** The advisory depends on the sRGB values only. */
  lemma AdvisoryReadsOnlySrgb(pal: Palette, a: GameContext, b: GameContext)
    requires |a.srgb| >= 3 && |b.srgb| >= 3
    requires Values(a.srgb) == Values(b.srgb)
    ensures ColorAcceptable(pal, a) == ColorAcceptable(pal, b)
  {
  }

  /* ----- switch_model ----- */

  /** The models a reference model fans out to, in the program's order. */
  function Others(from: Model): (r: seq<Model>)
    ensures |r| == 4 && from !in r
  {
    match from
    case SrgbModel => [HsvModel, HslModel, LabModel, XyzModel]
    case HsvModel => [SrgbModel, HslModel, LabModel, XyzModel]
    case HslModel => [SrgbModel, HsvModel, LabModel, XyzModel]
    case LabModel => [SrgbModel, HsvModel, HslModel, XyzModel]
    case XyzModel => [SrgbModel, HsvModel, HslModel, LabModel]
  }

  /** The fan-out reaches every model but the reference one. */
  lemma OthersComplete(from: Model)
    ensures forall m :: m in Others(from) <==> m != from
  {
    forall m | m != from
      ensures m in Others(from)
    {
      match m
      case SrgbModel => assert Others(from)[0] == m;
      case HsvModel => assert Others(from)[if from == SrgbModel then 0 else 1] == m;
      case HslModel => assert Others(from)[if from == SrgbModel || from == HsvModel then 1 else 2] == m;
      case LabModel => assert Others(from)[if from == XyzModel then 3 else 2] == m;
      case XyzModel => assert Others(from)[3] == m;
    }
  }

  /** One `chooser_convert` per target, in order. Only targets are written, so
      every conversion reads the same, unchanged source vector. */
  function Propagate(pal: Palette, ctx: GameContext, from: Model, targets: seq<Model>): (r: GameContext)
    requires WellShaped(ctx) && from !in targets
    ensures WellShaped(r) && r.game == ctx.game
    ensures forall m :: m in targets ==>
      Vector(r, m) == FromSrgb(pal, ChooserOf(m), AsSrgb(pal, ChooserOf(from), Vector(ctx, from)))
    ensures forall m :: m !in targets ==> Vector(r, m) == Vector(ctx, m)
    decreases |targets|
  {
    if targets == [] then ctx
    else
      var to := targets[0];
      var next := WithVector(ctx, to,
        ConvertTo(pal, ChooserOf(from), ChooserOf(to), Vector(ctx, from), Vector(ctx, to)));
      Propagate(pal, next, from, targets[1..])
  }

  /** `switch_model`: for a known reference model, every other model's vector
      becomes the reference colour in that model's space and the reference
      vector is left alone; an unknown id changes nothing. */
  function SwitchModel(pal: Palette, ctx: GameContext, id: string): (r: GameContext)
    requires WellShaped(ctx)
    ensures WellShaped(r) && r.game == ctx.game
    ensures ParseModel(id).None? ==> r == ctx
    ensures ParseModel(id).Some? ==>
      var from := ParseModel(id).value;
      && Vector(r, from) == Vector(ctx, from)
      && forall m :: m != from ==>
           Vector(r, m) == FromSrgb(pal, ChooserOf(m), AsSrgb(pal, ChooserOf(from), Vector(ctx, from)))
  {
    match ParseModel(id)
    case None => ctx
    case Some(from) =>
      OthersComplete(from);
      Propagate(pal, ctx, from, Others(from))
  }

  /** Switching twice to the same model is switching once. */
  lemma SwitchModelIdempotent(pal: Palette, ctx: GameContext, id: string)
    requires WellShaped(ctx)
    ensures SwitchModel(pal, SwitchModel(pal, ctx, id), id) == SwitchModel(pal, ctx, id)
  {
    var once := SwitchModel(pal, ctx, id);
    var twice := SwitchModel(pal, once, id);
    if ParseModel(id).Some? {
      ContextExt(twice, once);
    }
  }

  /** After a switch, the authoritative colour is exactly the reference
      model's colour, whatever the library's conversions do. */
  lemma SwitchSyncsAuthoritative(pal: Palette, ctx: GameContext, id: string)
    requires WellShaped(ctx) && ParseModel(id).Some?
    ensures Authoritative(pal, SwitchModel(pal, ctx, id)) == CurrentColor(pal, ctx, id)
  {
    var from := ParseModel(id).value;
    if from != SrgbModel {
      RgbRoundTrip(pal, AsSrgb(pal, ChooserOf(from), Vector(ctx, from)));
    }
  }

  /** The HSL swatch, as the program computes it, is not the reference
      colour: with the sRGB sliders at pure red and a library with the textbook
      values at the points involved, `switch_model("srgb")` stores red's HSL
      coordinates (0, 1, 0.5), and `current_color_css("hsl")` reads them back
      as dark red, `rgb(127, 0, 0)`. */
  lemma HslSwatchDarkensRed(pal: Palette, ctx: GameContext)
    requires WellShaped(ctx) && |ctx.srgb| >= 3 && Values(ctx.srgb) == Coords(1.0, 0.0, 0.0)
    requires pal.srgbToHsl(Srgb(1.0, 0.0, 0.0)) == Coords(0.0, 1.0, 0.5)
    requires pal.hsvToSrgb(Coords(0.0, 1.0, 0.5)) == Srgb(0.5, 0.0, 0.0)
    ensures var after := SwitchModel(pal, ctx, "srgb");
      && CurrentColor(pal, after, "srgb") == Srgb(1.0, 0.0, 0.0)
      && CurrentColor(pal, after, "hsl") == Srgb(0.5, 0.0, 0.0)
      && ParseCss(CurrentColorCss(pal, after, "hsl")) == Some((127, 0, 0))
  {
    var after := SwitchModel(pal, ctx, "srgb");
    assert AsSrgb(pal, RgbChooser, ctx.srgb) == Srgb(1.0, 0.0, 0.0);
    assert ParseModel("srgb") == Some(SrgbModel);
    assert Vector(after, HslModel) == FromSrgb(pal, ChooserOf(HslModel), AsSrgb(pal, ChooserOf(SrgbModel), Vector(ctx, SrgbModel)));
    assert Values(after.hsl) == Coords(0.0, 1.0, 0.5);
    assert ChannelByte(0.5) == 127;
    assert ChannelByte(0.0) == 0;
  }

  /* ----- update_slider ----- */

  /** The positional write `iter_mut().zip(values)`: the first
      min(|s|, |vs|) sliders take the new values, extra values are ignored
      and the remaining sliders are untouched. */
  function WriteValues(s: seq<Slider>, vs: seq<real>): (r: seq<Slider>)
    ensures SameShape(r, s)
    ensures forall i :: 0 <= i < |r| ==> r[i].value == if i < |vs| then vs[i] else s[i].value
    decreases |s|
  {
    if s == [] || vs == [] then s else [s[0].(value := vs[0])] + WriteValues(s[1..], vs[1..])
  }

  /** The HSL branch's rebuild `values.iter().zip(sliders).map(..).collect()`:
      as many sliders as the shorter of the two, so a short `vs` shrinks it. */
  function RebuildHsl(vs: seq<real>, s: seq<Slider>): (r: seq<Slider>)
    ensures |r| == if |vs| < |s| then |vs| else |s|
    ensures forall i :: 0 <= i < |r| ==> r[i] == s[i].(value := vs[i])
    decreases |vs|
  {
    if vs == [] || s == [] then [] else [s[0].(value := vs[0])] + RebuildHsl(vs[1..], s[1..])
  }

  /** With at least as many values as sliders, the HSL rebuild agrees with the
      positional write of the other branches. */
  lemma RebuildAgreesWhenFull(vs: seq<real>, s: seq<Slider>)
    requires |s| <= |vs|
    ensures RebuildHsl(vs, s) == WriteValues(s, vs)
  {
    var a, b := RebuildHsl(vs, s), WriteValues(s, vs);
    assert forall i :: 0 <= i < |a| ==> a[i] == b[i];
  }

  /** An engine call either leaves a context behind or panics. The only panic
      reachable from a well-shaped context is the HSL rebuild leaving fewer
      than three sliders, which `as_srgb` then indexes past (in the program
      the panic also poisons the context's lock for good). */
  datatype Outcome = Live(ctx: GameContext) | Panicked

  /** The vector `update_slider` stores for the edited model: the positional
      write, except that the HSL branch rebuilds and can come out short. */
  function Edited(ctx: GameContext, m: Model, vs: seq<real>): (r: seq<Slider>)
    requires WellShaped(ctx)
    ensures |r| < 3 <==> m == HslModel && |vs| < 3
    ensures |r| >= 3 ==> Conforms(r, ChooserOf(m))
    ensures |r| >= 3 ==> forall i :: 0 <= i < 3 ==>
      r[i].value == if i < |vs| then vs[i] else Vector(ctx, m)[i].value
  {
    assert Conforms(Vector(ctx, m), ChooserOf(m));
    if m != HslModel then WriteValues(Vector(ctx, m), vs)
    else if |vs| < 3 then RebuildHsl(vs, ctx.hsl)
    else
      RebuildAgreesWhenFull(vs, ctx.hsl);
      RebuildHsl(vs, ctx.hsl)
  }

  /** Stores the edited vector and converts it into the sRGB vector. */
  function PropagateEdit(pal: Palette, ctx: GameContext, m: Model, edited: seq<Slider>): (r: GameContext)
    requires WellShaped(ctx) && m != SrgbModel && Conforms(edited, ChooserOf(m))
    ensures WellShaped(r) && r.game == ctx.game
    ensures Vector(r, m) == edited
    ensures r.srgb == FromSrgb(pal, RgbChooser, AsSrgb(pal, ChooserOf(m), edited))
    ensures forall o :: o != m && o != SrgbModel ==> Vector(r, o) == Vector(ctx, o)
  {
    assert Conforms(Vector(ctx, SrgbModel), ChooserOf(SrgbModel));
    var c := WithVector(ctx, m, edited);
    WithVector(c, SrgbModel, ConvertTo(pal, ChooserOf(m), RgbChooser, edited, ctx.srgb))
  }

  /** `update_slider`. The edited model's sliders take the values by position;
      a non-sRGB edit is then propagated to the sRGB vector only; every other
      vector is untouched; an unknown id changes nothing. */
  function UpdateSlider(pal: Palette, ctx: GameContext, id: string, vs: seq<real>): (r: Outcome)
    requires WellShaped(ctx)
    ensures ParseModel(id).None? ==> r == Live(ctx)
    ensures r.Panicked? <==> id == "hsl" && |vs| < 3
    ensures r.Live? ==> WellShaped(r.ctx) && r.ctx.game == ctx.game
    ensures r.Live? && ParseModel(id).Some? ==>
      var m := ParseModel(id).value;
      && (forall i :: 0 <= i < 3 ==>
            Vector(r.ctx, m)[i].value == if i < |vs| then vs[i] else Vector(ctx, m)[i].value)
      && (forall o :: o != m && o != SrgbModel ==> Vector(r.ctx, o) == Vector(ctx, o))
      && (m != SrgbModel ==>
            r.ctx.srgb == FromSrgb(pal, RgbChooser, AsSrgb(pal, ChooserOf(m), Vector(r.ctx, m))))
  {
    match ParseModel(id)
    case None => Live(ctx)
    case Some(m) =>
      var edited := Edited(ctx, m, vs);
      if m == SrgbModel then Live(WithVector(ctx, SrgbModel, edited))
      else if |edited| < 3 then Panicked
      else Live(PropagateEdit(pal, ctx, m, edited))
  }

  /** After every edit that does not panic, the authoritative colour is
      exactly the edited model's colour. */
  lemma UpdateSyncsAuthoritative(pal: Palette, ctx: GameContext, id: string, vs: seq<real>)
    requires WellShaped(ctx) && ParseModel(id).Some?
    requires UpdateSlider(pal, ctx, id, vs).Live?
    ensures var c := UpdateSlider(pal, ctx, id, vs).ctx;
      Authoritative(pal, c) == CurrentColor(pal, c, id)
  {
    var c := UpdateSlider(pal, ctx, id, vs).ctx;
    var m := ParseModel(id).value;
    if m != SrgbModel {
      RgbRoundTrip(pal, AsSrgb(pal, ChooserOf(m), Vector(c, m)));
    }
  }

}
