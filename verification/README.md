# Colour Recall, modelled in Dafny

Colour Recall is a short-term colour memory test. The page shows a random
target colour (step 1, Memorization). It waits five seconds (step 2, Delay).
The player then rebuilds the colour with sliders in one of five colour spaces
(step 3, Selection). Finally it shows the target, the player's colour and a
CIEDE2000 distance (step 4, Result). The game runs on a Rust engine compiled to
WebAssembly. The engine keeps one slider vector per colour space. `update_slider`
carries an edit into the sRGB vector only, and `switch_model` re-derives the
other four vectors from one of them. A React page drives the engine.

This project models three layers, one Dafny module per concern.

- `Game` (`game.dfy`) models `src/game.rs`:
  - sliders and the target filter `is_excluded`;
  - rejection sampling of the target;
  - the six colour choosers, each reduced to its slider shape plus two
    conversions.
- `Css` (`css.dfy`) models `srgb_to_css`: the saturating byte cast, the
  `rgb(R, G, B)` text, and a parser that reads the text back.
- `Engine` (`engine.dfy`) models the engine's `GameContext` in
  `crates/yume-color-recall-web/src/lib.rs`:
  - the five vectors;
  - the string-keyed queries;
  - `switch_model`, `update_slider`, `compute_score` and `color_acceptable`.
- `Ui` (`ui.dfy`) models `crates/yume-color-recall-web/ui/src/App.tsx` as a
  transition system over `Engine`:
  - the four steps;
  - the Delay timer rule;
  - the Selection step's one-time initialisation;
  - the colour-space radio handler and the slider handler, with the
    four-slot transfer buffer.

  Every transition returns the engine calls it made. `Ui.Replay` runs those
  calls on the engine.

`Colour` (`colour.dfy`) holds the colour types. Its `Palette` is a record of
total functions that stand for the colour library's conversions (HSV, HSL,
Lab, XYZ, LCh to and from sRGB) and its CIEDE2000 distance. Every operation
takes the palette as a parameter. The proofs therefore hold for any library,
and no round trip is assumed for the library's own conversions. Each
chooser's `as_srgb` is modelled as written: the HSL chooser reads its hue,
saturation and lightness sliders back through the HSV conversion (see
"## Findings"). `Textbook`
(`textbook.dfy`) writes out the textbook HSV and HSL formulas. These formulas
serve only to exhibit the finding below on one concrete colour. `Wrappers`
holds `Option`.

Some details of the program's behaviour that the model keeps:

- The delay is the constant 5000 ms. It is not a setting.
- `remaining` is `5000 - elapsed` and may go negative; it is not clamped at 0.
- Once the delay has elapsed, every tick calls `next` again while step 2 is
  still mounted. Setting step 3 twice is the same as setting it once, so the
  model lets ticks reach only the Delay step.
- The page records no recall start time, no recall duration and no "last
  model used".
- The page never calls `color_acceptable`.
- `color_acceptable` matches three of the four exclusion reasons and has no
  arm for `HighSaturation`. `Engine.ColorAcceptable` keeps that gap visible:
  it returns `Unmapped(HighSaturation)` rather than inventing a code.

## Model

| member | source | states |
|---|---|---|
| `Game.ReasonTextDistinct` | src/game.rs:44-52 | The four exclusion reasons print as four different strings. |
| `Game.IsExcluded` | src/game.rs:56-70 | Too dark exactly when r+g+b < 0.24. Too bright exactly when r+g+b > 2.76. Low or high saturation exactly when the sum lies in the closed band and the HSV saturation is < 0.15 or > 0.9. `None` exactly when the colour is presentable. Both brightness bounds are strict, so 0.24 and 2.76 go on to the saturation tests. |
| `Game.SampleFrom` | src/game.rs:76-85 | From draw k on, the result is the first draw the filter lets through. Every draw before it was excluded. `None` exactly when every complete draw in the stream is excluded. |
| `Game.NewChallenge` | src/game.rs:76-85 | The target is presentable. It is the first presentable three-value draw of the random stream, and every earlier draw was not presentable. |
| `Game.InitSliders` | src/game.rs:134-141 | Every chooser's defaults (also lines 179-186, 226-233, 274-281, 321-328, 368-375) are three sliders with distinct names, min < max, and each default inside [min, max]. |
| `Game.FromSrgb` | src/game.rs:153-160 | `from_srgb` of every chooser (also lines 203-211, 250-259, 298-306, 345-353, 392-400) has the same names, bounds and order as that chooser's defaults. Its values are exactly the colour's coordinates in the chooser's space, unclamped. |
| `Game.RgbRoundTrip` | src/game.rs:153-164 | The RGB chooser round-trips exactly for any colour and any library: `as_srgb(from_srgb(c)) == c`, and slider R holds the red channel. |
| `Game.RgbSlidersRoundTrip` | src/game.rs:153-164 | The other direction: RGB-shaped sliders are rebuilt unchanged by `from_srgb(as_srgb(s))`. |
| `Game.AsSrgb` | src/game.rs:162-164 | `as_srgb` of every chooser (also lines 188-191, 235-238, 283-286, 330-333, 377-380) reads only the first three slider values. Every chooser but HSL agrees with the corrected reading in its own space. The HSL chooser reads its values through the HSV conversion. |
| `Game.AsSrgbCorrected` | src/game.rs:235-238 | The intended reading: sliders made by `from_srgb(c)` give back `c` whenever the library's own conversion pair for the chooser's space does. |
| `Game.RoundTripWhenPaletteInverts` | src/game.rs:188-211 | With the corrected reading, a chooser round-trips a colour whenever the library's own conversion pair for its space does. |
| `Game.RoundTripWhenReadInverts` | src/game.rs:235-259 | As written, a chooser round-trips a colour whenever reading the colour's own coordinates back through `as_srgb`'s conversion gives the colour. For HSL that conversion is the HSV one. |
| `Game.HslLensMisreadsRed` | src/game.rs:235-238 | Suppose the library maps red to HSL (0, 1, 0.5), HSV (0, 1, 0.5) to (0.5, 0, 0) and HSL (0, 1, 0.5) to red. Then the HSL chooser, as written, turns pure red into sliders (0, 1, 0.5) and reads them back as dark red (0.5, 0, 0), while the corrected reading gives red. |
| `Game.TextbookHslLensMisreadsRed` | src/game.rs:235-259 | With the textbook HSV and HSL formulas, the as-written HSL chooser does not return pure red after `from_srgb`; the corrected one does. |
| `Game.ConvertTo` | src/game.rs:116-119 | The destination keeps its length and becomes the source's `as_srgb` colour (HSL read through HSV, as written) in the destination's space, shaped like the destination's defaults. An RGB destination holds exactly that colour. |
| `Game.ConvertOverwrites` | src/game.rs:95-102 | Nothing of the old destination survives, and the source is read only through its first three values. |
| `Css.ChannelByte` | crates/yume-color-recall-web/src/lib.rs:35-37 | `(x * 255) as u8` truncates and saturates: always <= 255, 0 for x <= 0, 255 for x >= 1, and floor(255x) in between. |
| `Css.ChannelByteMonotonic` | crates/yume-color-recall-web/src/lib.rs:35-37 | A brighter channel never gets a smaller byte. |
| `Css.SrgbToCss` | crates/yume-color-recall-web/src/lib.rs:32-39 | The text starts with `rgb(`, ends with `)` and is at least 12 characters long. |
| `Css.CssRoundTrip` | crates/yume-color-recall-web/src/lib.rs:32-39 | Parsing the text gives back exactly the three channel bytes, in red, green, blue order. |
| `Css.ParseCssCanonical` | crates/yume-color-recall-web/src/lib.rs:32-39 | Any text the reader accepts is exactly the text `format!` writes for the three numbers it read: plain decimals with no leading zeros, `, ` between them, and nothing around them. |
| `Css.CssTextUnique` | crates/yume-color-recall-web/src/lib.rs:32-39 | The text written for a colour is the only text that reads back as its three channel bytes. |
| `Css.BlackCss` | crates/yume-color-recall-web/src/lib.rs:120-123 | Black is written `rgb(0, 0, 0)`. |
| `Engine.ParseModel` | crates/yume-color-recall-web/src/lib.rs:196-212 | Every recognised id names the model whose id it is. Anything else falls to the `_` arm. |
| `Engine.AvailableModels` | crates/yume-color-recall-web/src/lib.rs:126-131 | Five distinct ids, in the order `srgb`, `hsv`, `hsl`, `lab`, `xyz`. Each names its own model, and together they are exactly the ids that every dispatch table recognises. |
| `Engine.ModelName` | crates/yume-color-recall-web/src/lib.rs:133-143 | "Unknown" exactly for an unrecognised id. |
| `Engine.ModelInfoLink` | crates/yume-color-recall-web/src/lib.rs:145-156 | The empty string exactly for an id that is neither recognised nor "rgb8". "rgb8" is the only non-model id with a link. |
| `Engine.NewContext` | crates/yume-color-recall-web/src/lib.rs:96-107 | The new context holds the given challenge, whose target is presentable because `ColorChallenge::new` drew it. Every vector is exactly its chooser's defaults, each value within its bounds. |
| `Engine.ModelSliders` | crates/yume-color-recall-web/src/lib.rs:158-182 | `Some` exactly for the five available ids, holding a copy of that model's vector. |
| `Engine.CurrentColor` | crates/yume-color-recall-web/src/lib.rs:113-121 | Black for an unknown id. The sRGB model shows its slider values themselves. The HSL model shows its values read through the HSV conversion. Every other model shows its values read back from its own space. |
| `Engine.CurrentColorCss` | crates/yume-color-recall-web/src/lib.rs:113-124 | The text carries the bytes of `CurrentColor`, including the HSL model's HSV reading. An unknown id gives `rgb(0, 0, 0)`. |
| `Engine.TargetColorCss` | crates/yume-color-recall-web/src/lib.rs:109-111 | The text carries the bytes of the target colour. |
| `Engine.ComputeScore` | crates/yume-color-recall-web/src/lib.rs:278-281 | The score is the library's CIEDE2000 distance between the target and the sRGB vector's colour, both in Lab. It reads only the three sRGB slider values, taken as red, green and blue. A player whose sRGB values equal the target scores the target's distance to itself. |
| `Engine.ScoreReadsOnlySrgb` | crates/yume-color-recall-web/src/lib.rs:278-281 | The score depends only on the target and the sRGB vector's values. |
| `Engine.ColorAcceptable` | crates/yume-color-recall-web/src/lib.rs:307-316 | No advisory exactly when the sRGB vector's colour is presentable. The codes `too_dark`, `too_bright` and `low_saturation` are reported exactly for their reasons. High saturation has no code. |
| `Engine.AdvisoryReadsOnlySrgb` | crates/yume-color-recall-web/src/lib.rs:307-316 | The advisory depends only on the sRGB vector's values. |
| `Engine.Others` | crates/yume-color-recall-web/src/lib.rs:196-211 | Each reference model fans out to four models, never to itself. |
| `Engine.OthersComplete` | crates/yume-color-recall-web/src/lib.rs:196-211 | The fan-out reaches every model except the reference model. |
| `Engine.Propagate` | crates/yume-color-recall-web/src/lib.rs:185-194 | Each target becomes the reference model's `as_srgb` colour in its own space; for an HSL reference that colour is its values read through HSV. Every other vector and the challenge are untouched, and the context stays well shaped. |
| `Engine.SwitchModel` | crates/yume-color-recall-web/src/lib.rs:184-214 | A known reference keeps its own vector and sets each of the four others to `from_srgb(as_srgb(reference))`, with the program's `as_srgb` (HSL read through HSV). An unknown id changes nothing. |
| `Engine.SwitchModelIdempotent` | crates/yume-color-recall-web/src/lib.rs:184-214 | Switching twice to the same model is the same as switching once. |
| `Engine.SwitchSyncsAuthoritative` | crates/yume-color-recall-web/src/lib.rs:184-214 | After a switch, the sRGB vector shows exactly the reference model's colour. |
| `Engine.HslSwatchDarkensRed` | crates/yume-color-recall-web/src/lib.rs:113-124 | With the sRGB sliders at pure red and the textbook library values, after `switch_model("srgb")` the sRGB swatch is red but the HSL swatch is dark red (0.5, 0, 0), printed as `rgb(127, 0, 0)`. |
| `Engine.WriteValues` | crates/yume-color-recall-web/src/lib.rs:223-231 | The positional write keeps names, bounds and length. Slider i takes `vs[i]` for i < min(|s|, |vs|). Extra values are ignored and the remaining sliders are untouched. |
| `Engine.RebuildHsl` | crates/yume-color-recall-web/src/lib.rs:242-251 | The HSL rebuild has min(|vs|, |s|) sliders, so a short `vs` shrinks the vector. |
| `Engine.RebuildAgreesWhenFull` | crates/yume-color-recall-web/src/lib.rs:242-251 | With at least as many values as sliders, the HSL rebuild equals the positional write of the other branches. |
| `Engine.Edited` | crates/yume-color-recall-web/src/lib.rs:222-273 | The stored vector is short exactly for `hsl` with fewer than three values. Otherwise it keeps its shape and takes the values by position. |
| `Engine.PropagateEdit` | crates/yume-color-recall-web/src/lib.rs:217-273 | After a non-sRGB edit, only the sRGB vector is recomputed, from the edited vector's `as_srgb` colour (HSL read through HSV). |
| `Engine.UpdateSlider` | crates/yume-color-recall-web/src/lib.rs:216-276 | An unknown id is a no-op, and it panics exactly for `hsl` with fewer than three values. The edited model takes the values by position. A non-sRGB edit recomputes only the sRGB vector, from the edited model's `as_srgb` colour (HSL read through HSV); an sRGB edit propagates nowhere. All other vectors and the challenge are unchanged. |
| `Engine.UpdateSyncsAuthoritative` | crates/yume-color-recall-web/src/lib.rs:216-276 | After an edit that does not panic, the sRGB vector shows exactly the edited model's colour. |
| `Ui.FreshRecall` | crates/yume-color-recall-web/ui/src/App.tsx:68-72 | The Selection step mounts with no models, no current model and a four-slot buffer. |
| `Ui.TransferWrite` | crates/yume-color-recall-web/ui/src/App.tsx:164-166 | Slot i takes slider i's value for i < |sliders|. The other slots keep their old values, and writes past the buffer's end are dropped. |
| `Ui.Refresh` | crates/yume-color-recall-web/ui/src/App.tsx:117-132 | Every id with sliders gets the engine's copy in the cache. Ids without sliders are skipped, other entries are untouched, and the buffer keeps its length. |
| `Ui.FindByName` | crates/yume-color-recall-web/ui/src/App.tsx:162-162 | Returns the first slider with the given name. |
| `Ui.RefreshReady` | crates/yume-color-recall-web/ui/src/App.tsx:79-96 | Refreshing every available model leaves one cache per model, and each cache is the engine's own vector. |
| `Ui.InitRecall` | crates/yume-color-recall-web/ui/src/App.tsx:74-97 | Initialisation calls `switch_model('srgb')` once. It caches every model's sliders as the engine now has them and leaves the buffer and the current model alone. |
| `Ui.Render` | crates/yume-color-recall-web/ui/src/App.tsx:74-97 | With an empty model list, a render initialises: one `switch_model('srgb')`, every cache fresh and the step ready. Otherwise it changes nothing and calls nothing. |
| `Ui.InitRunsOnce` | crates/yume-color-recall-web/ui/src/App.tsx:74-74 | Once initialised, a render does nothing and calls nothing. |
| `Ui.RadioChange` | crates/yume-color-recall-web/ui/src/App.tsx:114-133 | The handler calls `switch_model` with the previous selection, not the new one. It makes the chosen model current and refreshes every cache from the engine. |
| `Ui.FirstRadioIsEngineNoop` | crates/yume-color-recall-web/ui/src/App.tsx:114-116 | From the initial empty selection, the radio's `switch_model` leaves the engine unchanged. |
| `Ui.RadioKeepsColour` | crates/yume-color-recall-web/ui/src/App.tsx:114-132 | The newly chosen space shows the colour the player built in the previous space, whenever reading that colour's coordinates in the new space back through the new chooser's `as_srgb` conversion gives the colour. For HSL that conversion is HSV's. |
| `Ui.RadioToHslDarkensRed` | crates/yume-color-recall-web/ui/src/App.tsx:114-132 | The radio does not keep the colour for HSL: with pure red built in sRGB and the textbook library values, choosing HSL shows dark red (0.5, 0, 0). |
| `Ui.EditByName` | crates/yume-color-recall-web/ui/src/App.tsx:160-163 | The slider named like slider j takes the value. Because names are distinct, that slider is j itself and nothing else changes. |
| `Ui.EditReachesEngine` | crates/yume-color-recall-web/ui/src/App.tsx:164-167 | Given the edited sliders through the four-slot buffer, `update_slider` does not panic and stores exactly those sliders. The sRGB vector then shows their colour. |
| `Ui.EditView` | crates/yume-color-recall-web/ui/src/App.tsx:160-166 | The page-side edit. The slider named like slider j takes the value and every other slider and cache entry is unchanged. The buffer is the model's sliders written over the old buffer. |
| `Ui.SliderChange` | crates/yume-color-recall-web/ui/src/App.tsx:158-169 | Exactly one `update_slider` is sent, for the current model, with the whole buffer. It does not panic, and afterwards the engine's vector for the model equals the page's cache. |
| `Ui.SliderChangeEffect` | crates/yume-color-recall-web/ui/src/App.tsx:160-167 | The edited slider holds the new value and nothing else in the cache changes. Buffer slots 0 to 2 carry the model's sliders and slot 3 is unchanged. The sRGB vector then shows the edited model's colour. |
| `Ui.Start` | crates/yume-color-recall-web/ui/src/App.tsx:265-272 | The page starts on step 1 with a fresh context for the presentable challenge: every vector at its defaults, and the page valid. |
| `Ui.EnterRecall` | crates/yume-color-recall-web/ui/src/App.tsx:67-97 | Entering the Selection step makes one `switch_model('srgb')` call, caches every model's sliders fresh and selects no model yet. |
| `Ui.Step` | crates/yume-color-recall-web/ui/src/App.tsx:230-257 | Every event keeps the page valid (well-shaped engine, presentable target, ready Selection step) and moves at most one step forward. Step 1 leaves only on Next, step 2 only on a tick that saw the whole delay, step 3 only on Next, and step 4 only on reset. Next on step 1 starts the delay at its full length and makes no call. |
| `Ui.DelayTick` | crates/yume-color-recall-web/ui/src/App.tsx:199-205 | A tick sets `remaining` to 5000 minus the elapsed time and moves to the Selection step exactly when the elapsed time is at least 5000. |
| `Ui.RecallEvent` | crates/yume-color-recall-web/ui/src/App.tsx:108-183 | Radio and slider events keep the Selection step ready and stay on it. A radio change to another available model runs the radio handler. Choosing the model already checked fires no change event and does nothing. A move of a rendered slider runs the slider handler. Each event makes no call, one `switch_model` for the model being left, or one four-value `update_slider` for the current model. |
| `Ui.StepReplays` | crates/yume-color-recall-web/ui/src/App.tsx:230-257 | Replaying the engine calls a step made takes the old context to the new one, and none of the calls panics. |
| `Ui.UpdatesOnlyCurrentModel` | crates/yume-color-recall-web/ui/src/App.tsx:143-167 | `update_slider` is sent only on the Selection step, only for the current (available) model, and always with four values. |
| `Ui.TickRule` | crates/yume-color-recall-web/ui/src/App.tsx:194-205 | On the Delay step, `remaining` becomes 5000 minus the elapsed time, unclamped. The step advances exactly when the elapsed time is >= 5000 and stays otherwise. |
| `Ui.TicksOnlyInDelay` | crates/yume-color-recall-web/ui/src/App.tsx:198-208 | Outside the Delay step a tick changes nothing and calls nothing, because the interval is cleared on unmount. |
| `Ui.SelectionStartsBlack` | crates/yume-color-recall-web/ui/src/App.tsx:71-103 | The timer's advance enters the Selection step with one `switch_model('srgb')`, fresh caches and no current model, so the swatch is `rgb(0, 0, 0)`. |
| `Ui.ScoreScreen` | crates/yume-color-recall-web/ui/src/App.tsx:42-57 | The result step shows the target's bytes and the bytes of the sRGB vector's colour. Its score is the distance between the target's Lab colour and that sRGB colour's Lab colour. |
| `Ui.ScoreShowsLastEdit` | crates/yume-color-recall-web/ui/src/App.tsx:52-52 | After an edit in any space followed by Next, "your colour" is that space's colour, read back through `srgb`. The score is the distance from the target to that space's colour. |
| `Ui.ResetStartsOver` | crates/yume-color-recall-web/ui/src/App.tsx:254-254 | The reset calls `init_game`, replaces the whole context with a new game for the freshly drawn, presentable challenge and returns to step 1. |
| `Ui.DelayCannotBeSkipped` | crates/yume-color-recall-web/ui/src/App.tsx:198-205 | No run of events leaves the Delay step unless some tick saw the whole delay elapse. |

## Left out

- Colour maths. The `palette` crate's conversions and its CIEDE2000 distance are the fields of `Colour.Palette`, and nothing is assumed about them. Hue wrapping through `into_positive_degrees` is part of the library's conversion.
- Floating point. Values are reals; the program uses f32. The thresholds are the exact reals 0.24, 2.76, 0.15 and 0.9, not f32 products. The page's `Float32Array` rounding and the f32/f64 marshalling of slider values are not modelled.
- `Game.NewChallenge`: the random stream is a finite prefix (`seq<real>`), so a prefix with no presentable draw gives `None`. The program keeps drawing and ends only with probability 1.
- `get_meta` and `ColorSpaceMeta`: the engine never calls them.
- `compute_xyz` and `compute_lab`: only the RGB chooser's `compute_lab` is used, by `compute_score`, where it is the library's sRGB-to-Lab conversion. The LAB, XYZ and LCh choosers enter only through their slider shape and the palette.
- `Game.AsSrgb`, `Game.AsSrgbCorrected` and `Game.Values` require at least three sliders. With fewer, the program's `sliders[2]` index panics (src/game.rs:163, 189, 236, 284, 331, 378). No chooser reaches them with fewer, except the HSL shrink in `update_slider`, which is modelled as `Engine.Outcome.Panicked`.
- `Game.ConvertTo` requires a destination of exactly three sliders. Otherwise `clone_from_slice` panics (src/game.rs:118). Every destination the engine passes is a well-shaped vector of three.
- `Ui.FindByName` requires a slider with the given name. The program's `!` at App.tsx:162 would fail otherwise. The handler only looks up the name of a slider it is rendering.
- `Engine.NewContext`, `Ui.Start` and the reset step require a presentable target. They stand for `ColorChallenge::new`, which returns only presentable targets (`Game.NewChallenge`); the random draw itself is not repeated inside them.
- `Engine.ColorAcceptable`: returns `Unmapped(HighSaturation)` where the program has no arm. No code is invented for that case.
- The `GAME_CONTEXT` global, its `RwLock`, the `unwrap` on a context that was never initialised, and lock poisoning after a panic. In the model, a panic ends in `Engine.Outcome.Panicked`.
- wasm-bindgen externs, `JsValue`/`js_sys::Reflect` marshalling, the panic hook and console logging.
- Rendering: MUI widgets, `ColorSampleBlock`, `NextBtn`, `updateCount` (it only forces a re-render), React's render scheduling and state batching. The slider widget's own clamping into [min, max] and its step size are also out; a slider event may carry any real.
- Real time: `setInterval` and `Date`. Ticks are events that carry the elapsed milliseconds.
- Startup: the asynchronous wasm load and the `ready` flag. `Ui.Start` is the state after `init_game`.
- Localisation (`i18n.ts`): translation tables and language selection, presentation only.

## Findings

| source | as written | input that shows it | evidently intended | confidence | as-written member | corrected member |
|---|---|---|---|---|---|---|
| src/game.rs:235-238 | `HSLChooser::as_srgb` builds an `Hsv` from its hue, saturation and lightness sliders, while its `from_srgb` (lines 250-259) fills them from an `Hsl`. | Pure red (1, 0, 0) becomes HSL sliders (0, 1, 0.5). Read as HSV, these give dark red (0.5, 0, 0). | Read the sliders as `Hsl`, so that the HSL chooser round-trips like the others and the HSL swatch shows the colour the sliders describe. | high, not executed | `Game.AsSrgb` (exhibited by `Game.HslLensMisreadsRed`, `Game.TextbookHslLensMisreadsRed`, `Engine.HslSwatchDarkensRed` and `Ui.RadioToHslDarkensRed`) | `Game.AsSrgbCorrected` (round trip proved by `Game.RoundTripWhenPaletteInverts`) |

The engine and the page use `Game.AsSrgb`, the reading as written, so that
they describe what the program does. `Game.AsSrgbCorrected` is the fix; the
engine's sync properties (`Engine.SwitchSyncsAuthoritative`,
`Engine.UpdateSyncsAuthoritative`) hold for either reading.
