/**
 The page of `App.tsx` as a transition system over the engine model: the four
 steps of `Game`, the Delay step's timer rule, and the Selection step's
 one-time initialisation, colour-space radio and slider handlers.

 React's re-render mechanics are not modelled: a component's state is a field
 of `Ui`, created when its step is entered. Timer ticks arrive as events
 carrying the elapsed milliseconds. Every handler returns the engine calls it
 made, in order, so that what the page asks of the engine can be stated.
 */
module Ui {

  import opened Wrappers
  import opened Colour
  import opened Game
  import opened Css
  import opened Engine

  /** Steps 1 to 4: memorisation, delay, selection, result. */
  datatype Stage = Memorize | Delay | Recall | Score

  /** The step each step hands over to; the result step's button resets to step 1. */
  function Succ(s: Stage): Stage {
    match s
    case Memorize => Delay
    case Delay => Recall
    case Recall => Score
    case Score => Memorize
  }

  /** The Delay step's duration in milliseconds. */
  const DelayMs: int := 5000

  /** The length of the Selection step's `Float32Array` transfer buffer. */
  const TransferSlots: nat := 4

  /** The Selection step's component state. */
  datatype RecallView = RecallView(
    availableModels: seq<string>,
    sliderMap: map<string, seq<Slider>>,
    currentModel: string,
    transfer: seq<real>)

  /** The Selection step's state when it mounts. */
  function FreshRecall(): (v: RecallView)
    ensures v.availableModels == [] && v.currentModel == "" && |v.transfer| == TransferSlots
  {
    RecallView([], map[], "", [0.0, 0.0, 0.0, 0.0])
  }

  /** The page: the current step, the engine's context, the Delay step's
      `remaining` and the Selection step's state. */
  datatype Ui = Ui(stage: Stage, engine: GameContext, remaining: int, recall: RecallView)

  /** The mutating engine calls the page makes. */
  datatype Call = CallInitGame(challenge: ColorChallenge) | CallSwitchModel(id: string) | CallUpdateSlider(id: string, values: seq<real>)

  function Apply(pal: Palette, ctx: GameContext, c: Call): (r: Outcome)
    requires WellShaped(ctx)
    ensures r.Live? ==> WellShaped(r.ctx)
  {
    match c
    case CallInitGame(ch) => Live(InitialContext(ch))
    case CallSwitchModel(id) => Live(SwitchModel(pal, ctx, id))
    case CallUpdateSlider(id, vs) => UpdateSlider(pal, ctx, id, vs)
  }

  /** The engine after a sequence of calls, or `Panicked` once one panics. */
  function Replay(pal: Palette, ctx: GameContext, calls: seq<Call>): Outcome
    requires WellShaped(ctx)
    decreases |calls|
  {
    if calls == [] then Live(ctx)
    else match Apply(pal, ctx, calls[0])
      case Panicked => Panicked
      case Live(next) => Replay(pal, next, calls[1..])
  }

  /* ----- The Selection step's helpers ----- */

  /** `s.forEach((s, i) => transferArray[i] = s.value)` on a typed array:
      writes past the array's end are dropped. */
  function TransferWrite(ta: seq<real>, s: seq<Slider>): (r: seq<real>)
    ensures |r| == |ta|
    ensures forall i :: 0 <= i < |ta| ==> r[i] == if i < |s| then s[i].value else ta[i]
    decreases |ta|
  {
    if ta == [] || s == [] then ta else [s[0].value] + TransferWrite(ta[1..], s[1..])
  }

  /** A slider cache and the transfer buffer, as the refresh loop leaves them. */
  datatype Cache = Cache(sliderMap: map<string, seq<Slider>>, transfer: seq<real>)

  /** `ids.forEach(m => ...)`: every id the engine has sliders for gets a fresh
      copy in the cache and is written into the transfer buffer; ids without
      sliders are skipped. */
  function Refresh(ctx: GameContext, ids: seq<string>, cache: Cache): (r: Cache)
    ensures |r.transfer| == |cache.transfer|
    ensures forall id :: id in r.sliderMap <==> id in cache.sliderMap || (id in ids && ModelSliders(ctx, id).Some?)
    ensures forall id :: id in ids && ModelSliders(ctx, id).Some? ==> r.sliderMap[id] == ModelSliders(ctx, id).value
    ensures forall id :: id in cache.sliderMap && !(id in ids && ModelSliders(ctx, id).Some?) ==>
      r.sliderMap[id] == cache.sliderMap[id]
    decreases |ids|
  {
    if ids == [] then cache
    else match ModelSliders(ctx, ids[0])
      case None => Refresh(ctx, ids[1..], cache)
      case Some(s) =>
        Refresh(ctx, ids[1..], Cache(cache.sliderMap[ids[0] := s], TransferWrite(cache.transfer, s)))
  }

  /** `sliders.find(s => s.name === name)`: the first slider with that name. */
  function FindByName(s: seq<Slider>, name: string): (k: nat)
    requires exists i :: 0 <= i < |s| && s[i].name == name
    ensures k < |s| && s[k].name == name
    ensures forall i :: 0 <= i < k ==> s[i].name != name
  {
    if s[0].name == name then 0
    else
      var i :| 0 <= i < |s| && s[i].name == name;
      assert s[1..][i - 1].name == name;
      1 + FindByName(s[1..], name)
  }

  /** What a Selection-step handler leaves behind. */
  datatype Effect = Effect(view: RecallView, engine: GameContext, calls: seq<Call>)

  /** Every available model's cached sliders are the engine's own. */
  predicate AllFresh(view: RecallView, ctx: GameContext) {
    forall id :: id in view.sliderMap ==> ModelSliders(ctx, id) == Some(view.sliderMap[id])
  }

  /** The Selection step's state once initialised, against the engine. Only the
      current model's cache is promised to match the engine; the others may be
      stale until the next radio change. */
  predicate RecallReady(view: RecallView, ctx: GameContext) {
    && view.availableModels == AvailableModels()
    && |view.transfer| == TransferSlots
    && (forall id :: id in view.sliderMap ==> id in AvailableModels())
    && (forall id :: id in AvailableModels() ==> id in view.sliderMap)
    && (forall id :: id in view.sliderMap ==> Conforms(view.sliderMap[id], ChooserOf(ParseModel(id).value)))
    && (view.currentModel == "" || view.currentModel in AvailableModels())
    && (view.currentModel != "" ==>
          view.sliderMap[view.currentModel] == Vector(ctx, ParseModel(view.currentModel).value))
  }

  /** Refreshing every available model from a well-shaped engine leaves a
      ready Selection state in which every cache is the engine's own. */
  lemma RefreshReady(ctx: GameContext, cache: Cache, current: string)
    requires WellShaped(ctx) && |cache.transfer| == TransferSlots
    requires forall id :: id in cache.sliderMap ==> id in AvailableModels()
    requires current == "" || current in AvailableModels()
    ensures var r := Refresh(ctx, AvailableModels(), cache);
      var view := RecallView(AvailableModels(), r.sliderMap, current, r.transfer);
      RecallReady(view, ctx) && AllFresh(view, ctx)
  {
    var r := Refresh(ctx, AvailableModels(), cache);
    forall id | id in r.sliderMap
      ensures id in AvailableModels()
      ensures ModelSliders(ctx, id) == Some(r.sliderMap[id])
      ensures Conforms(r.sliderMap[id], ChooserOf(ParseModel(id).value))
    {
      assert id in AvailableModels();
      assert Conforms(Vector(ctx, ParseModel(id).value), ChooserOf(ParseModel(id).value));
    }
  }

  /** The initialisation block, which runs while `availableModels` is empty:
      it takes the model list, calls `switch_model('srgb')` once, then caches
      the sliders of every model that has them. The transfer buffer is not
      touched. */
  function InitRecall(pal: Palette, ctx: GameContext, view: RecallView): (r: Effect)
    requires WellShaped(ctx) && view.availableModels == [] && view.sliderMap == map[] && |view.transfer| == TransferSlots
    requires view.currentModel == ""
    ensures RecallReady(r.view, r.engine) && WellShaped(r.engine) && AllFresh(r.view, r.engine)
    ensures r.engine == SwitchModel(pal, ctx, "srgb") && r.calls == [CallSwitchModel("srgb")]
    ensures r.view.currentModel == view.currentModel && r.view.transfer == view.transfer
  {
    var ms := AvailableModels();
    var ctx1 := SwitchModel(pal, ctx, "srgb");
    var cache := Refresh(ctx1, ms, Cache(view.sliderMap, view.transfer));
    RefreshReady(ctx1, Cache(view.sliderMap, view.transfer), view.currentModel);
    assert view.(availableModels := ms, sliderMap := cache.sliderMap)
      == RecallView(ms, cache.sliderMap, view.currentModel, view.transfer);
    Effect(view.(availableModels := ms, sliderMap := cache.sliderMap), ctx1, [CallSwitchModel("srgb")])
  }

  /** A render of the Selection step: initialises when the model list is
      empty, and otherwise leaves the page and the engine alone. */
  function Render(pal: Palette, ctx: GameContext, view: RecallView): (r: Effect)
    requires WellShaped(ctx) && |view.transfer| == TransferSlots
    requires view.availableModels == [] ==> view.sliderMap == map[] && view.currentModel == ""
    ensures view.availableModels == [] ==>
      && r.calls == [CallSwitchModel("srgb")] && r.engine == SwitchModel(pal, ctx, "srgb")
      && RecallReady(r.view, r.engine) && AllFresh(r.view, r.engine)
    ensures view.availableModels != [] ==> r == Effect(view, ctx, [])
  {
    if |view.availableModels| == 0 then InitRecall(pal, ctx, view) else Effect(view, ctx, [])
  }

  /** Rendering again after the initialisation changes nothing. */
  lemma InitRunsOnce(pal: Palette, ctx: GameContext, view: RecallView)
    requires WellShaped(ctx) && RecallReady(view, ctx)
    ensures Render(pal, ctx, view) == Effect(view, ctx, [])
  {
  }

  /** The colour-space radio's `onChange` for `model`: `switch_model` with the
      PREVIOUS selection, then `model` becomes current and every model's cache
      (and the transfer buffer) is refreshed from the engine. */
  function RadioChange(pal: Palette, ctx: GameContext, view: RecallView, model: string): (r: Effect)
    requires WellShaped(ctx) && RecallReady(view, ctx) && model in view.availableModels
    ensures WellShaped(r.engine) && RecallReady(r.view, r.engine) && AllFresh(r.view, r.engine)
    ensures r.calls == [CallSwitchModel(view.currentModel)]
    ensures r.engine == SwitchModel(pal, ctx, view.currentModel) && r.engine.game == ctx.game
    ensures r.view.currentModel == model
  {
    var ctx1 := SwitchModel(pal, ctx, view.currentModel);
    var cache := Refresh(ctx1, view.availableModels, Cache(view.sliderMap, view.transfer));
    RefreshReady(ctx1, Cache(view.sliderMap, view.transfer), model);
    Effect(view.(currentModel := model, sliderMap := cache.sliderMap, transfer := cache.transfer),
      ctx1, [CallSwitchModel(view.currentModel)])
  }

  /** The first radio change leaves the engine as it is: the previous
      selection is the empty id, which `switch_model` ignores. */
  lemma FirstRadioIsEngineNoop(pal: Palette, ctx: GameContext, view: RecallView, model: string)
    requires WellShaped(ctx) && RecallReady(view, ctx) && model in view.availableModels
    requires view.currentModel == ""
    ensures RadioChange(pal, ctx, view, model).engine == ctx
  {
  }

  /** Switching the colour space keeps the colour the user built: the newly
      chosen model shows the previous model's colour, provided reading the
      colour's coordinates in the new space back through that chooser's
      `as_srgb` conversion gives the colour. For HSL that conversion is the
      library's HSV one applied to HSL coordinates, which does not in general
      give the colour back (`RadioToHslDarkensRed`). */
  lemma RadioKeepsColour(pal: Palette, ctx: GameContext, view: RecallView, model: string)
    requires WellShaped(ctx) && RecallReady(view, ctx) && model in view.availableModels
    requires view.currentModel != ""
    requires var c := CurrentColor(pal, ctx, view.currentModel);
      var ch := ChooserOf(ParseModel(model).value);
      ReadCoords(pal, ch, ToCoords(pal, ch, c)) == c
    ensures CurrentColor(pal, RadioChange(pal, ctx, view, model).engine, model)
      == CurrentColor(pal, ctx, view.currentModel)
  {
    var to := ParseModel(model).value;
    var from := ParseModel(view.currentModel).value;
    var c := CurrentColor(pal, ctx, view.currentModel);
    if to != from {
      RoundTripWhenReadInverts(pal, ChooserOf(to), c);
    }
  }

  /** The radio does not keep the colour when HSL is chosen: with pure red
      built in sRGB and a library with the textbook values at the points
      involved, the HSL swatch then shows dark red (0.5, 0, 0). */
  lemma RadioToHslDarkensRed(pal: Palette, ctx: GameContext, view: RecallView)
    requires WellShaped(ctx) && RecallReady(view, ctx) && view.currentModel == "srgb"
    requires |ctx.srgb| >= 3 && Values(ctx.srgb) == Coords(1.0, 0.0, 0.0)
    requires pal.srgbToHsl(Srgb(1.0, 0.0, 0.0)) == Coords(0.0, 1.0, 0.5)
    requires pal.hsvToSrgb(Coords(0.0, 1.0, 0.5)) == Srgb(0.5, 0.0, 0.0)
    ensures CurrentColor(pal, ctx, view.currentModel) == Srgb(1.0, 0.0, 0.0)
    ensures CurrentColor(pal, RadioChange(pal, ctx, view, "hsl").engine, "hsl") == Srgb(0.5, 0.0, 0.0)
  {
    HslSwatchDarkensRed(pal, ctx);
  }

  /** Only the current model's sliders are on screen. */
  predicate Rendered(view: RecallView, model: string, j: nat) {
    model == view.currentModel && model in view.availableModels && model in view.sliderMap
    && j < |view.sliderMap[model]|
  }

  lemma SameShapeTrans(a: seq<Slider>, b: seq<Slider>, c: seq<Slider>)
    requires SameShape(a, b) && SameShape(b, c)
    ensures SameShape(a, c)
  {
  }

  /** Sliders shaped like a chooser's defaults have distinct names. */
  lemma ConformsDistinct(s: seq<Slider>, ch: Chooser)
    requires Conforms(s, ch)
    ensures DistinctNames(s)
  {
    var init := InitSliders(ch);
    forall i, j | 0 <= i < j < |s|
      ensures s[i].name != s[j].name
    {
      assert init[i].name != init[j].name;
    }
  }

  /** The edit inside the slider handler: the slider named like slider `j`
      takes the value. With distinct names that is slider `j` itself. */
  function EditByName(s: seq<Slider>, j: nat, v: real): (r: seq<Slider>)
    requires j < |s| && DistinctNames(s)
    ensures SameShape(r, s) && r[j].value == v
    ensures forall i :: 0 <= i < |s| && i != j ==> r[i] == s[i]
  {
    var k := FindByName(s, s[j].name);
    assert k == j;
    s[k := s[k].(value := v)]
  }

  /** The engine side of a slider edit: handed the edited sliders through a
      four-slot buffer, `update_slider` does not panic, stores exactly those
      sliders, and leaves the authoritative colour equal to the model's. */
  lemma EditReachesEngine(pal: Palette, ctx: GameContext, model: Model, s1: seq<Slider>, ta0: seq<real>)
    requires WellShaped(ctx) && SameShape(s1, Vector(ctx, model)) && |ta0| == TransferSlots
    ensures var out := UpdateSlider(pal, ctx, ModelId(model), TransferWrite(ta0, s1));
      && out.Live? && WellShaped(out.ctx)
      && Vector(out.ctx, model) == s1
      && Authoritative(pal, out.ctx) == CurrentColor(pal, out.ctx, ModelId(model))
  {
    ParseModelId(model);
    var ta := TransferWrite(ta0, s1);
    var out := UpdateSlider(pal, ctx, ModelId(model), ta);
    assert Conforms(Vector(ctx, model), ChooserOf(model));
    assert Conforms(Vector(out.ctx, model), ChooserOf(model));
    assert Vector(out.ctx, model) == s1 by {
      assert forall i :: 0 <= i < 3 ==> Vector(out.ctx, model)[i] == s1[i];
    }
    UpdateSyncsAuthoritative(pal, ctx, ModelId(model), ta);
  }

  /** Replacing the current model's cache by the engine's new vector keeps the
      Selection state ready. */
  lemma ReadyAfterEdit(view: RecallView, ctx: GameContext, after: GameContext, s1: seq<Slider>, ta: seq<real>)
    requires view.currentModel in AvailableModels() && |ta| == TransferSlots
    requires RecallReady(view, ctx)
    requires var model := ParseModel(view.currentModel).value;
      Conforms(s1, ChooserOf(model)) && Vector(after, model) == s1
    ensures RecallReady(view.(sliderMap := view.sliderMap[view.currentModel := s1], transfer := ta), after)
  {
  }

  /** The page-side part of the slider `onChange`: the slider named like
      slider `j` of the current model takes the value, and the model's sliders
      are copied into the transfer buffer. */
  function EditView(view: RecallView, j: nat, v: real): (w: RecallView)
    requires view.currentModel in view.sliderMap && j < |view.sliderMap[view.currentModel]|
    requires DistinctNames(view.sliderMap[view.currentModel])
    ensures w.currentModel == view.currentModel && w.availableModels == view.availableModels
    ensures var m := view.currentModel;
      && m in w.sliderMap
      && SameShape(w.sliderMap[m], view.sliderMap[m])
      && w.sliderMap[m][j].value == v
      && (forall i :: 0 <= i < |view.sliderMap[m]| && i != j ==> w.sliderMap[m][i] == view.sliderMap[m][i])
      && w.transfer == TransferWrite(view.transfer, w.sliderMap[m])
      && (forall id :: id in w.sliderMap <==> id in view.sliderMap)
      && (forall id :: id in view.sliderMap && id != m ==> w.sliderMap[id] == view.sliderMap[id])
  {
    var m := view.currentModel;
    var s1 := EditByName(view.sliderMap[m], j, v);
    view.(sliderMap := view.sliderMap[m := s1], transfer := TransferWrite(view.transfer, s1))
  }

  /** The slider `onChange` for slider `j` of the current model: the page-side
      edit, then `update_slider` with all four slots of the buffer. */
  function SliderChange(pal: Palette, ctx: GameContext, view: RecallView, j: nat, v: real): (r: Effect)
    requires WellShaped(ctx) && RecallReady(view, ctx) && Rendered(view, view.currentModel, j)
    ensures WellShaped(r.engine) && RecallReady(r.view, r.engine)
    ensures r.calls == [CallUpdateSlider(view.currentModel, r.view.transfer)] && |r.view.transfer| == TransferSlots
    ensures UpdateSlider(pal, ctx, view.currentModel, r.view.transfer) == Live(r.engine)
    ensures r.engine.game == ctx.game
    ensures r.view.currentModel == view.currentModel && r.view.availableModels == view.availableModels
  {
    var m := view.currentModel;
    var model := ParseModel(m).value;
    ConformsDistinct(view.sliderMap[m], ChooserOf(model));
    var w := EditView(view, j, v);
    var s1 := w.sliderMap[m];
    assert ModelId(model) == m && view.sliderMap[m] == Vector(ctx, model);
    assert Conforms(s1, ChooserOf(model)) by {
      SameShapeTrans(s1, view.sliderMap[m], InitSliders(ChooserOf(model)));
    }
    EditReachesEngine(pal, ctx, model, s1, view.transfer);
    var out := UpdateSlider(pal, ctx, m, w.transfer);
    ReadyAfterEdit(view, ctx, out.ctx, s1, w.transfer);
    assert w == view.(sliderMap := view.sliderMap[m := s1], transfer := w.transfer);
    Effect(w, out.ctx, [CallUpdateSlider(m, w.transfer)])
  }

  /** What a slider edit does, value by value: the edited slider holds the
      new value and nothing else in the cache changes; buffer slots 0 to 2
      carry the model's sliders and slot 3 is unchanged; and the engine's
      authoritative colour is the edited model's colour. */
  lemma SliderChangeEffect(pal: Palette, ctx: GameContext, view: RecallView, j: nat, v: real)
    requires WellShaped(ctx) && RecallReady(view, ctx) && Rendered(view, view.currentModel, j)
    ensures var r := SliderChange(pal, ctx, view, j, v);
      var m := view.currentModel;
      && r.view.sliderMap[m][j].value == v
      && (forall i :: 0 <= i < |view.sliderMap[m]| && i != j ==> r.view.sliderMap[m][i] == view.sliderMap[m][i])
      && (forall i :: 0 <= i < 3 ==> r.view.transfer[i] == r.view.sliderMap[m][i].value)
      && r.view.transfer[3] == view.transfer[3]
      && (forall id :: id in view.sliderMap && id != m ==> r.view.sliderMap[id] == view.sliderMap[id])
      && Authoritative(pal, r.engine) == CurrentColor(pal, r.engine, m)
  {
    var m := view.currentModel;
    var model := ParseModel(m).value;
    ConformsDistinct(view.sliderMap[m], ChooserOf(model));
    var w := EditView(view, j, v);
    assert SliderChange(pal, ctx, view, j, v).view == w;
    assert ModelId(model) == m && view.sliderMap[m] == Vector(ctx, model);
    EditReachesEngine(pal, ctx, model, w.sliderMap[m], view.transfer);
  }

  /* ----- The page ----- */

  /** What the user and the clock can do. `Tick` is a timer callback that
      observed `elapsed` milliseconds since the Delay step mounted; `Slide`
      moves slider `index` of `model`'s group. */
  datatype Event =
    | Next
    | Tick(elapsed: int)
    | Choose(model: string)
    | Slide(model: string, index: nat, value: real)
    | Reset(challenge: ColorChallenge)

  /** A page state together with the engine calls that produced it. */
  datatype Transition = Transition(ui: Ui, calls: seq<Call>)

  /** What the page keeps true: the engine's context is well shaped, its
      target is presentable and, on the Selection step, the step's state is
      initialised against it. */
  predicate Valid(pal: Palette, ui: Ui) {
    && WellShaped(ui.engine)
    && Presentable(pal, ui.engine.game.target)
    && (ui.stage == Recall ==> RecallReady(ui.recall, ui.engine))
  }

  /** A reset event carries a challenge drawn by `ColorChallenge::new`. */
  predicate PresentableEvent(pal: Palette, e: Event) {
    e.Reset? ==> Presentable(pal, e.challenge.target)
  }

  /** The page on load: `init_game` has stored a fresh context and step 1 is
      shown. */
  function Start(pal: Palette, challenge: ColorChallenge): (u: Ui)
    requires Presentable(pal, challenge.target)
    ensures Valid(pal, u) && u.stage == Memorize && u.engine.game == challenge
    ensures forall m :: Vector(u.engine, m) == InitSliders(ChooserOf(m))
  {
    Ui(Memorize, NewContext(pal, challenge), DelayMs, FreshRecall())
  }

  /** Mounting the Selection step: fresh component state, initialised on its
      first render. */
  function EnterRecall(pal: Palette, u: Ui): (r: Transition)
    requires WellShaped(u.engine) && Presentable(pal, u.engine.game.target)
    ensures Valid(pal, r.ui) && r.ui.stage == Recall
    ensures r.ui.engine == SwitchModel(pal, u.engine, "srgb")
    ensures r.calls == [CallSwitchModel("srgb")]
    ensures r.ui.recall.currentModel == "" && AllFresh(r.ui.recall, r.ui.engine)
  {
    var e := Render(pal, u.engine, FreshRecall());
    Transition(u.(stage := Recall, engine := e.engine, recall := e.view), e.calls)
  }

  /** One event. Step 1's button opens the Delay step with the full delay;
      each tick sets `remaining` to the delay minus the elapsed time and
      moves on once the delay has run out; the Selection step handles the
      radio and the visible sliders, and its button shows the result; the
      result step's button draws a new game and returns to step 1. Anything
      else is ignored. */
  function Step(pal: Palette, ui: Ui, e: Event): (r: Transition)
    requires Valid(pal, ui) && PresentableEvent(pal, e)
    ensures Valid(pal, r.ui)
    ensures r.ui.stage == ui.stage || r.ui.stage == Succ(ui.stage)
    ensures r.ui.stage != ui.stage ==>
      match ui.stage
      case Memorize => e == Next
      case Delay => e.Tick? && e.elapsed >= DelayMs
      case Recall => e == Next
      case Score => e.Reset?
    ensures ui.stage == Memorize && e == Next ==> r.ui.remaining == DelayMs && r.calls == []
  {
    match ui.stage
    case Memorize =>
      if e.Next? then Transition(ui.(stage := Delay, remaining := DelayMs), []) else Transition(ui, [])
    case Delay =>
      if e.Tick? then DelayTick(pal, ui, e.elapsed) else Transition(ui, [])
    case Recall =>
      if e.Next? then Transition(ui.(stage := Score), []) else RecallEvent(pal, ui, e)
    case Score =>
      if e.Reset? then Transition(ui.(stage := Memorize, engine := NewContext(pal, e.challenge)), [CallInitGame(e.challenge)])
      else Transition(ui, [])
  }

  /** A tick of the Delay step's timer. */
  function DelayTick(pal: Palette, ui: Ui, elapsed: int): (r: Transition)
    requires Valid(pal, ui) && ui.stage == Delay
    ensures Valid(pal, r.ui) && r.ui.remaining == DelayMs - elapsed
    ensures r.ui.stage == (if elapsed >= DelayMs then Recall else Delay)
  {
    var u := ui.(remaining := DelayMs - elapsed);
    if elapsed >= DelayMs then EnterRecall(pal, u) else Transition(u, [])
  }

  /** The Selection step's radio and slider events; the page stays on it.
      Clicking the radio that is already checked fires no change event, so
      choosing the model on screen does nothing. */
  function RecallEvent(pal: Palette, ui: Ui, e: Event): (r: Transition)
    requires Valid(pal, ui) && ui.stage == Recall
    ensures Valid(pal, r.ui) && r.ui.stage == Recall
    ensures e.Choose? && e.model in ui.recall.availableModels && e.model != ui.recall.currentModel
      ==> r == RadioEvent(pal, ui, e.model)
    ensures e.Choose? && e.model == ui.recall.currentModel ==> r == Transition(ui, [])
    ensures e.Slide? && Rendered(ui.recall, e.model, e.index) ==> r == SlideEvent(pal, ui, e.index, e.value)
    ensures || r.calls == []
            || r.calls == [CallSwitchModel(ui.recall.currentModel)]
            || (&& r.calls == [CallUpdateSlider(ui.recall.currentModel, r.ui.recall.transfer)]
                && ui.recall.currentModel in AvailableModels() && |r.ui.recall.transfer| == TransferSlots)
  {
    match e
    case Choose(model) =>
      if model in ui.recall.availableModels && model != ui.recall.currentModel then RadioEvent(pal, ui, model)
      else Transition(ui, [])
    case Slide(model, index, value) =>
      if Rendered(ui.recall, model, index) then SlideEvent(pal, ui, index, value) else Transition(ui, [])
    case _ => Transition(ui, [])
  }

  /** A radio change on the Selection step. */
  function RadioEvent(pal: Palette, ui: Ui, model: string): (r: Transition)
    requires Valid(pal, ui) && ui.stage == Recall && model in ui.recall.availableModels
    ensures Valid(pal, r.ui) && r.ui.stage == Recall
    ensures r.calls == [CallSwitchModel(ui.recall.currentModel)]
    ensures r.ui.engine == SwitchModel(pal, ui.engine, ui.recall.currentModel)
  {
    var eff := RadioChange(pal, ui.engine, ui.recall, model);
    Transition(ui.(engine := eff.engine, recall := eff.view), eff.calls)
  }

  /** A move of slider `index` of the model on screen. */
  function SlideEvent(pal: Palette, ui: Ui, index: nat, value: real): (r: Transition)
    requires Valid(pal, ui) && ui.stage == Recall && Rendered(ui.recall, ui.recall.currentModel, index)
    ensures Valid(pal, r.ui) && r.ui.stage == Recall
    ensures var eff := SliderChange(pal, ui.engine, ui.recall, index, value);
      r.ui.engine == eff.engine && r.calls == eff.calls
    ensures r.calls == [CallUpdateSlider(ui.recall.currentModel, r.ui.recall.transfer)]
    ensures |r.ui.recall.transfer| == TransferSlots && ui.recall.currentModel in AvailableModels()
  {
    var eff := SliderChange(pal, ui.engine, ui.recall, index, value);
    Transition(ui.(engine := eff.engine, recall := eff.view), eff.calls)
  }

  /** The calls a step makes take the engine from its old context to its new
      one, and none of them panics. */
  lemma StepReplays(pal: Palette, ui: Ui, e: Event)
    requires Valid(pal, ui) && PresentableEvent(pal, e)
    ensures Replay(pal, ui.engine, Step(pal, ui, e).calls) == Live(Step(pal, ui, e).ui.engine)
  {
    match ui.stage
    case Memorize =>
    case Delay =>
      if e.Tick? && e.elapsed >= DelayMs {
        ReplayOne(pal, ui.engine, CallSwitchModel("srgb"));
      }
    case Recall =>
      if !e.Next? {
        RecallReplays(pal, ui, e);
      }
    case Score =>
      if e.Reset? {
        ReplayOne(pal, ui.engine, CallInitGame(e.challenge));
      }
  }

  /** The Selection step's part of `StepReplays`. */
  lemma RecallReplays(pal: Palette, ui: Ui, e: Event)
    requires Valid(pal, ui) && ui.stage == Recall
    ensures Replay(pal, ui.engine, RecallEvent(pal, ui, e).calls) == Live(RecallEvent(pal, ui, e).ui.engine)
  {
    match e
    case Choose(model) =>
      if model in ui.recall.availableModels && model != ui.recall.currentModel {
        RadioReplays(pal, ui, model);
      } else {
        assert RecallEvent(pal, ui, e) == Transition(ui, []);
      }
    case Slide(model, index, value) =>
      if Rendered(ui.recall, model, index) {
        SlideReplays(pal, ui, model, index, value);
      } else {
        assert RecallEvent(pal, ui, e) == Transition(ui, []);
      }
    case _ =>
      assert RecallEvent(pal, ui, e) == Transition(ui, []);
  }

  lemma RadioReplays(pal: Palette, ui: Ui, model: string)
    requires Valid(pal, ui) && ui.stage == Recall && model in ui.recall.availableModels
    requires model != ui.recall.currentModel
    ensures var r := RecallEvent(pal, ui, Choose(model));
      Replay(pal, ui.engine, r.calls) == Live(r.ui.engine)
  {
    ReplayOne(pal, ui.engine, CallSwitchModel(ui.recall.currentModel));
  }

  lemma SlideReplays(pal: Palette, ui: Ui, model: string, index: nat, value: real)
    requires Valid(pal, ui) && ui.stage == Recall && Rendered(ui.recall, model, index)
    ensures var r := RecallEvent(pal, ui, Slide(model, index, value));
      Replay(pal, ui.engine, r.calls) == Live(r.ui.engine)
  {
    SliderChangeReplays(pal, ui.engine, ui.recall, index, value);
  }

  /** The slider handler's one call takes the engine to the handler's result. */
  lemma SliderChangeReplays(pal: Palette, ctx: GameContext, view: RecallView, j: nat, v: real)
    requires WellShaped(ctx) && RecallReady(view, ctx) && Rendered(view, view.currentModel, j)
    ensures var eff := SliderChange(pal, ctx, view, j, v);
      Replay(pal, ctx, eff.calls) == Live(eff.engine)
  {
    var eff := SliderChange(pal, ctx, view, j, v);
    ReplayOne(pal, ctx, eff.calls[0]);
  }

  /** Replaying one call is applying it. */
  lemma ReplayOne(pal: Palette, ctx: GameContext, c: Call)
    requires WellShaped(ctx)
    ensures Replay(pal, ctx, [c]) == Apply(pal, ctx, c)
  {
    var out := Apply(pal, ctx, c);
    if out.Live? {
      assert [c][1..] == [];
    }
  }

  /** Every `update_slider` the page makes is for the model currently shown on
      the Selection step, with the four-slot buffer. */
  lemma UpdatesOnlyCurrentModel(pal: Palette, ui: Ui, e: Event)
    requires Valid(pal, ui) && PresentableEvent(pal, e)
    ensures forall c :: c in Step(pal, ui, e).calls && c.CallUpdateSlider? ==>
      ui.stage == Recall && c.id == ui.recall.currentModel && c.id in AvailableModels()
      && |c.values| == TransferSlots
  {
    var r := Step(pal, ui, e);
    match ui.stage
    case Memorize =>
      assert r.calls == [];
    case Delay =>
      assert r.calls == [] || r.calls == [CallSwitchModel("srgb")];
    case Recall =>
      if e.Next? {
        assert r.calls == [];
      } else {
        assert r == RecallEvent(pal, ui, e);
        UpdatesOnly(r.calls, ui.recall.currentModel, r.ui.recall.transfer);
      }
    case Score =>
      assert r.calls == [] || r.calls == [CallInitGame(e.challenge)];
  }

  /** A call list of one of the three shapes a Selection-step event makes
      updates only `id`, with the four-slot buffer. */
  lemma UpdatesOnly(calls: seq<Call>, id: string, transfer: seq<real>)
    requires || calls == []
             || calls == [CallSwitchModel(id)]
             || (calls == [CallUpdateSlider(id, transfer)] && id in AvailableModels() && |transfer| == TransferSlots)
    ensures forall c :: c in calls && c.CallUpdateSlider? ==>
      c.id == id && c.id in AvailableModels() && |c.values| == TransferSlots
  {
  }

  /** The Delay step's timer: `remaining` is the delay minus the elapsed time,
      not clamped at zero, and the Selection step follows exactly when the
      delay has run out. */
  lemma TickRule(pal: Palette, ui: Ui, elapsed: int)
    requires Valid(pal, ui) && ui.stage == Delay
    ensures var r := Step(pal, ui, Tick(elapsed)).ui;
      && r.remaining == DelayMs - elapsed
      && (r.stage == Recall <==> elapsed >= DelayMs)
      && (r.stage == Delay <==> elapsed < DelayMs)
  {
  }

  /** Ticks reach the page only while the Delay step is mounted. */
  lemma TicksOnlyInDelay(pal: Palette, ui: Ui, elapsed: int)
    requires Valid(pal, ui) && ui.stage != Delay
    ensures Step(pal, ui, Tick(elapsed)) == Transition(ui, [])
  {
  }

  /** On entering the Selection step the engine has been switched to sRGB
      once, every model's cache is the engine's own, no model is current yet
      and the swatch is black. */
  lemma SelectionStartsBlack(pal: Palette, ui: Ui)
    requires Valid(pal, ui) && ui.stage == Delay
    ensures var r := Step(pal, ui, Tick(DelayMs));
      && r.calls == [CallSwitchModel("srgb")]
      && r.ui.engine == SwitchModel(pal, ui.engine, "srgb")
      && r.ui.recall.currentModel == ""
      && AllFresh(r.ui.recall, r.ui.engine)
      && CurrentColorCss(pal, r.ui.engine, r.ui.recall.currentModel) == "rgb(0, 0, 0)"
  {
  }

  /** The result step reads the engine: the target, the colour of the sRGB
      vector and the score. */
  datatype ScoreView = ScoreView(target: string, yours: string, score: real)

  function ScoreScreen(pal: Palette, ui: Ui): (r: ScoreView)
    requires Valid(pal, ui) && ui.stage == Score
    ensures var c := Authoritative(pal, ui.engine);
      ParseCss(r.yours) == Some((ChannelByte(c.red), ChannelByte(c.green), ChannelByte(c.blue)))
    ensures var t := ui.engine.game.target;
      ParseCss(r.target) == Some((ChannelByte(t.red), ChannelByte(t.green), ChannelByte(t.blue)))
    ensures r.score == pal.deltaE(pal.srgbToLab(ui.engine.game.target), pal.srgbToLab(Authoritative(pal, ui.engine)))
  {
    assert Conforms(Vector(ui.engine, SrgbModel), ChooserOf(SrgbModel));
    ScoreView(TargetColorCss(ui.engine), CurrentColorCss(pal, ui.engine, "srgb"), ComputeScore(pal, ui.engine))
  }

  /** What the result step shows is what the last colour-space edit showed:
      after a slider edit in any model and then the button, "your colour" is
      that model's colour. */
  lemma ScoreShowsLastEdit(pal: Palette, ui: Ui, model: string, index: nat, value: real)
    requires Valid(pal, ui) && ui.stage == Recall && Rendered(ui.recall, model, index)
    ensures var edited := Step(pal, ui, Slide(model, index, value)).ui;
      var shown := Step(pal, edited, Next).ui;
      shown.stage == Score && ScoreScreen(pal, shown).yours == CurrentColorCss(pal, edited.engine, model)
      && ScoreScreen(pal, shown).score
         == pal.deltaE(pal.srgbToLab(ui.engine.game.target), pal.srgbToLab(CurrentColor(pal, edited.engine, model)))
  {
    var e := Slide(model, index, value);
    var eff := SliderChange(pal, ui.engine, ui.recall, index, value);
    assert Step(pal, ui, e) == RecallEvent(pal, ui, e);
    assert Step(pal, ui, e).ui.engine == eff.engine;
    var edited := Step(pal, ui, e).ui;
    var shown := Step(pal, edited, Next).ui;
    assert shown.engine == eff.engine;
    SliderChangeEffect(pal, ui.engine, ui.recall, index, value);
    assert CurrentColor(pal, eff.engine, "srgb") == Authoritative(pal, eff.engine);
    assert CurrentColor(pal, eff.engine, model) == Authoritative(pal, eff.engine);
  }

  /** The result step's button replaces the engine's context by a new game. */
  lemma ResetStartsOver(pal: Palette, ui: Ui, challenge: ColorChallenge)
    requires Valid(pal, ui) && ui.stage == Score && Presentable(pal, challenge.target)
    ensures var r := Step(pal, ui, Reset(challenge));
      r.ui.stage == Memorize && r.ui.engine == NewContext(pal, challenge) && r.calls == [CallInitGame(challenge)]
  {
  }

  /** A run of events from a valid page. */
  function Run(pal: Palette, ui: Ui, events: seq<Event>): (r: Transition)
    requires Valid(pal, ui) && forall i :: 0 <= i < |events| ==> PresentableEvent(pal, events[i])
    ensures Valid(pal, r.ui)
    decreases |events|
  {
    if events == [] then Transition(ui, [])
    else
      var first := Step(pal, ui, events[0]);
      var rest := Run(pal, first.ui, events[1..]);
      Transition(rest.ui, first.calls + rest.calls)
  }

  /** No run leaves the Delay step for the Selection step without a tick that
      saw the whole delay elapse. */
  lemma {:induction false} DelayCannotBeSkipped(pal: Palette, ui: Ui, events: seq<Event>)
    requires Valid(pal, ui) && ui.stage == Delay
    requires forall i :: 0 <= i < |events| ==> PresentableEvent(pal, events[i])
    requires forall i :: 0 <= i < |events| ==> !(events[i].Tick? && events[i].elapsed >= DelayMs)
    ensures Run(pal, ui, events).ui.stage == Delay
    decreases |events|
  {
    if events != [] {
      var first := Step(pal, ui, events[0]);
      assert first.ui.stage == Delay;
      DelayCannotBeSkipped(pal, first.ui, events[1..]);
    }
  }

}
