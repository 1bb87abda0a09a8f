/** The application state and its main loop: event dispatch to the panel, selection, the idle
    auto-switch, hovering and the animation step, as one frame of `App.run`. */
module Application {
  import opened Wrappers
  import opened Geometry
  import opened MetricKeys
  import opened MetricData
  import opened AxisControl
  import opened Layout
  import opened Sprites
  import opened IdleTimer
  import opened Picking
  import opened Related
  import opened Events
  import opened TextField
  import opened Buttons

  /** The state of `App` that the frame logic reads and writes. `rawData` is the dataset of the
      first load; `selected` and `hovered` are sprite indices. */
  datatype App = App(w: int, h: int, running: bool, fontIndex: nat,
                     axes: Axes, timer: Timer,
                     rawData: seq<Record>, sprites: seq<Sprite>, ranges: map<Metric, Range>,
                     links: map<string, Links>,
                     xButton: Button, yButton: Button, fontButtons: seq<Button>, field: Field,
                     selected: Option<nat>, hovered: Option<nat>)

  /** Every record carries all twelve metrics. */
  predicate AllComplete(data: seq<Record>) {
    forall i :: 0 <= i < |data| ==> Complete(data[i].metrics)
  }

  /** Every sprite carries all twelve metrics. */
  predicate SpritesComplete(sprites: seq<Sprite>) {
    forall i :: 0 <= i < |sprites| ==> Complete(sprites[i].metrics)
  }

  /** The metrics file of every font preset. */
  predicate LibraryOk(library: seq<seq<Record>>) {
    |library| == FontCount && forall i :: 0 <= i < |library| ==> AllComplete(library[i])
  }

  /** The invariant of the running application. */
  predicate AppInv(a: App) {
    && Valid(a.axes) && IntervalOk(a.timer.interval)
    && |a.rawData| > 0 && AllComplete(a.rawData)
    && |a.sprites| > 0 && SpritesComplete(a.sprites)
    && Complete(a.ranges)
    && a.fontIndex < FontCount && |a.fontButtons| == FontCount
    && Inv(a.field) && a.field.rect == SearchRect && a.field.clearRect == Rect(295, 125, 30, 30)
    && (a.selected.Some? ==> a.selected.value < |a.sprites|)
    && (a.hovered.Some? ==> a.hovered.value < |a.sprites|)
  }

  lemma CompleteHasAxes(sprites: seq<Sprite>, axes: Axes)
    requires SpritesComplete(sprites)
    ensures HasAxes(sprites, axes)
  {
    forall i | 0 <= i < |sprites|
      ensures axes.x in sprites[i].metrics && axes.y in sprites[i].metrics
    {
      assert Complete(sprites[i].metrics);
    }
  }

  /** Every sprite's target is the layout position of its two axis metrics under `ranges`. */
  predicate Targeted(sprites: seq<Sprite>, ax: Axes, ranges: map<Metric, Range>, w: int, h: int) {
    forall j :: 0 <= j < |sprites| ==>
      && ax.x in sprites[j].metrics && ax.y in sprites[j].metrics && ax.x in ranges && ax.y in ranges
      && sprites[j].tx == ScreenX(sprites[j].metrics[ax.x], ranges[ax.x], w)
      && sprites[j].ty == ScreenY(sprites[j].metrics[ax.y], ranges[ax.y], h)
  }

  /** `update_targets`: every sprite's target follows the current axes and ranges. */
  function UpdateTargets(a: App): (r: App)
    requires SpritesComplete(a.sprites) && Complete(a.ranges)
    ensures r == a.(sprites := r.sprites) && |r.sprites| == |a.sprites| && SpritesComplete(r.sprites)
    ensures forall i :: 0 <= i < |r.sprites| ==>
              && r.sprites[i].tx == ScreenX(a.sprites[i].metrics[a.axes.x], a.ranges[a.axes.x], a.w)
              && r.sprites[i].ty == ScreenY(a.sprites[i].metrics[a.axes.y], a.ranges[a.axes.y], a.h)
              && r.sprites[i] == a.sprites[i].(tx := r.sprites[i].tx, ty := r.sprites[i].ty)
    ensures Targeted(r.sprites, a.axes, a.ranges, a.w, a.h)
    ensures AppInv(a) ==> AppInv(r)
  {
    CompleteHasAxes(a.sprites, a.axes);
    a.(sprites := Retarget(a.sprites, a.axes, a.ranges, a.w, a.h))
  }

  /** The metric maps of the sprites, in order. */
  function MetricsOf(sprites: seq<Sprite>): (ms: seq<map<Metric, real>>)
    ensures |ms| == |sprites| && forall i :: 0 <= i < |sprites| ==> ms[i] == sprites[i].metrics
  {
    seq(|sprites|, i requires 0 <= i < |sprites| => sprites[i].metrics)
  }

  /** `change_font(i)` with `data` the metrics file of preset `i`. Choosing the current preset
      does nothing. Otherwise the sprites take their new metrics, the ranges are rebuilt from the
      FIRST dataset, then density (nudged) and the centre-of-gravity metrics (not nudged) get the
      ranges of the sprites' current values, and the targets follow. */
  function ChangeFont(a: App, i: nat, data: seq<Record>): (r: App)
    requires AppInv(a) && i < FontCount && AllComplete(data)
    ensures AppInv(r)
    ensures i == a.fontIndex ==> r == a
    ensures i != a.fontIndex ==>
              && r == a.(fontIndex := i, sprites := r.sprites, ranges := r.ranges)
              && |r.sprites| == |a.sprites|
              && r.ranges == ReloadRanges(FirstRanges(a.rawData), NewMetrics(a.sprites, data))
              && (forall j :: 0 <= j < |r.sprites| ==>
                    && r.sprites[j].metrics == Refresh(a.sprites, data)[j].metrics
                    && r.sprites[j] == a.sprites[j].(metrics := r.sprites[j].metrics, tx := r.sprites[j].tx, ty := r.sprites[j].ty))
              && Targeted(r.sprites, a.axes, r.ranges, a.w, a.h)
  {
    if i == a.fontIndex then a
    else
      var b := Reloaded(a, i, data);
      var r := UpdateTargets(b);
      forall j | 0 <= j < |r.sprites|
        ensures r.sprites[j].metrics == Refresh(a.sprites, data)[j].metrics
        ensures r.sprites[j] == a.sprites[j].(metrics := r.sprites[j].metrics, tx := r.sprites[j].tx, ty := r.sprites[j].ty)
      {
        var s, t, u := a.sprites[j], b.sprites[j], r.sprites[j];
        assert t == s.(metrics := t.metrics);
        assert u == t.(tx := u.tx, ty := u.ty);
      }
      r
  }

  /** The state of `change_font` just before `update_targets`: the new metrics and ranges. */
  function Reloaded(a: App, i: nat, data: seq<Record>): (b: App)
    requires AppInv(a) && i < FontCount && AllComplete(data)
    ensures AppInv(b) && b.sprites == Refresh(a.sprites, data)
    ensures b == a.(fontIndex := i, sprites := b.sprites, ranges := b.ranges)
    ensures b.ranges == ReloadRanges(FirstRanges(a.rawData), NewMetrics(a.sprites, data))
  {
    RefreshComplete(a.sprites, data);
    a.(fontIndex := i, sprites := Refresh(a.sprites, data),
       ranges := ReloadRanges(FirstRanges(a.rawData), NewMetrics(a.sprites, data)))
  }

  /** The range table `load_font` builds from the dataset of the first load. */
  function FirstRanges(data: seq<Record>): (m: map<Metric, Range>)
    requires |data| > 0 && AllComplete(data)
    ensures ComputeRanges(data).Success? && m == ComputeRanges(data).value && Complete(m)
  {
    CompleteKeyed(data);
    ComputeRanges(data).value
  }

  /** The sprites' metrics after a reload, in order. */
  function NewMetrics(sprites: seq<Sprite>, data: seq<Record>): (ms: seq<map<Metric, real>>)
    requires SpritesComplete(sprites) && AllComplete(data)
    ensures ms == MetricsOf(Refresh(sprites, data)) && |ms| == |sprites|
    ensures forall k: Metric :: AllHave(ms, k)
  {
    RefreshComplete(sprites, data);
    CompleteAllHave(Refresh(sprites, data));
    MetricsOf(Refresh(sprites, data))
  }

  lemma RefreshComplete(sprites: seq<Sprite>, data: seq<Record>)
    requires SpritesComplete(sprites) && AllComplete(data)
    ensures SpritesComplete(Refresh(sprites, data))
  {
    var r := Refresh(sprites, data);
    forall j | 0 <= j < |r| ensures Complete(r[j].metrics) {
      if sprites[j].ch in ByChar(data) {
        var k :| 0 <= k < |data| && data[k].ch == sprites[j].ch
                 && ByChar(data)[sprites[j].ch] == data[k].metrics
                 && forall m :: k < m < |data| ==> data[m].ch != sprites[j].ch;
      }
    }
  }

  /** A complete dataset loads: its range table covers all twelve metrics. */
  lemma CompleteKeyed(data: seq<Record>)
    requires |data| > 0 && AllComplete(data)
    ensures Keyed(data) && ComputeRanges(data).Success? && Complete(ComputeRanges(data).value)
  {
    forall k | k in data[0].metrics ensures HasMetric(data, k) {
      forall j | 0 <= j < |data| ensures k in data[j].metrics {
        assert Complete(data[j].metrics);
      }
    }
    assert Complete(data[0].metrics);
  }

  lemma CompleteAllHave(sprites: seq<Sprite>)
    requires SpritesComplete(sprites)
    ensures forall k: Metric :: AllHave(MetricsOf(sprites), k)
  {
    var ms := MetricsOf(sprites);
    forall k: Metric, j | 0 <= j < |ms| ensures k in ms[j] {
      assert Complete(sprites[j].metrics);
    }
  }

  /** Where a sprite starts: the random start position and the width of its scaled glyph. Every
      glyph is scaled to a height of 24 pixels. */
  datatype Placement = Placement(x: int, y: int, width: nat)

  const GlyphHeight: nat := 24

  /** The sprites of the first load, one per record, in dataset order, each at rest at its
      placement. */
  function Place(data: seq<Record>, places: seq<Placement>): (r: seq<Sprite>)
    requires |places| == |data|
    ensures |r| == |data|
    ensures forall i :: 0 <= i < |data| ==>
              && r[i].ch == data[i].ch && r[i].metrics == data[i].metrics
              && r[i].fx == r[i].tx && r[i].fy == r[i].ty
              && Box(r[i]) == WithCenter(Rect(0, 0, places[i].width, GlyphHeight), places[i].x, places[i].y)
    ensures AllComplete(data) ==> SpritesComplete(r)
  {
    var r := seq(|data|, i requires 0 <= i < |data| =>
                   NewSprite(data[i], places[i].x, places[i].y, places[i].width, GlyphHeight));
    assert AllComplete(data) ==> SpritesComplete(r) by {
      if AllComplete(data) {
        forall i | 0 <= i < |r| ensures Complete(r[i].metrics) {
          assert Complete(data[i].metrics);
        }
      }
    }
    r
  }

  /** The panel as `create_ui` builds it, nothing hovered. */
  function FontButtons(): (bs: seq<Button>)
    ensures |bs| == FontCount && forall i :: 0 <= i < FontCount ==> bs[i] == Button(FontButtonRect(i), false)
  {
    seq(FontCount, i requires 0 <= i < FontCount => Button(FontButtonRect(i), false))
  }

  /** The application right after a successful first load, before the targets are set. */
  function Launch(w: int, h: int, now: int, interval: int, data: seq<Record>, places: seq<Placement>,
                  links: map<string, Links>): (a: App)
    requires IntervalOk(interval) && |places| == |data| && |data| > 0 && AllComplete(data)
    ensures AppInv(a) && a.sprites == Place(data, places) && a.ranges == ComputeRanges(data).value
    ensures a.running && a.fontIndex == 0 && a.axes == InitialAxes && a.selected.None? && a.hovered.None?
    ensures a.timer == Start(now, interval) && a.rawData == data && !a.field.focused
  {
    CompleteKeyed(data);
    App(w, h, true, 0, InitialAxes, Start(now, interval), data, Place(data, places), ComputeRanges(data).value,
        links, Button(XButtonRect, false), Button(YButtonRect, false), FontButtons(), SearchField(),
        None, None)
  }

  /** `App.__init__` at time `now` on a `w` by `h` screen, with the dataset of the first preset.
      The sprites start at their placements and at rest, the timer starts, the panel is built
      with nothing hovered or focused, and the targets follow the initial axes. A dataset that is
      empty, or whose records do not all carry the twelve metrics, does not load. */
  function Init(w: int, h: int, now: int, interval: int, data: seq<Record>, places: seq<Placement>,
                links: map<string, Links>): (r: Result<App, LoadError>)
    requires IntervalOk(interval) && |places| == |data|
    ensures r.Success? <==> |data| > 0 && AllComplete(data)
    ensures |data| == 0 ==> r == Failure(EmptyDataset)
    ensures r.Success? ==>
              && AppInv(r.value) && r.value == UpdateTargets(Launch(w, h, now, interval, data, places, links))
  {
    if |data| == 0 then Failure(EmptyDataset)
    else if !AllComplete(data) then Failure(MissingMetric)
    else Success(UpdateTargets(Launch(w, h, now, interval, data, places, links)))
  }

  /** A complete dataset on a screen big enough for the 60-pixel inset loads, and every sprite
      starts at its placement with a target inside the plot area. */
  lemma InitPlacesSprites(w: int, h: int, now: int, interval: int, data: seq<Record>, places: seq<Placement>,
                          links: map<string, Links>)
    requires IntervalOk(interval) && |places| == |data| && |data| > 0 && AllComplete(data)
    requires w >= 2 * Pad && h >= 2 * Pad
    ensures var r := Init(w, h, now, interval, data, places, links);
            && r.Success? && r.value.axes == InitialAxes && |r.value.sprites| == |data|
            && forall i :: 0 <= i < |data| ==>
                 && r.value.sprites[i].ch == data[i].ch
                 && Box(r.value.sprites[i]) == WithCenter(Rect(0, 0, places[i].width, GlyphHeight), places[i].x, places[i].y)
                 && Pad as real <= r.value.sprites[i].tx <= (w - Pad) as real
                 && Pad as real <= r.value.sprites[i].ty <= (h - Pad) as real
  {
    var a := Launch(w, h, now, interval, data, places, links);
    var b := UpdateTargets(a);
    forall i | 0 <= i < |data|
      ensures Pad as real <= b.sprites[i].tx <= (w - Pad) as real
      ensures Pad as real <= b.sprites[i].ty <= (h - Pad) as real
    {
      ScreenXInArea(a.sprites[i].metrics[a.axes.x], a.ranges[a.axes.x], w);
      ScreenYInArea(a.sprites[i].metrics[a.axes.y], a.ranges[a.axes.y], h);
    }
  }

  /** The elements of `ui_elements` in dispatch order: the axis buttons and the search field are
      in the list twice, followed by the six font buttons. */
  datatype Element = XButton | YButton | Search | FontButton(index: FontId)

  /** The index of a font preset. */
  type FontId = i: nat | i < FontCount

  const Elements: seq<Element> :=
    [XButton, YButton, Search, XButton, YButton, Search,
     FontButton(0), FontButton(1), FontButton(2), FontButton(3), FontButton(4), FontButton(5)]

  datatype Dispatched = Dispatched(app: App, handled: bool)

  /** `next_x`: the X axis moves on and the targets follow. */
  function PressX(a: App): (r: App)
    requires AppInv(a)
    ensures AppInv(r) && r.axes == NextX(a.axes)
    ensures r == UpdateTargets(a.(axes := NextX(a.axes)))
  {
    UpdateTargets(a.(axes := NextX(a.axes)))
  }

  /** `next_y`: the Y axis moves on and the targets follow. */
  function PressY(a: App): (r: App)
    requires AppInv(a)
    ensures AppInv(r) && r.axes == NextY(a.axes)
    ensures r == UpdateTargets(a.(axes := NextY(a.axes)))
  {
    UpdateTargets(a.(axes := NextY(a.axes)))
  }

  /** One element's `handle_event`, with the callbacks of the buttons. */
  function DispatchOne(a: App, el: Element, e: Event, now: int, library: seq<seq<Record>>): (d: Dispatched)
    requires AppInv(a) && LibraryOk(library)
    ensures AppInv(d.app)
    ensures d.app.selected == a.selected && d.app.hovered == a.hovered && d.app.timer == a.timer
    ensures d.app.running == a.running
    ensures el == Search ==>
              d == Dispatched(a.(field := HandleEvent(a.field, e, now).field), HandleEvent(a.field, e, now).consumed)
    ensures el == XButton ==>
              var p := HandleButton(a.xButton, e);
              d.handled == p.fired && d.app == (if p.fired then PressX(a.(xButton := p.button)) else a.(xButton := p.button))
    ensures el == YButton ==>
              var p := HandleButton(a.yButton, e);
              d.handled == p.fired && d.app == (if p.fired then PressY(a.(yButton := p.button)) else a.(yButton := p.button))
    ensures el.FontButton? ==>
              var p := HandleButton(a.fontButtons[el.index], e);
              var a' := a.(fontButtons := a.fontButtons[el.index := p.button]);
              d.handled == p.fired && d.app == (if p.fired then ChangeFont(a', el.index, library[el.index]) else a')
  {
    match el
    case XButton =>
      var p := HandleButton(a.xButton, e);
      var a' := a.(xButton := p.button);
      Dispatched(if p.fired then PressX(a') else a', p.fired)
    case YButton =>
      var p := HandleButton(a.yButton, e);
      var a' := a.(yButton := p.button);
      Dispatched(if p.fired then PressY(a') else a', p.fired)
    case Search =>
      HandleKeepsInv(a.field, e, now);
      var o := HandleEvent(a.field, e, now);
      Dispatched(a.(field := o.field), o.consumed)
    case FontButton(i) =>
      var p := HandleButton(a.fontButtons[i], e);
      var a' := a.(fontButtons := a.fontButtons[i := p.button]);
      Dispatched(if p.fired then ChangeFont(a', i, library[i]) else a', p.fired)
  }

  /** The dispatch loop `for el in self.ui_elements`: every element sees the event, whether or not
      an earlier one handled it; the event counts as handled when any element handled it. */
  function DispatchAll(a: App, els: seq<Element>, e: Event, now: int, library: seq<seq<Record>>): (d: Dispatched)
    requires AppInv(a) && LibraryOk(library)
    ensures AppInv(d.app)
    ensures d.app.selected == a.selected && d.app.hovered == a.hovered && d.app.timer == a.timer
    ensures d.app.running == a.running
    decreases |els|
  {
    if |els| == 0 then Dispatched(a, false)
    else
      var first := DispatchOne(a, els[0], e, now, library);
      var rest := DispatchAll(first.app, els[1..], e, now, library);
      Dispatched(rest.app, first.handled || rest.handled)
  }

  /** The first pass over a frame's events: a quit event or the Escape key stops the loop. */
  predicate Stops(e: Event) {
    e.Quit? || (e.KeyDown? && e.key == Escape)
  }

  /** Some event of the frame stops the loop. */
  predicate AnyStops(events: seq<Event>) {
    exists j :: 0 <= j < |events| && Stops(events[j])
  }

  /** The first loop of `run` over a frame's events, clearing the running flag on a quit event or
      the Escape key: the loop keeps running exactly when it was and no event of the frame stops it. */
  method StopPass(running: bool, events: seq<Event>) returns (r: bool)
    ensures r == (running && !AnyStops(events))
  {
    r := running;
    var i := 0;
    while i < |events|
      invariant 0 <= i <= |events|
      invariant r == (running && forall j :: 0 <= j < i ==> !Stops(events[j]))
    {
      if events[i].Quit? {
        r := false;
      } else if events[i].KeyDown? && events[i].key == Escape {
        r := false;
      }
      i := i + 1;
    }
  }

  /** The selection block: the topmost sprite under the mouse cursor becomes the selection, replacing
      the previous one, and a press on empty space clears it. */
  function Select(a: App, pos: Point): (r: App)
    requires AppInv(a)
    ensures AppInv(r) && r == a.(selected := r.selected)
    ensures r.selected.None? <==> forall i :: 0 <= i < |a.sprites| ==> !Hit(a.sprites, i, pos)
    ensures r.selected.Some? ==>
              && Hit(a.sprites, r.selected.value, pos)
              && forall j :: r.selected.value < j < |a.sprites| ==> !Hit(a.sprites, j, pos)
  {
    a.(selected := TopmostAt(a.sprites, pos))
  }

  /** A mouse or key event records user activity. */
  function Touched(a: App, now: int): (r: App)
    requires AppInv(a)
    ensures AppInv(r) && r == a.(timer := Touch(a.timer, now))
  {
    a.(timer := Touch(a.timer, now))
  }

  /** The panel, then the selection, for an event that reaches them. */
  function Route(a: App, e: Event, now: int, library: seq<seq<Record>>): (r: App)
    requires AppInv(a) && LibraryOk(library)
    ensures AppInv(r) && r.running == a.running && r.timer == a.timer && r.hovered == a.hovered
    ensures var d := DispatchAll(a, Elements, e, now, library);
            && r == d.app.(selected := r.selected)
            && r.selected == (if !d.handled && e.MouseDown? && e.button == 1
                           then TopmostAt(d.app.sprites, e.pos) else a.selected)
  {
    var d := DispatchAll(a, Elements, e, now, library);
    if !d.handled && e.MouseDown? && e.button == 1 then Select(d.app, e.pos) else d.app
  }

  /** The second pass, for one event. Quit events are skipped; key presses only count as activity
      and never reach the panel; mouse events count as activity. Every event that is neither goes
      through the panel, and a left press no element handled selects the topmost sprite under
      the mouse cursor, or clears the selection. */
  function Deliver(a: App, e: Event, now: int, library: seq<seq<Record>>): (r: App)
    requires AppInv(a) && LibraryOk(library)
    ensures AppInv(r) && r.running == a.running
    ensures e.Quit? ==> r == a
    ensures e.KeyDown? ==> r == a.(timer := Touch(a.timer, now))
    ensures IsMouse(e) || e.KeyDown? ==> r.timer == Touch(a.timer, now)
    ensures !IsMouse(e) && !e.KeyDown? ==> r.timer == a.timer
  {
    if e.Quit? then a
    else if e.KeyDown? then Touched(a, now)
    else if IsMouse(e) then Route(Touched(a, now), e, now, library)
    else Route(a, e, now, library)
  }

  function DeliverAll(a: App, events: seq<Event>, now: int, library: seq<seq<Record>>): (r: App)
    requires AppInv(a) && LibraryOk(library)
    ensures AppInv(r) && r.running == a.running
    decreases |events|
  {
    if |events| == 0 then a else DeliverAll(Deliver(a, events[0], now, library), events[1..], now, library)
  }

  /** `for s in self.sprites: s.update()`. */
  function StepAll(sprites: seq<Sprite>): (r: seq<Sprite>)
    ensures |r| == |sprites| && forall i :: 0 <= i < |r| ==> r[i] == Step(sprites[i])
  {
    seq(|sprites|, i requires 0 <= i < |sprites| => Step(sprites[i]))
  }

  /** The idle check: when due, one axis switches at random and the targets follow. */
  function IdleCheck(a: App, now: int, draw: Draw): (r: App)
    requires AppInv(a) && Spread(draw.picks) && IntervalOk(draw.interval)
    ensures AppInv(r) && r.running == a.running && r.hovered == a.hovered && r.selected == a.selected
    ensures Due(a.timer, now) ==>
              r == UpdateTargets(a.(timer := Timer(a.timer.lastInteraction, now, draw.interval),
                                    axes := AutoSwitch(a.axes, draw.switchX, draw.picks)))
    ensures !Due(a.timer, now) ==> r == a
  {
    SpreadCanPick(a.axes, draw.picks);
    var t := Tick(a.timer, a.axes, now, draw);
    if t.switched then UpdateTargets(a.(timer := t.timer, axes := t.axes)) else a
  }

  /** The hover test on the current rectangles, then one animation step of every sprite. */
  function Animate(a: App, mouse: Point): (r: App)
    requires AppInv(a)
    ensures AppInv(r) && r == a.(hovered := TopmostAt(a.sprites, mouse), sprites := r.sprites)
    ensures |r.sprites| == |a.sprites| && forall i :: 0 <= i < |r.sprites| ==> r.sprites[i] == Step(a.sprites[i])
  {
    a.(hovered := TopmostAt(a.sprites, mouse), sprites := StepAll(a.sprites))
  }

  /** One iteration of the main loop at time `now`, with the mouse cursor at `mouse` and `draw` the
      random choices of an auto-switch. After the two passes over the events comes the idle
      check, then the hover test on the sprites' current rectangles, then one animation step. */
  function Frame(a: App, events: seq<Event>, now: int, mouse: Point, draw: Draw, library: seq<seq<Record>>): (r: App)
    requires AppInv(a) && LibraryOk(library)
    requires Spread(draw.picks) && IntervalOk(draw.interval)
    ensures AppInv(r)
    ensures r.running == (a.running && !AnyStops(events))
  {
    var a1 := DeliverAll(a.(running := a.running && !AnyStops(events)), events, now, library);
    Animate(IdleCheck(a1, now, draw), mouse)
  }

  /** The search field after the copies of it in `els` have handled `e`. */
  function FieldAfter(f: Field, els: seq<Element>, e: Event, now: int): Field
    decreases |els|
  {
    if |els| == 0 then f
    else FieldAfter(if els[0] == Search then HandleEvent(f, e, now).field else f, els[1..], e, now)
  }

  /** Only the search field changes the search field: the buttons' callbacks leave it alone. */
  lemma {:induction false} DispatchAllField(a: App, els: seq<Element>, e: Event, now: int, library: seq<seq<Record>>)
    requires AppInv(a) && LibraryOk(library)
    ensures DispatchAll(a, els, e, now, library).app.field == FieldAfter(a.field, els, e, now)
    decreases |els|
  {
    if |els| > 0 {
      var first := DispatchOne(a, els[0], e, now, library);
      DispatchOneField(a, els[0], e, now, library);
      DispatchAllField(first.app, els[1..], e, now, library);
    }
  }

  /** One element's share of `DispatchAllField`. */
  lemma DispatchOneField(a: App, el: Element, e: Event, now: int, library: seq<seq<Record>>)
    requires AppInv(a) && LibraryOk(library)
    ensures DispatchOne(a, el, e, now, library).app.field
            == if el == Search then HandleEvent(a.field, e, now).field else a.field
  {
  }

  /** The axes after the axis buttons in `els` have handled a press; `xOn` and `yOn` say whether
      each button fires. */
  function AxesAfter(ax: Axes, xOn: bool, yOn: bool, els: seq<Element>): Axes
    decreases |els|
  {
    if |els| == 0 then ax
    else
      var ax' := if els[0] == XButton && xOn then NextX(ax) else if els[0] == YButton && yOn then NextY(ax) else ax;
      AxesAfter(ax', xOn, yOn, els[1..])
  }

  /** For any event but a motion the hover flags stay put, so each copy of an axis button fires
      exactly when the first does, and the font buttons leave the axes alone. */
  lemma {:induction false} DispatchAllAxes(a: App, els: seq<Element>, e: Event, now: int, library: seq<seq<Record>>)
    requires AppInv(a) && LibraryOk(library) && !e.MouseMotion?
    ensures var d := DispatchAll(a, els, e, now, library);
            && d.app.xButton.hovered == a.xButton.hovered && d.app.yButton.hovered == a.yButton.hovered
            && d.app.axes == AxesAfter(a.axes, e.MouseDown? && e.button == 1 && a.xButton.hovered,
                                       e.MouseDown? && e.button == 1 && a.yButton.hovered, els)
    decreases |els|
  {
    if |els| > 0 {
      var first := DispatchOne(a, els[0], e, now, library);
      DispatchOneAxes(a, els[0], e, now, library);
      DispatchAllAxes(first.app, els[1..], e, now, library);
    }
  }

  /** One element's share of `DispatchAllAxes`. */
  lemma DispatchOneAxes(a: App, el: Element, e: Event, now: int, library: seq<seq<Record>>)
    requires AppInv(a) && LibraryOk(library) && !e.MouseMotion?
    ensures var d := DispatchOne(a, el, e, now, library);
            var left := e.MouseDown? && e.button == 1;
            && d.app.xButton.hovered == a.xButton.hovered && d.app.yButton.hovered == a.yButton.hovered
            && d.app.axes == (if el == XButton && left && a.xButton.hovered then NextX(a.axes)
                              else if el == YButton && left && a.yButton.hovered then NextY(a.axes)
                              else a.axes)
  {
  }

  /** The event counts as handled as soon as one element handles it. */
  lemma {:induction false} DispatchAllHandled(a: App, els: seq<Element>, e: Event, now: int, library: seq<seq<Record>>, k: nat)
    requires AppInv(a) && LibraryOk(library) && k < |els|
    requires forall j :: 0 <= j < k ==> els[j] != Search
    requires els[k] == XButton && e.MouseDown? && e.button == 1 && a.xButton.hovered
    ensures DispatchAll(a, els, e, now, library).handled
    decreases |els|
  {
    var first := DispatchOne(a, els[0], e, now, library);
    if k > 0 {
      assert first.app.xButton.hovered == a.xButton.hovered;
      DispatchAllHandled(first.app, els[1..], e, now, library, k - 1);
    }
  }

  /** Neither axis button nor any font button is under the mouse cursor, as far as the hover flags go. */
  predicate ButtonsIdle(a: App) {
    && !a.xButton.hovered && !a.yButton.hovered
    && forall i :: 0 <= i < |a.fontButtons| ==> !a.fontButtons[i].hovered
  }

  /** One element's share of `DispatchAllUnhandled`. */
  lemma DispatchOneUnhandled(a: App, el: Element, pos: Point, now: int, library: seq<seq<Record>>)
    requires AppInv(a) && LibraryOk(library)
    requires ButtonsIdle(a) && !Contains(SearchRect, pos)
    ensures var d := DispatchOne(a, el, MouseDown(1, pos), now, library);
            && !d.handled && ButtonsIdle(d.app) && d.app.sprites == a.sprites
  {
    if el.FontButton? {
      assert !a.fontButtons[el.index].hovered;
    }
    if el == Search && HitsClear(a.field, pos) {
      assert Contains(SearchRect, pos);
    }
  }

  /** A left press on nothing but the background: no element handles it and the sprites stay. */
  lemma {:induction false} DispatchAllUnhandled(a: App, els: seq<Element>, pos: Point, now: int, library: seq<seq<Record>>)
    requires AppInv(a) && LibraryOk(library)
    requires ButtonsIdle(a) && !Contains(SearchRect, pos)
    ensures var d := DispatchAll(a, els, MouseDown(1, pos), now, library);
            && !d.handled && d.app.sprites == a.sprites
    decreases |els|
  {
    if |els| > 0 {
      var first := DispatchOne(a, els[0], MouseDown(1, pos), now, library);
      DispatchOneUnhandled(a, els[0], pos, now, library);
      DispatchAllUnhandled(first.app, els[1..], pos, now, library);
    }
  }

  /** A left press on the background selects the topmost sprite under the mouse cursor, or clears the
      selection when there is none, and counts as activity. */
  lemma BackgroundClickSelects(a: App, pos: Point, now: int, library: seq<seq<Record>>)
    requires AppInv(a) && LibraryOk(library) && ButtonsIdle(a) && !Contains(SearchRect, pos)
    ensures var r := Deliver(a, MouseDown(1, pos), now, library);
            && r.selected == TopmostAt(a.sprites, pos)
            && r.sprites == a.sprites && r.timer.lastInteraction == now
  {
    DispatchAllUnhandled(Touched(a, now), Elements, pos, now, library);
  }

  /** The dispatch list as seen by the axis buttons: X, Y, X, Y. */
  lemma ElementsAxes(ax: Axes)
    ensures AxesAfter(ax, true, false, Elements) == NextX(NextX(ax))
    ensures AxesAfter(ax, false, true, Elements) == NextY(NextY(ax))
  {
  }

  /** The dispatch list as seen by the search field: two copies. */
  lemma ElementsField(f: Field, e: Event, now: int)
    ensures FieldAfter(f, Elements, e, now) == HandleEvent(HandleEvent(f, e, now).field, e, now).field
  {
  }

  /** A mouse event is routed after it has been recorded as activity. */
  lemma DeliverMouse(a: App, e: Event, now: int, library: seq<seq<Record>>)
    requires AppInv(a) && LibraryOk(library) && IsMouse(e)
    ensures Deliver(a, e, now, library) == Route(Touched(a, now), e, now, library)
  {
  }

  /** Because the axis buttons are in the dispatch list twice, one left press on the X button
      advances the X axis twice; the press is handled, so the selection stays. */
  lemma XClickAdvancesTwice(a: App, pos: Point, now: int, library: seq<seq<Record>>)
    requires AppInv(a) && LibraryOk(library) && a.xButton.hovered && !a.yButton.hovered
    ensures var r := Deliver(a, MouseDown(1, pos), now, library);
            && r.axes == NextX(NextX(a.axes)) && r.selected == a.selected
  {
    var e := MouseDown(1, pos);
    var t := Touched(a, now);
    var d := DispatchAll(t, Elements, e, now, library);
    assert d.app.axes == NextX(NextX(a.axes)) by {
      DispatchAllAxes(t, Elements, e, now, library);
      ElementsAxes(t.axes);
    }
    assert d.handled by {
      DispatchAllHandled(t, Elements, e, now, library, 0);
    }
    DeliverMouse(a, e, now, library);
  }

  /** The same for the Y button. */
  lemma YClickAdvancesTwice(a: App, pos: Point, now: int, library: seq<seq<Record>>)
    requires AppInv(a) && LibraryOk(library) && !a.xButton.hovered && a.yButton.hovered
    ensures Deliver(a, MouseDown(1, pos), now, library).axes == NextY(NextY(a.axes))
  {
    var e := MouseDown(1, pos);
    var t := Touched(a, now);
    assert DispatchAll(t, Elements, e, now, library).app.axes == NextY(NextY(a.axes)) by {
      DispatchAllAxes(t, Elements, e, now, library);
      ElementsAxes(t.axes);
    }
    DeliverMouse(a, e, now, library);
  }

  /** The search field is in the dispatch list twice, so each committed fragment reaches it twice
      at the same instant; the debounce drops the second copy and the text grows once. */
  lemma TextInputOnce(a: App, t: string, now: int, library: seq<seq<Record>>)
    requires AppInv(a) && LibraryOk(library) && a.field.focused
    ensures var r := Deliver(a, TextInput(t), now, library);
            && r.field == Commit(a.field, t, now).field && r.selected == a.selected
  {
    var e := TextInput(t);
    var d := DispatchAll(a, Elements, e, now, library);
    assert d.app.field == Commit(a.field, t, now).field by {
      DispatchAllField(a, Elements, e, now, library);
      ElementsField(a.field, e, now);
      CommitTwiceAtOnce(a.field, t, now);
    }
  }

  /** A left press on the live clear button empties the field, then reaches the second copy of the
      field as a press inside it, which turns replace-all mode back on. */
  lemma ClearClickSelectsAll(a: App, pos: Point, now: int, library: seq<seq<Record>>)
    requires AppInv(a) && LibraryOk(library) && a.field.text != "" && Contains(a.field.clearRect, pos)
    ensures var r := Deliver(a, MouseDown(1, pos), now, library);
            && r.field.text == "" && r.field.composition == "" && r.field.focused && r.field.selectAll
  {
    var e := MouseDown(1, pos);
    var t := Touched(a, now);
    var f1 := Click(t.field, 1, pos).field;
    assert f1.text == "" && Contains(SearchRect, pos);
    assert DispatchAll(t, Elements, e, now, library).app.field == Click(f1, 1, pos).field by {
      DispatchAllField(t, Elements, e, now, library);
      ElementsField(t.field, e, now);
    }
    DeliverMouse(a, e, now, library);
  }
}
