# Kanji layout visualizer — a Dafny model of its core

`kanji_visualizer.py` shows a few hundred kanji as sprites on a scatter plot. Each character has
twelve shape metrics (stroke ratios, density, centre of gravity, skeleton length, holes, …). The
two axes of the plot show two of these metrics. An axis button moves its axis to the next metric.
After ten seconds without input the program switches one axis at random every 350–800 ms. The
sprites glide towards their new places by exponential smoothing.

A click on a sprite selects it and draws its "constellation": the sprites of its component
characters and of the characters it is a component of. A search field with input-method support
highlights the sprites whose character occurs in its text. A grid of six font buttons reloads the
metrics from another dataset.

This project models the deterministic core of that program in Dafny:

- the metric list and the axis pair (`MetricKeys`, `AxisControl`);
- the idle auto-switch timer (`IdleTimer`);
- range building and the layout transform (`MetricData`, `Layout`);
- sprites and their animation (`Sprites`);
- hit testing (`Picking`) and the related set (`Related`);
- the search field's event handler (`TextField`), the push buttons (`Buttons`), and the events
  they consume (`Events`);
- the application state with one frame of the main loop (`Application`).

Integer rectangles follow pygame's half-open `collidepoint`. Positions and metric values are
`real`. Python's `int()` truncation of the animated position is written out (`Geometry.Trunc`),
as is the truncating halving pygame uses for a rectangle's centre (`Geometry.Half`). Randomness
enters as parameters:

- the coin of `auto_switch_axis`;
- the stream of `random.choice` draws;
- the next interval, within [350, 800];
- the start positions of the sprites.

The clock is one `now` per frame. File contents arrive as sequences of records and a map of
relationships.

Behaviour of the code that the model keeps on purpose:

- **Double dispatch.** `create_ui` puts the X button, the Y button and the search field into
  `ui_elements` twice (lines 569 and 571). The dispatch loop gives every event to every element
  and does not stop at the first one that handles it. So one press on an axis button advances
  that axis twice (`Application.XClickAdvancesTwice`). The search field also sees every event
  twice: a committed fragment is appended once, because the 50 ms duplicate filter drops the
  second copy (`Application.TextInputOnce`). A press on the clear button empties the field, and
  then the second copy sees a press inside the field and turns replace-all mode back on
  (`Application.ClearClickSelectsAll`).
- **Keys never reach the field.** The main loop consumes every `KEYDOWN` before dispatch, so
  Backspace and Return in `TextInput.handle_event` cannot be reached from the loop. `Deliver`
  states this, and `TextField.Press` still models the branch.
- **The composition echo filter cannot fire.** It reads `last_commit_text`, which is never
  assigned (`TextField.EchoFilterDead`).
- **Range recomputation always uses the first dataset.** `load_font` recomputes the range table
  from `raw_data`, which is assigned only on the first load. `change_font` then overrides
  density (nudged by 0.001 when empty) and the two centre-of-gravity ranges (not nudged, so they
  can be empty: `MetricData.CogRangeCanBeEmpty`). The layout guard in `update_targets` widens
  such a range before dividing.

## Model

| member | source | states |
|---|---|---|
| MetricKeys.IndexOf | kanji_visualizer.py:75-88 | `METRICS.index(m)`: the one position of the list that holds `m` |
| MetricKeys.IndexOfInverse | kanji_visualizer.py:75-88 | every metric is listed exactly once, so position and index agree both ways |
| AxisControl.Cycle | kanji_visualizer.py:604-628 | one press moves to the metric after the current one, wrapping from the last to the first; when that is the other axis's metric it moves one further; the result differs from both |
| AxisControl.NextX | kanji_visualizer.py:604-615 | `next_x` changes only the X axis, to the next metric in the cycle that the Y axis does not show, and the axes stay distinct |
| AxisControl.NextY | kanji_visualizer.py:617-628 | `next_y` changes only the Y axis, to the next metric in the cycle that the X axis does not show, and the axes stay distinct |
| AxisControl.CycleAdvancesRank | kanji_visualizer.py:604-615 | among the eleven metrics the other axis does not show, a press advances the position by one, wrapping after the last |
| AxisControl.CycleReturnsAfterEleven | kanji_visualizer.py:604-615 | eleven presses of one axis button bring the axis back to where it started |
| AxisControl.CycleReachesEveryMetric | kanji_visualizer.py:604-615 | every metric the other axis does not show is reached within ten presses |
| AxisControl.FirstFresh | kanji_visualizer.py:634-637 | the retry loop stops at the first draw that differs from both axes; every earlier draw clashes |
| AxisControl.AutoSwitch | kanji_visualizer.py:630-650 | the coin picks one axis; only that axis changes, to the first drawn metric that differs from both current ones; the axes stay distinct |
| AxisControl.SpreadCanPick | kanji_visualizer.py:634-645 | three pairwise different draws always include a usable one, so the retry loop ends within them |
| IdleTimer.Start | kanji_visualizer.py:441-444 | the timer starts with the interaction time `now`, no auto-switch yet (time 0) and the drawn interval, which lies in [350, 800] |
| IdleTimer.Touch | kanji_visualizer.py:751-759 | a key press or mouse event moves only the interaction time, to `now`; the auto-switch record and interval are kept |
| IdleTimer.Tick | kanji_visualizer.py:783-791 | a switch happens exactly when both strict comparisons hold; it records `now`, draws a new interval in [350, 800] and switches one axis; otherwise nothing changes |
| IdleTimer.QuietAfterInteraction | kanji_visualizer.py:786 | for ten seconds after an interaction no switch happens |
| IdleTimer.SwitchesSpaced | kanji_visualizer.py:787-791 | two consecutive switches are more than 350 ms apart |
| IdleTimer.IdleRunState | kanji_visualizer.py:783-791 | over any run of idle frames the axes stay distinct, and the timer's interval and every interval drawn at a switch lie in [350, 800] |
| IdleTimer.IdleRunTimer | kanji_visualizer.py:783-791 | an idle run without a switch leaves the timer as it was; after switches the timer holds the time of the last one and the interval drawn then |
| IdleTimer.IdleRunSpaced | kanji_visualizer.py:783-791 | over any run of idle frames every switch comes after the idle timeout; the first comes more than the pending interval after the previous switch; each later one comes more than the interval drawn at the switch before it, so more than 350 ms after it |
| MetricData.NudgedRange | kanji_visualizer.py:527-535 | the minimum and maximum of the values; a single repeated value gets the range [v, v + 0.001] |
| MetricData.PlainRange | kanji_visualizer.py:695-698 | the minimum and maximum of the values, with no widening |
| MetricData.ComputeRanges | kanji_visualizer.py:523-535 | an empty dataset fails; a dataset where a record lacks one of the first record's metrics fails; otherwise each metric of the first record gets the minimum and maximum of its column, the maximum raised by 0.001 when the two are equal, so the range is non-empty and brackets every record's value |
| MetricData.ReloadRanges | kanji_visualizer.py:686-698 | after a font change density gets the minimum and maximum of the current values, the maximum raised by 0.001 only when all values are equal; the centre-of-gravity metrics get the plain minimum and maximum, both attained; every other range is kept |
| MetricData.CogRangeCanBeEmpty | kanji_visualizer.py:695-698 | when every sprite carries the same density and centre of gravity, the centre-of-gravity ranges are single points while the density range is widened by 0.001 |
| Layout.Guard | kanji_visualizer.py:709-711 | an empty or inverted range is widened to 0.001 before the division; a proper range is kept |
| Layout.Unit | kanji_visualizer.py:726-732 | the normalised position of a value in its guarded range always lies in [0, 1] |
| Layout.Clamp01 | kanji_visualizer.py:731-732 | the clamp lands in [0, 1] and is the identity there |
| Layout.ScreenX | kanji_visualizer.py:726-732 | `target_x`: on a window at least 120 pixels wide it lies in [60, w − 60], whatever the value |
| Layout.ScreenY | kanji_visualizer.py:733-738 | `target_y`: on a window at least 120 pixels high it lies in [60, h − 60], whatever the value |
| Layout.ScreenXInArea | kanji_visualizer.py:705-738 | on a window at least 120 pixels wide, `target_x` lies in [60, w − 60] for any value, in range or not |
| Layout.ScreenYInArea | kanji_visualizer.py:705-738 | on a window at least 120 pixels high, `target_y` lies in [60, h − 60] for any value |
| Layout.ScreenXMonotone | kanji_visualizer.py:705-738 | `target_x` never decreases as the X metric grows |
| Layout.ScreenYAntitone | kanji_visualizer.py:733-738 | `target_y` never increases as the Y metric grows: the flip puts large values at the top |
| Layout.EdgesOfArea | kanji_visualizer.py:726-738 | values at or below the range's low end go to the left and bottom edges; values at or above the high end go to the right and top edges |
| Layout.ScreenXRoundTrip | kanji_visualizer.py:726-737 | inside the range, the horizontal transform can be inverted: the value is recovered from `target_x` |
| Sprites.Box | kanji_visualizer.py:152-153 | the rectangle is centred on the truncated position and keeps the glyph's size |
| Sprites.NewSprite | kanji_visualizer.py:107-141 | a new sprite is at rest at its start position, with its rectangle centred there |
| Sprites.Step | kanji_visualizer.py:143-153 | one `update` keeps the target, character and metrics, and multiplies the remaining distance on each axis by exactly 0.92 |
| Sprites.StepShrinks | kanji_visualizer.py:143-150 | the distance to the target never grows, keeps its sign, and is zero after a step only if it was zero before |
| Sprites.StepsGapX | kanji_visualizer.py:143-150 | after n frames the horizontal distance is 0.92ⁿ times the initial one |
| Sprites.StepsGapY | kanji_visualizer.py:143-150 | after n frames the vertical distance is 0.92ⁿ times the initial one |
| Sprites.StepsFixTarget | kanji_visualizer.py:143-150 | any number of frames leaves the character, the metrics and the target alone |
| Sprites.KeepBound | kanji_visualizer.py:64 | 0.92ⁿ · (1 + 0.08·n) ≤ 1: the smoothing factor shrinks at least as fast as 1 / (1 + 0.08·n) |
| Sprites.Converges | kanji_visualizer.py:143-153 | when the initial distance on each axis is at most 0.08·n·ε, it is at most ε after n frames |
| Sprites.Retarget | kanji_visualizer.py:705-738 | each sprite's new target is the transform of its two axis metrics; its position, rectangle and metrics stay, so the change is animated |
| Sprites.RetargetInArea | kanji_visualizer.py:705-738 | on a window at least 120 pixels each way, every new target lies inside the padded plot area |
| Sprites.SpriteIndex | kanji_visualizer.py:521 | `sprite_map` maps exactly the characters on screen, each to the last sprite with that character |
| Sprites.ByChar | kanji_visualizer.py:506 | `new_data_map` maps exactly the characters of the new dataset, each to the metrics of its last record |
| Sprites.Refresh | kanji_visualizer.py:505-511 | a sprite whose character is in the new dataset takes those metrics; any other sprite keeps its own; nothing else changes |
| Picking.TopmostAt | kanji_visualizer.py:771-780 | the hit test returns `None` exactly when no rectangle contains the point; otherwise it returns a sprite whose rectangle contains it, and no later sprite's does |
| Picking.ScanTopmost | kanji_visualizer.py:796-800 | the backward scan that stops at the first hit computes the hit test |
| Picking.TopmostUnique | kanji_visualizer.py:771-780 | a hit with no later hit is the answer, so the answer is unique |
| Picking.LaterWins | kanji_visualizer.py:796-800 | where two rectangles overlap, the sprite drawn later wins |
| Picking.TopmostAppend | kanji_visualizer.py:771-780 | a sprite added on top is found exactly when its own rectangle contains the point; otherwise the answer is unchanged |
| Picking.TopmostByBoxes | kanji_visualizer.py:776 | only the rectangles matter: two lists with the same rectangles give the same answer |
| Related.RelatedNodes | kanji_visualizer.py:836-861 | the set is empty with no selection or when the selected character has no relationship entry; otherwise it holds exactly the selection and the `sprite_map` images of the listed parents and children |
| Related.AddPresent | kanji_visualizer.py:850-861 | a node is added exactly when some listed key has a sprite and `sprite_map` sends that key to the node; missing keys are skipped |
| Related.RelatedOnScreen | kanji_visualizer.py:836-861 | every related node is a sprite on screen, and the selection is in its own set exactly when its character has an entry |
| Related.RelatedChars | kanji_visualizer.py:836-861 | the characters shown as related are exactly the selected one and the listed parents and children that have a sprite; dangling keys are dropped |
| TextField.NewField | kanji_visualizer.py:238-248 | a new field is empty and unfocused, and its clear button is a square `h − 10` wide, 5 pixels in from the top and right edges |
| TextField.Hover | kanji_visualizer.py:197-200 | a motion sets the hover flag to whether the mouse cursor is in the field; any other event leaves the field alone |
| TextField.ClearInsideField | kanji_visualizer.py:246-248 | for a field at least 10 pixels high and not much narrower than it is high, the clear button lies inside the field |
| TextField.Display | kanji_visualizer.py:359-360 | the committed text followed by the composition, or the placeholder when both are empty |
| TextField.DropLast | kanji_visualizer.py:294-297 | `s[:-1]` removes the last character and leaves the empty string empty |
| TextField.Click | kanji_visualizer.py:253-284 | a left press on a live clear button empties both texts and keeps focus without replace-all; otherwise focus follows whether the press is inside; gaining or keeping focus sets replace-all and losing it clears it; other buttons change nothing; the press is consumed exactly when the field ends focused |
| TextField.Press | kanji_visualizer.py:287-303 | Backspace in replace-all mode empties the text and ends the mode; otherwise it removes the last composition character and keeps the text, or removes the last text character when there is no composition; Return only ends replace-all; other keys change nothing |
| TextField.Commit | kanji_visualizer.py:305-325 | replace-all is consumed first, even when the fragment is dropped; a duplicate within 50 ms and `\r`, `\n`, `\t` are dropped; any other fragment is appended, ends the composition and is recorded with its time |
| TextField.Compose | kanji_visualizer.py:327-346 | replace-all is consumed first; a composition that repeats a non-empty commit made less than 100 ms earlier clears the composition; every other composition becomes the event's text, with its cursor; the commit record, focus and hover are kept |
| TextField.HandleEvent | kanji_visualizer.py:250-348 | the hover update, then the press, key, commit and composition branches; keys are never consumed, and an unfocused field ignores keys, commits and compositions |
| TextField.HandleKeepsInv | kanji_visualizer.py:250-348 | every event keeps replace-all mode confined to a focused field and leaves the rectangles alone; an unfocused field's text changes only through the clear button |
| TextField.EchoFilterDead | kanji_visualizer.py:334-340 | because `last_commit_text` is never assigned, a composition event always shows its text |
| TextField.CommitTwiceAtOnce | kanji_visualizer.py:310-314 | the same commit delivered twice at one instant has the effect of one commit |
| TextField.CommitAgainLater | kanji_visualizer.py:310-325 | once 50 ms have passed the same fragment is appended again |
| TextField.BackspaceUndoesCommit | kanji_visualizer.py:287-325 | Backspace after committing one character restores the previous text |
| TextField.TypingScenario | kanji_visualizer.py:250-325 | starting at any time: focus, commit 猫, commit 犬 twice within 10 ms, then Backspace; the field shows 猫, then 猫犬, then 猫, whatever its placeholder |
| TextField.ComposingScenario | kanji_visualizer.py:253-346 | a press on a field with text sets replace-all; the first composition then empties the text; the commit ends the composition |
| Buttons.HandleButton | kanji_visualizer.py:197-216 | motion updates the hover flag; a press fires exactly when it is the left button and the latest motion left the mouse cursor over the button |
| Buttons.FontButtonRect | kanji_visualizer.py:575-594 | font button i sits in column i mod 2 and row i div 2 of a grid of 145×35 cells with 10-pixel column and 5-pixel row gaps, starting at (30, 170) |
| Buttons.FontButtonsDisjoint | kanji_visualizer.py:575-594 | no point lies on two font buttons |
| Buttons.PanelDisjoint | kanji_visualizer.py:554-594 | the axis buttons, the search field and the font buttons do not overlap |
| Application.Init | kanji_visualizer.py:424-547 | loading fails on an empty or incomplete dataset; otherwise the invariant holds and the state is the fresh panel with targets set |
| Application.Launch | kanji_visualizer.py:424-452 | the fresh application: running, first preset, initial axes, no selection or hover, unfocused field, timer started, ranges computed from the dataset |
| Application.Place | kanji_visualizer.py:107-141 | one sprite per record, in order, at rest, with the record's character and metrics and its rectangle centred on its start position |
| Application.InitPlacesSprites | kanji_visualizer.py:537-547 | after loading, every sprite is at its start position, with its target inside the plot area |
| Application.UpdateTargets | kanji_visualizer.py:705-738 | every target is the layout of its sprite's metrics on the current axes and ranges; nothing else changes, and the application invariant is kept |
| Application.ChangeFont | kanji_visualizer.py:674-703 | choosing the current preset changes nothing; otherwise only the font index, the ranges and each sprite's metrics and target change; the ranges are those of the first dataset overridden from the new metrics, and every target is the layout of its sprite's new metrics in the new ranges |
| Application.PressX | kanji_visualizer.py:604-615 | the X button's callback keeps the invariant and moves only the X axis |
| Application.PressY | kanji_visualizer.py:617-628 | the Y button's callback keeps the invariant and moves only the Y axis |
| Application.DispatchOne | kanji_visualizer.py:763-765 | one element's handler, with each button firing its callback; the selection, hover, timer and running flag are left alone |
| Application.DispatchAll | kanji_visualizer.py:761-765 | every element sees the event whatever earlier ones did, and the invariant holds throughout |
| Application.DispatchAllField | kanji_visualizer.py:761-765 | the buttons' callbacks never touch the search field: after dispatch it is what the search elements alone make of the event |
| Application.DispatchAllAxes | kanji_visualizer.py:761-765 | for any event but a motion, the hover flags stay, and every X copy advances the X axis and every Y copy the Y axis exactly when a left press finds that button hovered |
| Application.DispatchAllHandled | kanji_visualizer.py:761-768 | a left press on a hovered X button counts as handled, whatever the elements after it do |
| Application.DispatchAllUnhandled | kanji_visualizer.py:761-768 | with no button hovered, a left press outside the search field is handled by no element and leaves the sprites alone |
| Application.DeliverAll | kanji_visualizer.py:750-780 | delivering a frame's events one by one keeps the invariant and never changes the running flag |
| Application.Select | kanji_visualizer.py:771-780 | the selection is replaced by the topmost sprite under the press, or cleared when there is none; it never accumulates |
| Application.Touched | kanji_visualizer.py:751-759 | recording an interaction changes only the timer's interaction time |
| Application.Route | kanji_visualizer.py:761-780 | an event handled by any element leaves the selection alone; an unhandled left press replaces it with the hit-test result |
| Application.Deliver | kanji_visualizer.py:750-780 | quit events are skipped; key presses only record activity and reach no element; mouse events record activity; the invariant and the running flag are kept |
| Application.IdleCheck | kanji_visualizer.py:783-791 | when the timer is due, the timer records the switch time and the newly drawn interval, one axis switches at random, and every target is recomputed for the new axes, with nothing else changed; otherwise nothing changes |
| Application.Animate | kanji_visualizer.py:796-804 | hovering is decided on the rectangles before the frame's animation step, and then every sprite takes one step |
| Application.StepAll | kanji_visualizer.py:803-804 | every sprite takes exactly one animation step, in place, and none is added or lost |
| Application.Stops | kanji_visualizer.py:745-748 | an event stops the loop when it is a quit event or a press of Escape |
| Application.AnyStops | kanji_visualizer.py:743-748 | some event of the frame stops the loop |
| Application.StopPass | kanji_visualizer.py:741-748 | the first loop over a frame's events leaves the loop running exactly when it was running and no event of the frame is a quit event or an Escape press |
| Application.Frame | kanji_visualizer.py:740-804 | a frame keeps the invariant; the loop keeps running exactly when it was and no quit event or Escape key arrived |
| Application.BackgroundClickSelects | kanji_visualizer.py:771-780 | with no button hovered and outside the search field, a left press selects the topmost sprite under it, or clears the selection |
| Application.XClickAdvancesTwice | kanji_visualizer.py:569-571 | with the X button hovered, one left press advances the X axis twice and keeps the selection |
| Application.YClickAdvancesTwice | kanji_visualizer.py:569-571 | with the Y button hovered, one left press advances the Y axis twice |
| Application.TextInputOnce | kanji_visualizer.py:305-314 | a fragment committed to the focused field changes it exactly as one commit does, although the field sees it twice |
| Application.ClearClickSelectsAll | kanji_visualizer.py:253-272 | a left press on the live clear button leaves the field empty, focused and in replace-all mode |

## Left out

- Rendering: every `draw*` method, the tooltip and the info panel, the search highlight, and the
  hiding of the panel while idle. These are pixel output with no state of their own.
- Glyph rendering and scaling in `KanjiSprite.__init__` and `reload_image`. A sprite's width is
  a parameter and its height is the fixed 24 pixels. A font change keeps each sprite's size,
  although `reload_image` may give the new glyph a different width.
- Sprite colour (lines 119-122): styling with no stated contract.
- Input-method control (`set_ime_mode`, `start_text_input`, `stop_text_input`,
  `set_text_input_rect`): calls into the host system.
- File I/O: font lookup, JSON parsing and `load_relationships`. Datasets are given as sequences
  of records, and relationships as a map.
- Randomness: the coin, the draws, the intervals and the start positions are parameters.
  Their distribution is not modelled.
- Frame pacing (`clock.tick(60)`) and the event queue. A frame's events are a sequence, and
  `pygame.time.get_ticks()` gives one `now` for the whole frame. The text field's debounce
  therefore sees both copies of a doubled event at the same instant.
- Floating point: positions and metric values are `real`, so rounding is not modelled.
- The composition cursor (`composition_start`, `composition_length`) is stored but nothing reads it.
- Button labels (`get_label`) are display text.
- Key repeat (`pygame.key.set_repeat`, line 434) is a setting of the event source. Repeated keys arrive as ordinary key events.
- Application.Init: the program reads the first record's metric keys and fails later, with a
  `KeyError`, only when a missing metric is actually read. The model refuses a record without
  all twelve metrics at load time (`MissingMetric`), and refuses an empty dataset
  (`EmptyDataset`), where the program raises an `IndexError`.
- Application.ChangeFont: the metric file of every preset is assumed to carry all twelve
  metrics for every record.
