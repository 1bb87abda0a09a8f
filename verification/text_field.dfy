/** The search field (`TextInput`): committed text, the input method's composition text, focus,
    the replace-all flag set by a click, and the duplicate-commit filter. */
module TextField {
  import opened Wrappers
  import opened Geometry
  import opened Events

  /** A committed fragment and the time of its commit, in milliseconds. */
  datatype Stamp = Stamp(text: string, time: int)

  /** `lastInput` is `last_input_text`/`last_input_time`, absent until the first commit.
      `lastCommit` is `last_commit_text`/`last_commit_time`, which the handler reads but nothing
      ever assigns. `compStart`/`compLength` are the cursor of the latest composition event. */
  datatype Field = Field(rect: Rect, clearRect: Rect, hovered: bool,
                         text: string, composition: string, compStart: int, compLength: int,
                         focused: bool, selectAll: bool,
                         lastInput: Option<Stamp>, lastCommit: Option<Stamp>)

  /** The result of `handle_event`: the new field and whether the event was consumed. */
  datatype Outcome = Outcome(field: Field, consumed: bool)

  /** Two equal commits closer together than this are one commit delivered twice. */
  const DebounceMs: int := 50

  /** The window of the composition echo filter. */
  const EchoMs: int := 100

  /** A new, empty, unfocused field with its clear button in the right end: a square `h - 10`
      pixels wide, 5 pixels in from the top and right edges. */
  function NewField(x: int, y: int, w: int, h: int): (f: Field)
    ensures f.rect == Rect(x, y, w, h) && f.text == "" && f.composition == ""
    ensures !f.focused && !f.selectAll && !f.hovered && f.lastInput.None? && f.lastCommit.None?
    ensures f.clearRect.width == f.clearRect.height == h - 10
    ensures f.clearRect.left + f.clearRect.width + 5 == x + w && f.clearRect.top == y + 5
  {
    var size := h - 10;
    Field(Rect(x, y, w, h), Rect(x + w - size - 5, y + 5, size, size), false,
          "", "", 0, 0, false, false, None, None)
  }

  /** When the field is at least 10 pixels high and not much narrower than high, the clear button
      lies inside the field: a click on it is also a click on the field. */
  lemma ClearInsideField(x: int, y: int, w: int, h: int, p: Point)
    requires h >= 10 && w >= h - 5
    requires Contains(NewField(x, y, w, h).clearRect, p)
    ensures Contains(NewField(x, y, w, h).rect, p)
  {
  }

  /** The field invariant: only a focused field can be in replace-all mode, and no commit echo is
      ever recorded. */
  predicate Inv(f: Field) {
    (f.selectAll ==> f.focused) && f.lastCommit.None?
  }

  /** `text + composition_text`, or the placeholder when both are empty. */
  function Display(f: Field, placeholder: string): (s: string)
    ensures f.text + f.composition != "" ==> s == f.text + f.composition
    ensures f.text == "" && f.composition == "" ==> s == placeholder
  {
    var full := f.text + f.composition;
    if full != "" then full else placeholder
  }

  /** Python's `s[:-1]`: the last character goes, and the empty string stays empty. */
  function DropLast(s: string): (r: string)
    ensures |s| == 0 ==> r == ""
    ensures |s| > 0 ==> r + [s[|s| - 1]] == s
  {
    if |s| == 0 then s else s[..|s| - 1]
  }

  /** The base class handler: a mouse motion updates `hovered`. */
  function Hover(f: Field, e: Event): (f': Field)
    ensures e.MouseMotion? ==> f' == f.(hovered := Contains(f.rect, e.pos))
    ensures !e.MouseMotion? ==> f' == f
  {
    if e.MouseMotion? then f.(hovered := Contains(f.rect, e.pos)) else f
  }

  /** The clear button is live only while there is committed text. */
  predicate HitsClear(f: Field, pos: Point) {
    f.text != "" && Contains(f.clearRect, pos)
  }

  /** A mouse button press. The left button on a live clear button empties both texts and keeps
      the field focused. Otherwise the left button focuses the field exactly when the press is
      inside it: gaining or keeping focus turns on replace-all, losing it turns replace-all off,
      and the composition survives a loss of focus. Other buttons change nothing. The press is
      consumed exactly when the field ends up focused. */
  function Click(f: Field, button: int, pos: Point): (o: Outcome)
    ensures o.consumed == o.field.focused
    ensures o.field.rect == f.rect && o.field.clearRect == f.clearRect && o.field.hovered == f.hovered
    ensures o.field.lastInput == f.lastInput && o.field.lastCommit == f.lastCommit
    ensures button != 1 ==> o.field == f
    ensures button == 1 && HitsClear(f, pos) ==>
              && o.field.text == "" && o.field.composition == ""
              && o.field.focused && !o.field.selectAll
    ensures button == 1 && !HitsClear(f, pos) ==>
              && o.field.text == f.text && o.field.composition == f.composition
              && o.field.focused == Contains(f.rect, pos)
              && (o.field.focused ==> o.field.selectAll)
              && (!o.field.focused ==> o.field.selectAll == (f.selectAll && !f.focused))
  {
    if button != 1 then Outcome(f, f.focused)
    else if HitsClear(f, pos) then
      Outcome(f.(text := "", composition := "", focused := true, selectAll := false), true)
    else if Contains(f.rect, pos) then
      Outcome(f.(focused := true, selectAll := true), true)
    else if f.focused then
      Outcome(f.(focused := false, selectAll := false), false)
    else
      Outcome(f.(focused := false), false)
  }

  /** A key press while focused. Backspace in replace-all mode empties the committed text;
      otherwise it removes the last character of the composition if there is one, else of the
      committed text. Return ends replace-all mode. Other keys change nothing. */
  function Press(f: Field, k: Key): (f': Field)
    ensures f'.focused == f.focused && f'.lastInput == f.lastInput && f'.lastCommit == f.lastCommit
    ensures f'.rect == f.rect && f'.clearRect == f.clearRect && f'.hovered == f.hovered
    ensures k == Backspace && f.selectAll ==>
              f'.text == "" && !f'.selectAll && f'.composition == f.composition
    ensures k == Backspace && !f.selectAll && f.composition != "" ==>
              f'.text == f.text && !f'.selectAll
              && f'.composition + [f.composition[|f.composition| - 1]] == f.composition
    ensures k == Backspace && !f.selectAll && f.composition == "" ==>
              f'.composition == "" && f'.text == DropLast(f.text) && !f'.selectAll
    ensures k == Return ==> f' == f.(selectAll := false)
    ensures k != Backspace && k != Return ==> f' == f
  {
    match k
    case Backspace =>
      if f.selectAll then f.(text := "", selectAll := false)
      else if |f.composition| > 0 then f.(composition := DropLast(f.composition))
      else f.(text := DropLast(f.text))
    case Return => f.(selectAll := false)
    case _ => f
  }

  /** The same fragment was committed less than `DebounceMs` ago. */
  predicate Duplicate(f: Field, t: string, now: int) {
    f.lastInput.Some? && f.lastInput.value.text == t && now - f.lastInput.value.time < DebounceMs
  }

  /** The fragments the field refuses to insert. */
  predicate IsControl(t: string) {
    t == "\r" || t == "\n" || t == "\t"
  }

  /** The field after the replace-all flag, if set, has been consumed. */
  function Unselect(f: Field): (f': Field)
    ensures !f'.selectAll
    ensures f.selectAll ==> f' == f.(text := "", selectAll := false)
    ensures !f.selectAll ==> f' == f
  {
    if f.selectAll then f.(text := "", selectAll := false) else f
  }

  /** A `TEXTINPUT` while focused, always consumed. Replace-all mode is consumed first, emptying the
      committed text even when the fragment is then dropped. A duplicate fragment and a control
      fragment are dropped; any other fragment is appended, ends the composition and is recorded
      with its time. */
  function Commit(f: Field, t: string, now: int): (o: Outcome)
    ensures o.consumed && !o.field.selectAll
    ensures Duplicate(f, t, now) || IsControl(t) ==> o.field == Unselect(f)
    ensures !Duplicate(f, t, now) && !IsControl(t) ==>
              && o.field.text == Unselect(f).text + t && o.field.composition == ""
              && o.field.lastInput == Some(Stamp(t, now))
              && o.field == Unselect(f).(text := o.field.text, composition := "", lastInput := o.field.lastInput)
  {
    var g := Unselect(f);
    if Duplicate(f, t, now) || IsControl(t) then Outcome(g, true)
    else Outcome(g.(text := g.text + t, composition := "", lastInput := Some(Stamp(t, now))), true)
  }

  /** The composition `t` repeats the fragment committed less than `EchoMs` ago, so it is taken
      for an echo of that commit. */
  predicate Echo(f: Field, t: string, now: int) {
    f.lastCommit.Some? && f.lastCommit.value.text != "" && t == f.lastCommit.value.text
    && now - f.lastCommit.value.time < EchoMs
  }

  /** A `TEXTEDITING` while focused, always consumed. Replace-all mode is consumed first. An echo
      of the last commit clears the composition; any other composition replaces it verbatim,
      together with its cursor. */
  function Compose(f: Field, t: string, start: int, length: int, now: int): (f': Field)
    ensures !f'.selectAll && f'.text == Unselect(f).text && f'.lastInput == f.lastInput
    ensures f'.focused == f.focused && f'.rect == f.rect && f'.clearRect == f.clearRect
    ensures f'.lastCommit == f.lastCommit && f'.hovered == f.hovered
    ensures Echo(f, t, now) ==> f'.composition == ""
    ensures !Echo(f, t, now) ==> f'.composition == t && f'.compStart == start && f'.compLength == length
  {
    var g := Unselect(f);
    if Echo(f, t, now) then g.(composition := "")
    else g.(composition := t, compStart := start, compLength := length)
  }

  /** `TextInput.handle_event` at time `now`: the hover update of the base class, then the press,
      key, commit and composition branches. Keys, commits and compositions reach an unfocused
      field but change nothing there. */
  function HandleEvent(f: Field, e: Event, now: int): (o: Outcome)
    ensures e.MouseDown? ==> o == Click(f, e.button, e.pos)
    ensures e.KeyDown? ==> !o.consumed && o.field == (if f.focused then Press(f, e.key) else f)
    ensures e.TextInput? ==> o == (if f.focused then Commit(f, e.text, now) else Outcome(f, false))
    ensures e.TextEditing? ==>
              o == (if f.focused then Outcome(Compose(f, e.text, e.start, e.length, now), true) else Outcome(f, false))
    ensures e.MouseMotion? ==> o == Outcome(f.(hovered := Contains(f.rect, e.pos)), false)
    ensures e.Quit? || e.MouseUp? || e.OtherEvent? ==> o == Outcome(f, false)
  {
    var g := Hover(f, e);
    match e
    case MouseDown(button, pos) => Click(g, button, pos)
    case KeyDown(k) => Outcome(if g.focused then Press(g, k) else g, false)
    case TextInput(t) => if g.focused then Commit(g, t, now) else Outcome(g, false)
    case TextEditing(t, start, length) =>
      if g.focused then Outcome(Compose(g, t, start, length, now), true) else Outcome(g, false)
    case _ => Outcome(g, false)
  }

  /** Every event keeps the field invariant, the field's rectangles and, apart from a press on a
      live clear button, the committed text is only changed by the focused field. */
  lemma HandleKeepsInv(f: Field, e: Event, now: int)
    requires Inv(f)
    ensures Inv(HandleEvent(f, e, now).field)
    ensures HandleEvent(f, e, now).field.rect == f.rect
    ensures HandleEvent(f, e, now).field.clearRect == f.clearRect
    ensures !f.focused && !(e.MouseDown? && e.button == 1 && HitsClear(f, e.pos)) ==>
              HandleEvent(f, e, now).field.text == f.text
  {
  }

  /** The echo filter never fires: with no commit echo ever recorded, a composition event on a
      focused field always shows the event's text. */
  lemma EchoFilterDead(f: Field, t: string, start: int, length: int, now: int)
    requires Inv(f) && f.focused
    ensures HandleEvent(f, TextEditing(t, start, length), now).field.composition == t
    ensures HandleEvent(f, TextEditing(t, start, length), now).consumed
  {
  }

  /** A commit delivered twice at the same instant has the effect of one commit. */
  lemma CommitTwiceAtOnce(f: Field, t: string, now: int)
    ensures Commit(Commit(f, t, now).field, t, now) == Commit(f, t, now)
  {
    var g := Commit(f, t, now).field;
    if !Duplicate(f, t, now) && !IsControl(t) {
      assert Duplicate(g, t, now);
    }
  }

  /** Once the debounce window has passed, the same fragment is appended again. */
  lemma CommitAgainLater(f: Field, t: string, now: int, later: int)
    requires !IsControl(t) && !Duplicate(f, t, now) && later - now >= DebounceMs
    ensures Commit(Commit(f, t, now).field, t, later).field.text == Unselect(f).text + t + t
  {
  }

  /** Backspace undoes the commit of a single character when nothing is being composed. */
  lemma BackspaceUndoesCommit(f: Field, c: char, now: int)
    requires !f.selectAll && !IsControl([c]) && !Duplicate(f, [c], now)
    ensures Press(Commit(f, [c], now).field, Backspace).text == f.text
  {
    var g := Commit(f, [c], now).field;
    assert g.text == f.text + [c];
    assert DropLast(g.text) == f.text by {
      assert g.text[..|g.text| - 1] == f.text;
    }
  }

  /** A field as the application creates it: at (30, 120), 300 by 40 pixels. */
  function SearchField(): (f: Field)
    ensures f.rect == Rect(30, 120, 300, 40) && f.clearRect == Rect(295, 125, 30, 30)
    ensures Inv(f) && !f.focused && f.text == ""
  {
    NewField(30, 120, 300, 40)
  }

  /** The search field focused by a click, with `text` committed and `last` the latest commit. */
  function Typed(text: string, last: Option<Stamp>): (f: Field)
    ensures f.focused && !f.selectAll && f.text == text && f.composition == "" && f.lastInput == last
  {
    SearchField().(focused := true, text := text, lastInput := last)
  }

  /** The first two steps of `TypingScenario`: the click and the first commit. */
  lemma FocusAndCommit(t: int)
    ensures HandleEvent(SearchField(), MouseDown(1, Point(100, 130)), t).field
            == SearchField().(focused := true, selectAll := true)
    ensures HandleEvent(SearchField().(focused := true, selectAll := true), TextInput("猫"), t + 100).field
            == Typed("猫", Some(Stamp("猫", t + 100)))
  {
  }

  /** The second commit, its duplicate, and the backspace of `TypingScenario`. */
  lemma CommitTwiceThenErase(t: int)
    ensures HandleEvent(Typed("猫", Some(Stamp("猫", t + 100))), TextInput("犬"), t + 200).field
            == Typed("猫犬", Some(Stamp("犬", t + 200)))
    ensures HandleEvent(Typed("猫犬", Some(Stamp("犬", t + 200))), TextInput("犬"), t + 210).field
            == Typed("猫犬", Some(Stamp("犬", t + 200)))
    ensures HandleEvent(Typed("猫犬", Some(Stamp("犬", t + 200))), KeyDown(Backspace), t + 300).field
            == Typed("猫", Some(Stamp("犬", t + 200)))
  {
    assert "猫" + "犬" == "猫犬";
    assert DropLast("猫犬") == "猫";
  }

  /** Focus, commit "猫", the same commit "犬" twice in quick succession, then backspace, with the
      click at any time `t`; the field shows the same whatever its placeholder. */
  lemma TypingScenario(t: int, placeholder: string)
    ensures
      var f0 := SearchField();
      var f1 := HandleEvent(f0, MouseDown(1, Point(100, 130)), t).field;
      var f2 := HandleEvent(f1, TextInput("猫"), t + 100).field;
      var f3 := HandleEvent(f2, TextInput("犬"), t + 200).field;
      var f4 := HandleEvent(f3, TextInput("犬"), t + 210).field;
      var f5 := HandleEvent(f4, KeyDown(Backspace), t + 300).field;
      && f1.focused && f1.selectAll
      && Display(f2, placeholder) == "猫" && !f2.selectAll
      && Display(f4, placeholder) == "猫犬"
      && Display(f5, placeholder) == "猫"
  {
    FocusAndCommit(t);
    CommitTwiceThenErase(t);
  }

  /** Focus over existing text, compose "ねこ" (the click's replace-all empties the text), then
      commit "猫", which ends the composition. */
  lemma ComposingScenario(prior: string)
    requires prior != ""
    ensures
      var f0 := SearchField().(text := prior);
      var f1 := HandleEvent(f0, MouseDown(1, Point(40, 150)), 500).field;
      var f2 := HandleEvent(f1, TextEditing("ねこ", 2, 0), 600).field;
      var f3 := HandleEvent(f2, TextInput("猫"), 700).field;
      && f1.selectAll && f1.text == prior
      && f2.composition == "ねこ" && f2.text == "" && !f2.selectAll
      && f3.text == "猫" && f3.composition == ""
  {
  }
}
