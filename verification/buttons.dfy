/** The push buttons of the control panel: the two axis buttons and the grid of font buttons. */
module Buttons {
  import opened Geometry
  import opened Events

  /** A `Button`: its rectangle and the hover flag kept by the last mouse motion. */
  datatype Button = Button(rect: Rect, hovered: bool)

  datatype Pressed = Pressed(button: Button, fired: bool)

  /** `Button.handle_event`: a motion updates the hover flag; a press of the left button fires the
      callback exactly when the flag says the mouse cursor is over the button. The flag is not
      refreshed by the press itself, so a press fires on the strength of the latest motion. */
  function HandleButton(b: Button, e: Event): (p: Pressed)
    ensures p.button.rect == b.rect
    ensures e.MouseMotion? ==> p.button.hovered == Contains(b.rect, e.pos) && !p.fired
    ensures !e.MouseMotion? ==> p.button.hovered == b.hovered
    ensures p.fired <==> e.MouseDown? && e.button == 1 && b.hovered
  {
    var b' := if e.MouseMotion? then b.(hovered := Contains(b.rect, e.pos)) else b;
    Pressed(b', e.MouseDown? && e.button == 1 && b'.hovered)
  }

  /** The number of font presets. */
  const FontCount: nat := 6

  /** The panel: the X button, the Y button right under it, the search field 10 pixels lower. */
  const XButtonRect: Rect := Rect(30, 30, 300, 40)
  const YButtonRect: Rect := Rect(30, 70, 300, 40)
  const SearchRect: Rect := Rect(30, 120, 300, 40)

  /** Font button `i` sits in column `i % 2` and row `i / 2` of a grid 10 pixels below the search
      field: columns 145 pixels wide with a 10-pixel gap, rows 35 pixels high with a 5-pixel gap. */
  function FontButtonRect(i: nat): (r: Rect)
    requires i < FontCount
    ensures r.width == 145 && r.height == 35
    ensures r.left == 30 + (i % 2) * 155 && r.top == 170 + (i / 2) * 40
  {
    var col_w := (300 - 10) / 2;
    Rect(30 + (i % 2) * (col_w + 10), 170 + (i / 2) * (35 + 5), col_w, 35)
  }

  /** No point lies on two different font buttons. */
  lemma FontButtonsDisjoint(i: nat, j: nat, p: Point)
    requires i < FontCount && j < FontCount && i != j
    ensures !(Contains(FontButtonRect(i), p) && Contains(FontButtonRect(j), p))
  {
    if i / 2 == j / 2 {
      assert i % 2 != j % 2;
    }
  }

  /** The font buttons lie below the axis buttons and the search field, and those three do not
      overlap either: a point is on at most one element of the panel. */
  lemma PanelDisjoint(i: nat, p: Point)
    requires i < FontCount
    ensures Contains(FontButtonRect(i), p) ==>
              !Contains(XButtonRect, p) && !Contains(YButtonRect, p) && !Contains(SearchRect, p)
    ensures !(Contains(XButtonRect, p) && Contains(YButtonRect, p))
    ensures !(Contains(XButtonRect, p) && Contains(SearchRect, p))
    ensures !(Contains(YButtonRect, p) && Contains(SearchRect, p))
  {
  }
}
