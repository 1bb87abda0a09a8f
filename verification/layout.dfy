/** The layout engine of `update_targets`: a metric value becomes a screen coordinate inside the
    drawing area, which keeps a 60-pixel margin on every side. */
module Layout {
  import opened MetricData

  const Pad: int := 60

  /** The division guard: an empty or inverted range is widened to `Epsilon`. */
  function Guard(r: Range): (g: Range)
    ensures g.lo == r.lo && g.lo < g.hi
    ensures r.lo < r.hi ==> g == r
    ensures r.hi <= r.lo ==> g.hi == r.lo + Epsilon
  {
    if r.hi <= r.lo then Range(r.lo, r.lo + Epsilon) else r
  }

  /** `max(0.0, min(1.0, n))`. */
  function Clamp01(n: real): (c: real)
    ensures 0.0 <= c <= 1.0
    ensures 0.0 <= n <= 1.0 ==> c == n
    ensures n < 0.0 ==> c == 0.0
    ensures n > 1.0 ==> c == 1.0
  {
    var m := if n < 1.0 then n else 1.0;
    if 0.0 > m then 0.0 else m
  }

  /** The normalised and clamped position of `v` within `r`, in [0, 1]. */
  function Unit(v: real, r: Range): (n: real)
    ensures 0.0 <= n <= 1.0
  {
    var g := Guard(r);
    Clamp01((v - g.lo) / (g.hi - g.lo))
  }

  /** The extent of the drawing area between the margins of a window `w` pixels across. */
  function Span(w: int): real {
    (w - 2 * Pad) as real
  }

  /** `target_x` for a window `w` pixels wide: on a window wide enough for both margins it lies in
      the drawing area, whatever the value. */
  function ScreenX(v: real, r: Range, w: int): (x: real)
    ensures w >= 2 * Pad ==> Pad as real <= x <= (w - Pad) as real
  {
    var u, span := Unit(v, r), Span(w);
    ScaleWithin(u, span);
    assert (w - Pad) as real == Pad as real + span;
    Pad as real + u * span
  }

  /** `target_y` for a window `h` pixels high, flipped so that larger values are drawn higher up;
      on a window high enough for both margins it lies in the drawing area. */
  function ScreenY(v: real, r: Range, h: int): (y: real)
    ensures h >= 2 * Pad ==> Pad as real <= y <= (h - Pad) as real
  {
    var u, span := 1.0 - Unit(v, r), Span(h);
    ScaleWithin(u, span);
    assert (h - Pad) as real == Pad as real + span;
    Pad as real + u * span
  }

  /** Arithmetic helpers. */
  lemma ScaleWithin(u: real, s: real)
    requires 0.0 <= u <= 1.0
    ensures s >= 0.0 ==> 0.0 <= u * s <= s
  {
    if s >= 0.0 {
      ScaleBetween(u, s);
    }
  }

  lemma ScaleBetween(u: real, s: real)
    requires 0.0 <= u <= 1.0 && s >= 0.0
    ensures 0.0 <= u * s <= s
  {
    assert s - u * s == (1.0 - u) * s;
  }

  lemma ScaleMonotone(a: real, b: real, s: real)
    requires a <= b && s >= 0.0
    ensures a * s <= b * s
  {
    assert b * s - a * s == (b - a) * s;
  }

  lemma DivMonotone(a: real, b: real, d: real)
    requires a <= b && d > 0.0
    ensures a / d <= b / d
  {
    assert b / d - a / d == (b - a) / d;
  }

  /** Scaling by `d` and dividing by it again gives the value back, in either order. */
  lemma DivCancels(a: real, d: real)
    requires d > 0.0
    ensures a * d / d == a && a / d * d == a && d / d == 1.0
  {
  }

  /** Every X target lies in the drawing area, borders included, whatever the value: the clamping law. */
  lemma ScreenXInArea(v: real, r: Range, w: int)
    requires w >= 2 * Pad
    ensures Pad as real <= ScreenX(v, r, w) <= (w - Pad) as real
  {
  }

  /** Every Y target lies in the drawing area, borders included, whatever the value. */
  lemma ScreenYInArea(v: real, r: Range, h: int)
    requires h >= 2 * Pad
    ensures Pad as real <= ScreenY(v, r, h) <= (h - Pad) as real
  {
  }

  lemma ClampMonotone(a: real, b: real)
    requires a <= b
    ensures Clamp01(a) <= Clamp01(b)
  {
  }

  lemma UnitMonotone(v1: real, v2: real, r: Range)
    requires v1 <= v2
    ensures Unit(v1, r) <= Unit(v2, r)
  {
    var g := Guard(r);
    var d := g.hi - g.lo;
    DivMonotone(v1 - g.lo, v2 - g.lo, d);
    ClampMonotone((v1 - g.lo) / d, (v2 - g.lo) / d);
  }

  /** A larger X metric is never placed further left. */
  lemma ScreenXMonotone(v1: real, v2: real, r: Range, w: int)
    requires v1 <= v2 && w >= 2 * Pad
    ensures ScreenX(v1, r, w) <= ScreenX(v2, r, w)
  {
    var span := Span(w);
    UnitMonotone(v1, v2, r);
    ScaleMonotone(Unit(v1, r), Unit(v2, r), span);
    var x1, x2 := Unit(v1, r) * span, Unit(v2, r) * span;
    assert x1 <= x2;
    assert ScreenX(v1, r, w) == Pad as real + x1;
    assert ScreenX(v2, r, w) == Pad as real + x2;
  }

  /** The Y coordinate measured down from the bottom edge of the drawing area. */
  lemma ScreenYFlips(v: real, r: Range, h: int)
    ensures ScreenY(v, r, h) == Pad as real + Span(h) - Unit(v, r) * Span(h)
  {
    var span := Span(h);
    assert (1.0 - Unit(v, r)) * span == span - Unit(v, r) * span;
  }

  /** A larger Y metric is never placed further down (the Y flip). */
  lemma ScreenYAntitone(v1: real, v2: real, r: Range, h: int)
    requires v1 <= v2 && h >= 2 * Pad
    ensures ScreenY(v1, r, h) >= ScreenY(v2, r, h)
  {
    var span := Span(h);
    UnitMonotone(v1, v2, r);
    ScaleMonotone(Unit(v1, r), Unit(v2, r), span);
    var y1, y2 := Unit(v1, r) * span, Unit(v2, r) * span;
    assert y1 <= y2;
    ScreenYFlips(v1, r, h);
    ScreenYFlips(v2, r, h);
    assert ScreenY(v1, r, h) == Pad as real + span - y1;
    assert ScreenY(v2, r, h) == Pad as real + span - y2;
  }

  /** Values at or beyond the ends of the range land on the edges of the drawing area:
      the minimum at the left and bottom, the maximum at the right and top. */
  lemma EdgesOfArea(v: real, r: Range, w: int, h: int)
    requires r.lo < r.hi
    ensures v <= r.lo ==> ScreenX(v, r, w) == Pad as real && ScreenY(v, r, h) == (h - Pad) as real
    ensures v >= r.hi ==> ScreenX(v, r, w) == (w - Pad) as real && ScreenY(v, r, h) == Pad as real
  {
    var d := r.hi - r.lo;
    if v <= r.lo {
      DivMonotone(v - r.lo, 0.0, d);
      assert Unit(v, r) == 0.0;
    }
    if v >= r.hi {
      DivMonotone(d, v - r.lo, d);
      assert d / d == 1.0;
      assert Unit(v, r) == 1.0;
    }
  }

  /** Inside its range, a value can be read back from its X coordinate: the layout loses nothing. */
  lemma ScreenXRoundTrip(v: real, r: Range, w: int)
    requires r.lo <= v <= r.hi && r.lo < r.hi && w > 2 * Pad
    ensures r.lo + (ScreenX(v, r, w) - Pad as real) / Span(w) * (r.hi - r.lo) == v
  {
    var d := r.hi - r.lo;
    var span := Span(w);
    var n := (v - r.lo) / d;
    DivMonotone(0.0, v - r.lo, d);
    DivMonotone(v - r.lo, d, d);
    DivCancels(v - r.lo, d);
    assert Unit(v, r) == n;
    assert ScreenX(v, r, w) - Pad as real == n * span;
    DivCancels(n, span);
  }
}
