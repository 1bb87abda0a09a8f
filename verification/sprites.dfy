/** Kanji sprites: a character, its metric vector, an animated position and the integer rectangle
    used for drawing and hit testing.

    pygame keeps the rectangle as a separate field, but every write to it sets its centre to the
    truncated position (at creation and after each frame) and keeps its size, so here the
    rectangle is derived from the position and the rendered size. */
module Sprites {
  import opened Geometry
  import opened MetricKeys
  import opened MetricData
  import opened AxisControl
  import opened Layout

  /** `fx, fy` is the precise position, `tx, ty` the layout target, `width, height` the size of
      the rendered glyph. */
  datatype Sprite = Sprite(ch: string, metrics: map<Metric, real>,
                           fx: real, fy: real, tx: real, ty: real, width: nat, height: nat)

  /** `self.rect`: the glyph's rectangle, centred on the truncated position. */
  function Box(s: Sprite): (r: Rect)
    ensures CenterX(r) == Trunc(s.fx) && CenterY(r) == Trunc(s.fy)
    ensures r.width == s.width && r.height == s.height
  {
    WithCenter(Rect(0, 0, s.width, s.height), Trunc(s.fx), Trunc(s.fy))
  }

  const LerpFactor: real := 0.08

  /** A sprite created at load time: it starts at a random point `(x0, y0)` (an integer in
      [0, 1000]), with its target on that same point; `width` and `height` come from rendering. */
  function NewSprite(rec: Record, x0: int, y0: int, width: nat, height: nat): (s: Sprite)
    ensures s.ch == rec.ch && s.metrics == rec.metrics
    ensures s.fx == s.tx == x0 as real && s.fy == s.ty == y0 as real
    ensures CenterX(Box(s)) == x0 && CenterY(Box(s)) == y0
    ensures Box(s).width == width && Box(s).height == height
  {
    Sprite(rec.ch, rec.metrics, x0 as real, y0 as real, x0 as real, y0 as real, width, height)
  }

  /** The remaining distance to the target, per axis. */
  function GapX(s: Sprite): real { s.tx - s.fx }

  function GapY(s: Sprite): real { s.ty - s.fy }

  function Abs(v: real): real { if v < 0.0 then -v else v }

  /** `KanjiSprite.update`: one frame of exponential smoothing toward the target. The target is
      kept, the remaining distance shrinks by exactly the factor 0.92, and the rectangle is
      re-centred on the truncated position. */
  function Step(s: Sprite): (s': Sprite)
    ensures s'.ch == s.ch && s'.metrics == s.metrics && s'.tx == s.tx && s'.ty == s.ty
    ensures GapX(s') == (1.0 - LerpFactor) * GapX(s) && GapY(s') == (1.0 - LerpFactor) * GapY(s)
    ensures s'.width == s.width && s'.height == s.height
  {
    s.(fx := s.fx + (s.tx - s.fx) * LerpFactor, fy := s.fy + (s.ty - s.fy) * LerpFactor)
  }

  /** A frame never moves a sprite away from its target, never overshoots it, and a sprite
      that has not reached its target does not reach it exactly in one frame. */
  lemma StepShrinks(s: Sprite)
    ensures Abs(GapX(Step(s))) <= Abs(GapX(s)) && Abs(GapY(Step(s))) <= Abs(GapY(s))
    ensures (GapX(Step(s)) < 0.0 <==> GapX(s) < 0.0) && (GapY(Step(s)) < 0.0 <==> GapY(s) < 0.0)
    ensures (GapX(Step(s)) == 0.0 <==> GapX(s) == 0.0) && (GapY(Step(s)) == 0.0 <==> GapY(s) == 0.0)
  {
  }

  /** `0.92^n`, the share of the distance left after `n` frames (`0.92 == 1 - LerpFactor`). */
  function Keep(n: nat): real {
    if n == 0 then 1.0 else 0.92 * Keep(n - 1)
  }

  /** `n` frames of animation with a fixed target. */
  function Steps(s: Sprite, n: nat): Sprite {
    if n == 0 then s else Step(Steps(s, n - 1))
  }

  /** Animation never changes the character, the metrics or the target. */
  lemma {:induction false} StepsFixTarget(s: Sprite, n: nat)
    ensures Steps(s, n).ch == s.ch && Steps(s, n).metrics == s.metrics
    ensures Steps(s, n).tx == s.tx && Steps(s, n).ty == s.ty
  {
    if n > 0 {
      StepsFixTarget(s, n - 1);
    }
  }

  /** After `n` frames the horizontal distance to the target is exactly `0.92^n` times the
      initial one. */
  lemma {:induction false} StepsGapX(s: Sprite, n: nat)
    ensures GapX(Steps(s, n)) == Keep(n) * GapX(s)
  {
    if n > 0 {
      StepsGapX(s, n - 1);
      FrameGapX(s, n);
    }
  }

  /** One more frame multiplies the horizontal distance by another 0.92. */
  lemma FrameGapX(s: Sprite, n: nat)
    requires n > 0 && GapX(Steps(s, n - 1)) == Keep(n - 1) * GapX(s)
    ensures GapX(Steps(s, n)) == Keep(n) * GapX(s)
  {
    var prev := Steps(s, n - 1);
    ScaleOnce(GapX(prev), Keep(n - 1), GapX(s), GapX(Step(prev)));
  }

  /** The same for the vertical distance. */
  lemma {:induction false} StepsGapY(s: Sprite, n: nat)
    ensures GapY(Steps(s, n)) == Keep(n) * GapY(s)
  {
    if n > 0 {
      StepsGapY(s, n - 1);
      FrameGapY(s, n);
    }
  }

  lemma FrameGapY(s: Sprite, n: nat)
    requires n > 0 && GapY(Steps(s, n - 1)) == Keep(n - 1) * GapY(s)
    ensures GapY(Steps(s, n)) == Keep(n) * GapY(s)
  {
    var prev := Steps(s, n - 1);
    ScaleOnce(GapY(prev), Keep(n - 1), GapY(s), GapY(Step(prev)));
  }

  /** The inductive step of `StepsGap` on plain numbers. */
  lemma ScaleOnce(g: real, p: real, g0: real, g': real)
    requires g == p * g0 && g' == (1.0 - LerpFactor) * g
    ensures g' == (0.92 * p) * g0
  {
    Assoc(0.92, p, g0);
  }

  lemma Assoc(a: real, b: real, c: real)
    ensures a * (b * c) == (a * b) * c
  {
  }

  /** Bernoulli's inequality for the smoothing factor: `0.92^n * (1 + 0.08 n) <= 1`. */
  lemma {:induction false} KeepBound(n: nat)
    ensures 0.0 <= Keep(n)
    ensures Keep(n) * (1.0 + LerpFactor * n as real) <= 1.0
  {
    if n > 0 {
      KeepBound(n - 1);
      var p := Keep(n - 1);
      var k := (n - 1) as real;
      assert Keep(n) == 0.92 * p;
      assert 0.92 * p * (1.0 + 0.08 * (k + 1.0)) == p * (0.9936 + 0.0736 * k);
      assert p * (0.9936 + 0.0736 * k) <= p * (1.0 + 0.08 * k) by {
        assert p * (1.0 + 0.08 * k) - p * (0.9936 + 0.0736 * k) == p * (0.0064 + 0.0064 * k);
        assert p * (0.0064 + 0.0064 * k) >= 0.0;
      }
    }
  }

  lemma MulLeft(p: real, a: real, b: real)
    requires 0.0 <= p && a <= b
    ensures p * a <= p * b
  {
    assert p * b - p * a == p * (b - a);
  }

  /** If `p * (1 + 0.08 n) <= 1` and `|g| <= 0.08 n eps`, then `p |g| <= eps`. */
  lemma ShrunkBelow(p: real, g: real, n: real, eps: real)
    requires 0.0 <= p && 0.0 <= n && eps > 0.0
    requires p * (1.0 + LerpFactor * n) <= 1.0
    requires Abs(g) <= LerpFactor * n * eps
    ensures Abs(p * g) <= eps
  {
    assert Abs(p * g) == p * Abs(g) by {
      if g < 0.0 {
        assert p * g == -(p * -g);
      }
    }
    var bound := LerpFactor * n * eps;
    MulLeft(p, Abs(g), bound);
    MulLeft(p, bound, (1.0 + LerpFactor * n) * eps);
    assert p * ((1.0 + LerpFactor * n) * eps) == (p * (1.0 + LerpFactor * n)) * eps;
    assert (p * (1.0 + LerpFactor * n)) * eps <= eps by {
      assert eps - (p * (1.0 + LerpFactor * n)) * eps == (1.0 - p * (1.0 + LerpFactor * n)) * eps;
    }
  }

  /** The animation converges within a bounded number of frames: once `0.08 n eps` covers the
      initial distance, the remaining distance after `n` frames is at most `eps`. */
  lemma Converges(s: Sprite, n: nat, eps: real)
    requires eps > 0.0
    requires Abs(GapX(s)) <= LerpFactor * n as real * eps && Abs(GapY(s)) <= LerpFactor * n as real * eps
    ensures Abs(GapX(Steps(s, n))) <= eps && Abs(GapY(Steps(s, n))) <= eps
  {
    ConvergesX(s, n, eps);
    ConvergesY(s, n, eps);
  }

  lemma ConvergesX(s: Sprite, n: nat, eps: real)
    requires eps > 0.0
    requires Abs(GapX(s)) <= LerpFactor * n as real * eps
    ensures Abs(GapX(Steps(s, n))) <= eps
  {
    var g, g' := GapX(s), GapX(Steps(s, n));
    var p := Keep(n);
    assert g' == p * g by { StepsGapX(s, n); }
    assert 0.0 <= p && p * (1.0 + LerpFactor * n as real) <= 1.0 by { KeepBound(n); }
    Shrunk(p, g, g', n, eps);
  }

  lemma ConvergesY(s: Sprite, n: nat, eps: real)
    requires eps > 0.0
    requires Abs(GapY(s)) <= LerpFactor * n as real * eps
    ensures Abs(GapY(Steps(s, n))) <= eps
  {
    var g, g' := GapY(s), GapY(Steps(s, n));
    var p := Keep(n);
    assert g' == p * g by { StepsGapY(s, n); }
    assert 0.0 <= p && p * (1.0 + LerpFactor * n as real) <= 1.0 by { KeepBound(n); }
    Shrunk(p, g, g', n, eps);
  }

  lemma Shrunk(p: real, g: real, g': real, n: nat, eps: real)
    requires 0.0 <= p && eps > 0.0 && g' == p * g
    requires p * (1.0 + LerpFactor * n as real) <= 1.0
    requires Abs(g) <= LerpFactor * n as real * eps
    ensures Abs(g') <= eps
  {
    ShrunkBelow(p, g, n as real, eps);
  }

  /** Every sprite carries the two metrics shown on the axes. */
  predicate HasAxes(sprites: seq<Sprite>, a: Axes) {
    forall i :: 0 <= i < |sprites| ==> a.x in sprites[i].metrics && a.y in sprites[i].metrics
  }

  /** `update_targets`: every sprite gets the target of its two axis metrics; its current
      position, rectangle and metrics are left untouched, so the change is animated. */
  function Retarget(sprites: seq<Sprite>, a: Axes, ranges: map<Metric, Range>, w: int, h: int): (r: seq<Sprite>)
    requires a.x in ranges && a.y in ranges && HasAxes(sprites, a)
    ensures |r| == |sprites|
    ensures forall i :: 0 <= i < |r| ==>
              && r[i].ch == sprites[i].ch && r[i].metrics == sprites[i].metrics
              && r[i].fx == sprites[i].fx && r[i].fy == sprites[i].fy && Box(r[i]) == Box(sprites[i])
              && r[i].tx == ScreenX(sprites[i].metrics[a.x], ranges[a.x], w)
              && r[i].ty == ScreenY(sprites[i].metrics[a.y], ranges[a.y], h)
  {
    seq(|sprites|, i requires 0 <= i < |sprites| =>
      sprites[i].(tx := ScreenX(sprites[i].metrics[a.x], ranges[a.x], w),
                  ty := ScreenY(sprites[i].metrics[a.y], ranges[a.y], h)))
  }

  /** With a window of at least 120 by 120 pixels every target lies in the drawing area. */
  lemma RetargetInArea(sprites: seq<Sprite>, a: Axes, ranges: map<Metric, Range>, w: int, h: int)
    requires a.x in ranges && a.y in ranges && HasAxes(sprites, a)
    requires w >= 2 * Pad && h >= 2 * Pad
    ensures forall s :: s in Retarget(sprites, a, ranges, w, h) ==>
              Pad as real <= s.tx <= (w - Pad) as real && Pad as real <= s.ty <= (h - Pad) as real
  {
    var r := Retarget(sprites, a, ranges, w, h);
    forall i | 0 <= i < |r|
      ensures Pad as real <= r[i].tx <= (w - Pad) as real && Pad as real <= r[i].ty <= (h - Pad) as real
    {
      ScreenXInArea(sprites[i].metrics[a.x], ranges[a.x], w);
      ScreenYInArea(sprites[i].metrics[a.y], ranges[a.y], h);
    }
  }

  /** A dict built from `keys` in order: each key maps to the position of its LAST occurrence. */
  function LastIndex(keys: seq<string>): (m: map<string, nat>)
    ensures forall c :: c in m <==> c in keys
    ensures forall c :: c in m ==>
              m[c] < |keys| && keys[m[c]] == c && forall j :: m[c] < j < |keys| ==> keys[j] != c
    decreases |keys|
  {
    if |keys| == 0 then map[]
    else
      var n := |keys| - 1;
      var prior := LastIndex(keys[..n]);
      assert forall c :: c in keys <==> c in keys[..n] || c == keys[n];
      prior[keys[n] := n]
  }

  function Chars(sprites: seq<Sprite>): (cs: seq<string>)
    ensures |cs| == |sprites| && forall i :: 0 <= i < |sprites| ==> cs[i] == sprites[i].ch
  {
    seq(|sprites|, i requires 0 <= i < |sprites| => sprites[i].ch)
  }

  /** `sprite_map`: character to sprite, the last sprite winning for a repeated character. */
  function SpriteIndex(sprites: seq<Sprite>): (m: map<string, nat>)
    ensures forall c :: c in m <==> exists i :: 0 <= i < |sprites| && sprites[i].ch == c
    ensures forall c :: c in m ==>
              m[c] < |sprites| && sprites[m[c]].ch == c && forall j :: m[c] < j < |sprites| ==> sprites[j].ch != c
  {
    var cs := Chars(sprites);
    var m := LastIndex(cs);
    assert forall c :: c in cs <==> exists i :: 0 <= i < |sprites| && sprites[i].ch == c;
    m
  }

  /** `new_data_map` of a reload: character to metrics, the last record winning. */
  function ByChar(data: seq<Record>): (m: map<string, map<Metric, real>>)
    ensures forall c :: c in m <==> exists i :: 0 <= i < |data| && data[i].ch == c
    ensures forall c :: c in m ==>
              exists i :: (0 <= i < |data| && data[i].ch == c && m[c] == data[i].metrics
                           && forall j :: i < j < |data| ==> data[j].ch != c)
  {
    var cs := seq(|data|, i requires 0 <= i < |data| => data[i].ch);
    assert forall i :: 0 <= i < |data| ==> cs[i] == data[i].ch;
    var last := LastIndex(cs);
    assert forall c :: c in cs <==> exists i :: 0 <= i < |data| && data[i].ch == c;
    map c | c in last :: data[last[c]].metrics
  }

  /** The metric reload of a font change: a sprite whose character appears in the new data takes
      the metrics of its last record there; any other sprite keeps its metrics. Nothing else changes. */
  function Refresh(sprites: seq<Sprite>, data: seq<Record>): (r: seq<Sprite>)
    ensures |r| == |sprites|
    ensures forall i :: 0 <= i < |r| ==>
              && r[i] == sprites[i].(metrics := r[i].metrics)
              && (sprites[i].ch in ByChar(data) ==> r[i].metrics == ByChar(data)[sprites[i].ch])
              && (sprites[i].ch !in ByChar(data) ==> r[i].metrics == sprites[i].metrics)
  {
    var m := ByChar(data);
    seq(|sprites|, i requires 0 <= i < |sprites| =>
      if sprites[i].ch in m then sprites[i].(metrics := m[sprites[i].ch]) else sprites[i])
  }
}
