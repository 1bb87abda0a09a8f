/** Hit testing: the sprite under a point is found by scanning the sprite list from the back, so
    the sprite drawn last (on top) wins. Clicks use this for selection and the main loop uses it
    for hovering. */
module Picking {
  import opened Wrappers
  import opened Geometry
  import opened Sprites

  /** The rectangle of sprite `i` contains `p`. */
  predicate Hit(sprites: seq<Sprite>, i: int, p: Point)
    requires 0 <= i < |sprites|
  {
    Contains(Box(sprites[i]), p)
  }

  /** The last of the first `n` sprites whose rectangle contains `p`, or `None` when there is none. */
  function TopmostBelow(sprites: seq<Sprite>, n: nat, p: Point): (r: Option<nat>)
    requires n <= |sprites|
    ensures r.None? <==> forall i :: 0 <= i < n ==> !Hit(sprites, i, p)
    ensures r.Some? ==>
              && r.value < n && Hit(sprites, r.value, p)
              && forall j :: r.value < j < n ==> !Hit(sprites, j, p)
  {
    if n == 0 then None
    else if Hit(sprites, n - 1, p) then Some(n - 1)
    else TopmostBelow(sprites, n - 1, p)
  }

  /** The index of the last sprite whose rectangle contains `p`, or `None` when there is none. */
  function TopmostAt(sprites: seq<Sprite>, p: Point): (r: Option<nat>)
    ensures r.None? <==> forall i :: 0 <= i < |sprites| ==> !Hit(sprites, i, p)
    ensures r.Some? ==>
              && r.value < |sprites| && Hit(sprites, r.value, p)
              && forall j :: r.value < j < |sprites| ==> !Hit(sprites, j, p)
  {
    TopmostBelow(sprites, |sprites|, p)
  }

  /** Two lists whose first `n` sprites are hit alike give the same answer on them: both answers
      are the last index below `n` that is hit. */
  lemma BelowDetermined(a: seq<Sprite>, b: seq<Sprite>, n: nat, p: Point)
    requires n <= |a| && n <= |b|
    requires forall i :: 0 <= i < n ==> (Hit(a, i, p) <==> Hit(b, i, p))
    ensures TopmostBelow(a, n, p) == TopmostBelow(b, n, p)
  {
    var ra, rb := TopmostBelow(a, n, p), TopmostBelow(b, n, p);
    if ra.Some? {
      var v := ra.value;
      assert Hit(b, v, p);
      var w := rb.value;
      assert Hit(a, w, p);
      if w < v {
        assert false;
      } else if v < w {
        assert false;
      }
    } else if rb.Some? {
      assert false;
    }
  }

  /** The backward scan of the selection and hover blocks,
      `for i in range(len(sprites) - 1, -1, -1)`, stopping at the first hit. */
  method ScanTopmost(sprites: seq<Sprite>, p: Point) returns (r: Option<nat>)
    ensures r == TopmostAt(sprites, p)
  {
    var i := |sprites|;
    while i > 0
      invariant 0 <= i <= |sprites|
      invariant forall j :: i <= j < |sprites| ==> !Hit(sprites, j, p)
    {
      i := i - 1;
      if Hit(sprites, i, p) {
        TopmostUnique(sprites, p, i);
        return Some(i);
      }
    }
    return None;
  }

  /** The index a hit test returns is determined by the two facts that define it: it is a hit and
      nothing after it is. */
  lemma TopmostUnique(sprites: seq<Sprite>, p: Point, i: nat)
    requires i < |sprites| && Hit(sprites, i, p)
    requires forall j :: i < j < |sprites| ==> !Hit(sprites, j, p)
    ensures TopmostAt(sprites, p) == Some(i)
  {
  }

  /** The tie-break: when a later sprite's rectangle overlaps an earlier one at `p`, the later
      sprite is the one found. */
  lemma LaterWins(sprites: seq<Sprite>, p: Point, a: nat, b: nat)
    requires a < b < |sprites| && Hit(sprites, a, p) && Hit(sprites, b, p)
    ensures TopmostAt(sprites, p).Some? && TopmostAt(sprites, p).value >= b
  {
  }

  /** Adding a sprite on top: it is found exactly when its own rectangle contains the point;
      otherwise the answer is the one for the list without it. */
  lemma TopmostAppend(sprites: seq<Sprite>, s: Sprite, p: Point)
    ensures TopmostAt(sprites + [s], p) ==
              if Contains(Box(s), p) then Some(|sprites|) else TopmostAt(sprites, p)
  {
    var all := sprites + [s];
    var n := |sprites|;
    assert Hit(all, n, p) == Contains(Box(s), p) by {
      assert all[n] == s;
    }
    assert TopmostBelow(all, n, p) == TopmostBelow(sprites, n, p) by {
      forall i | 0 <= i < n ensures Hit(all, i, p) <==> Hit(sprites, i, p) {
        assert all[i] == sprites[i];
      }
      BelowDetermined(all, sprites, n, p);
    }
  }

  /** The hit test only looks at the rectangles: two sprite lists with the same rectangles in the
      same order give the same answer everywhere. */
  lemma TopmostByBoxes(a: seq<Sprite>, b: seq<Sprite>, p: Point)
    requires |a| == |b| && forall i :: 0 <= i < |a| ==> Box(a[i]) == Box(b[i])
    ensures TopmostAt(a, p) == TopmostAt(b, p)
  {
    BelowDetermined(a, b, |a|, p);
  }
}
