/** The pair of metrics shown on the X and Y axes, the axis buttons and the random switch. */
module AxisControl {
  import opened MetricKeys

  datatype Axes = Axes(x: Metric, y: Metric)

  /** The two axes never show the same metric. */
  predicate Valid(a: Axes) {
    a.x != a.y
  }

  /** The axes set up when the application starts. */
  const InitialAxes: Axes := Axes(Density, SkeletonLength)

  /** The successor of position `i` in the list, wrapping from the last position to the first
      (`(i + 1) % len(METRICS)`). */
  function Succ(i: nat): (n: nat)
    requires i < |Metrics|
    ensures n < |Metrics|
  {
    if i + 1 == |Metrics| then 0 else i + 1
  }

  /** The metric that follows `m` in the cyclic order of the list. */
  function Next(m: Metric): (r: Metric)
    ensures r != m
  {
    var i := IndexOf(m);
    MetricsDistinct(i, Succ(i));
    Metrics[Succ(i)]
  }

  /** One press of an axis button: move `cur` to the next metric, skipping `other`.
      The result is the first metric after `cur`, in cyclic order, that differs from `other`. */
  function Cycle(cur: Metric, other: Metric): (r: Metric)
    ensures r != other && r != cur
    ensures r == Next(cur) || (Next(cur) == other && r == Next(other))
  {
    var n := Succ(IndexOf(cur));
    var n' := if Metrics[n] == other then Succ(n) else n;
    IndexOfInverse(n);
    MetricsDistinct(IndexOf(cur), n);
    MetricsDistinct(n, Succ(n));
    if n' != n then MetricsDistinct(IndexOf(cur), n'); Metrics[n'] else Metrics[n']
  }

  /** `next_x`: only the X axis changes. */
  function NextX(a: Axes): (r: Axes)
    ensures Valid(r) && r.y == a.y && r.x != a.x
    ensures r.x == Cycle(a.x, a.y)
  {
    Axes(Cycle(a.x, a.y), a.y)
  }

  /** `next_y`: only the Y axis changes. */
  function NextY(a: Axes): (r: Axes)
    ensures Valid(r) && r.x == a.x && r.y != a.y
    ensures r.y == Cycle(a.y, a.x)
  {
    Axes(a.x, Cycle(a.y, a.x))
  }

  /** How many steps after position `j` position `i` comes, not counting `j` itself, in the
      cyclic order of the list. */
  function Dist(i: nat, j: nat): nat
    requires i < |Metrics| && j < |Metrics| && i != j
  {
    if i > j then i - j - 1 else i + |Metrics| - 1 - j
  }

  /** The position of `m` in the cycle of metrics that starts just after `other`. */
  function Rank(m: Metric, other: Metric): nat
    requires m != other
  {
    assert IndexOf(m) != IndexOf(other);
    Dist(IndexOf(m), IndexOf(other))
  }

  lemma RankBelowEleven(m: Metric, other: Metric)
    requires m != other
    ensures Rank(m, other) < |Metrics| - 1
  {
  }

  /** Two metrics with the same rank are the same metric. */
  lemma RankInjective(m: Metric, m': Metric, other: Metric)
    requires m != other && m' != other
    requires Rank(m, other) == Rank(m', other)
    ensures m == m'
  {
    assert IndexOf(m) == IndexOf(m');
  }

  /** The position of the next metric is the successor position. */
  lemma IndexOfNext(m: Metric)
    ensures IndexOf(Next(m)) == Succ(IndexOf(m))
  {
    IndexOfInverse(Succ(IndexOf(m)));
  }

  /** The arithmetic of one step: moving `i` on by one position moves it one step further from
      `j`, unless it lands on `j`, which only happens from the farthest position. */
  lemma DistSucc(i: nat, j: nat)
    requires i < |Metrics| && j < |Metrics| && i != j
    ensures Succ(i) == j ==> Dist(i, j) == 10 && Succ(j) != j && Dist(Succ(j), j) == 0
    ensures Succ(i) != j ==> Dist(i, j) < 10 && Dist(Succ(i), j) == Dist(i, j) + 1
  {
  }

  /** A press advances the rank by one, wrapping round the eleven metrics that differ from `other`. */
  lemma CycleAdvancesRank(cur: Metric, other: Metric)
    requires cur != other
    ensures Rank(Cycle(cur, other), other) == if Rank(cur, other) == 10 then 0 else Rank(cur, other) + 1
  {
    var r := Cycle(cur, other);
    var i, j := IndexOf(cur), IndexOf(other);
    IndexOfNext(cur);
    DistSucc(i, j);
    if Next(cur) == other {
      IndexOfNext(other);
      assert IndexOf(r) == Succ(j);
    } else {
      assert Succ(i) != j;
      assert IndexOf(r) == Succ(i);
    }
  }

  /** `n` presses of the same axis button while the other axis stays put. */
  function CycleN(cur: Metric, other: Metric, n: nat): Metric
    decreases n
  {
    if n == 0 then cur else CycleN(Cycle(cur, other), other, n - 1)
  }

  /** The rank after one press. */
  function Bump(r: nat): nat {
    if r == 10 then 0 else r + 1
  }

  /** The rank after `n` presses, one at a time. */
  function Rotate(r: nat, n: nat): nat
    decreases n
  {
    if n == 0 then r else Rotate(Bump(r), n - 1)
  }

  lemma {:induction false} RotateIsMod(r: nat, n: nat)
    requires r < 11
    decreases n
    ensures Rotate(r, n) == (r + n) % 11
  {
    if n > 0 {
      RotateIsMod(Bump(r), n - 1);
    }
  }

  lemma RotateReaches(r: nat, t: nat)
    requires r < 11 && t < 11
    ensures Rotate(r, if t >= r then t - r else t + 11 - r) == t
  {
    var n: nat := if t >= r then t - r else t + 11 - r;
    RotateIsMod(r, n);
    if t >= r {
      assert r + n == t;
    } else {
      assert r + n == t + 11;
    }
  }

  lemma RotateEleven(r: nat)
    requires r < 11
    ensures Rotate(r, 11) == r
  {
    RotateIsMod(r, 11);
  }

  lemma {:induction false} CycleNRank(cur: Metric, other: Metric, n: nat)
    requires cur != other
    decreases n
    ensures CycleN(cur, other, n) != other
    ensures Rank(CycleN(cur, other, n), other) == Rotate(Rank(cur, other), n)
  {
    if n > 0 {
      CycleAdvancesRank(cur, other);
      CycleNRank(Cycle(cur, other), other, n - 1);
    }
  }

  /** Eleven presses bring an axis back to where it started. */
  lemma CycleReturnsAfterEleven(cur: Metric, other: Metric)
    requires cur != other
    ensures CycleN(cur, other, 11) == cur
  {
    var r := Rank(cur, other);
    RankBelowEleven(cur, other);
    CycleNRank(cur, other, 11);
    RotateEleven(r);
    RankInjective(CycleN(cur, other, 11), cur, other);
  }

  /** Repeated presses reach every metric the other axis does not show, within ten presses. */
  lemma CycleReachesEveryMetric(cur: Metric, other: Metric, target: Metric)
    requires cur != other && target != other
    ensures exists n: nat :: n < 11 && CycleN(cur, other, n) == target
  {
    var n := PressesTo(cur, other, target);
  }

  /** The number of presses that takes `cur` to rank `t`. */
  lemma PressesToRank(cur: Metric, other: Metric, t: nat) returns (n: nat)
    requires cur != other && t < 11
    ensures n < 11 && CycleN(cur, other, n) != other && Rank(CycleN(cur, other, n), other) == t
  {
    var r := Rank(cur, other);
    RankBelowEleven(cur, other);
    n := if t >= r then t - r else t + 11 - r;
    CycleNRank(cur, other, n);
    RotateReaches(r, t);
  }

  /** The number of presses that takes `cur` to `target`. */
  lemma PressesTo(cur: Metric, other: Metric, target: Metric) returns (n: nat)
    requires cur != other && target != other
    ensures n < 11 && CycleN(cur, other, n) == target
  {
    RankBelowEleven(target, other);
    n := PressesToRank(cur, other, Rank(target, other));
    RankInjective(CycleN(cur, other, n), target, other);
  }

  /** A draw of `random.choice(METRICS)` is usable when it differs from both axes. */
  predicate Fresh(a: Axes, m: Metric) {
    m != a.x && m != a.y
  }

  /** The stream of random draws eventually yields a usable metric. */
  predicate CanPick(a: Axes, picks: seq<Metric>) {
    exists i :: 0 <= i < |picks| && Fresh(a, picks[i])
  }

  /** The `while` loop of `auto_switch_axis`: the position of the first usable draw. */
  function FirstFresh(a: Axes, picks: seq<Metric>): (i: nat)
    requires CanPick(a, picks)
    ensures i < |picks| && Fresh(a, picks[i])
    ensures forall j :: 0 <= j < i ==> !Fresh(a, picks[j])
  {
    if Fresh(a, picks[0]) then 0
    else
      var w :| 0 <= w < |picks| && Fresh(a, picks[w]);
      assert picks[1..][w - 1] == picks[w];
      1 + FirstFresh(a, picks[1..])
  }

  /** `auto_switch_axis`: the coin `switchX` picks the axis, the draws pick its new metric. */
  function AutoSwitch(a: Axes, switchX: bool, picks: seq<Metric>): (r: Axes)
    requires CanPick(a, picks)
    ensures Valid(r)
    ensures switchX ==> r.y == a.y && r.x != a.x && r.x != a.y && r.x in picks
    ensures !switchX ==> r.x == a.x && r.y != a.y && r.y != a.x && r.y in picks
    ensures exists i :: && 0 <= i < |picks| && picks[i] == (if switchX then r.x else r.y)
                        && forall j :: 0 <= j < i ==> !Fresh(a, picks[j])
  {
    var m := picks[FirstFresh(a, picks)];
    if switchX then Axes(m, a.y) else Axes(a.x, m)
  }

  /** Three pairwise different draws always contain one that differs from both axes. */
  predicate Spread(picks: seq<Metric>) {
    exists i, j, k :: 0 <= i < |picks| && 0 <= j < |picks| && 0 <= k < |picks|
      && picks[i] != picks[j] && picks[j] != picks[k] && picks[i] != picks[k]
  }

  lemma SpreadCanPick(a: Axes, picks: seq<Metric>)
    requires Spread(picks)
    ensures CanPick(a, picks)
  {
    var i, j, k :| 0 <= i < |picks| && 0 <= j < |picks| && 0 <= k < |picks|
      && picks[i] != picks[j] && picks[j] != picks[k] && picks[i] != picks[k];
    if !Fresh(a, picks[i]) && !Fresh(a, picks[j]) {
      assert Fresh(a, picks[k]);
    }
  }
}
