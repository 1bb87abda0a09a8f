/** The idle auto-switch: after ten seconds without user input the application changes one
    axis at random every 350 to 800 milliseconds. */
module IdleTimer {
  import opened MetricKeys
  import opened AxisControl

  const IdleTimeout: int := 10000
  const MinInterval: int := 350
  const MaxInterval: int := 800

  /** `last_interaction_time`, `last_auto_switch_time` and `auto_switch_interval`, in milliseconds. */
  datatype Timer = Timer(lastInteraction: int, lastAutoSwitch: int, interval: int)

  /** The range of `random.randint(350, 800)`. */
  predicate IntervalOk(i: int) {
    MinInterval <= i <= MaxInterval
  }

  /** The timer as the application sets it up: no auto-switch has happened yet (time 0). */
  function Start(now: int, interval: int): (t: Timer)
    requires IntervalOk(interval)
    ensures t.interval == interval && IntervalOk(t.interval) && t.lastInteraction == now && t.lastAutoSwitch == 0
  {
    Timer(now, 0, interval)
  }

  /** A mouse or key event records the time of the latest interaction. */
  function Touch(t: Timer, now: int): (t': Timer)
    ensures t'.lastInteraction == now
    ensures t'.lastAutoSwitch == t.lastAutoSwitch && t'.interval == t.interval
  {
    t.(lastInteraction := now)
  }

  /** Both strict comparisons of the idle check hold: the user is idle and the interval has passed. */
  predicate Due(t: Timer, now: int) {
    now - t.lastInteraction > IdleTimeout && now - t.lastAutoSwitch > t.interval
  }

  /** The random choices one auto-switch consumes: the axis coin, the stream of
      `random.choice(METRICS)` draws and the next `random.randint(350, 800)`. */
  datatype Draw = Draw(switchX: bool, picks: seq<Metric>, interval: int)

  predicate DrawOk(a: Axes, d: Draw) {
    CanPick(a, d.picks) && IntervalOk(d.interval)
  }

  datatype Ticked = Ticked(timer: Timer, axes: Axes, switched: bool)

  /** One pass of the idle check of the main loop. */
  function Tick(t: Timer, a: Axes, now: int, d: Draw): (s: Ticked)
    requires Due(t, now) ==> DrawOk(a, d)
    ensures s.switched <==> Due(t, now)
    ensures s.switched ==>
              && s.timer.lastAutoSwitch == now && s.timer.interval == d.interval
              && IntervalOk(s.timer.interval) && s.timer.lastInteraction == t.lastInteraction
              && s.axes == AutoSwitch(a, d.switchX, d.picks)
    ensures !s.switched ==> s.timer == t && s.axes == a
  {
    if Due(t, now) then Ticked(Timer(t.lastInteraction, now, d.interval), AutoSwitch(a, d.switchX, d.picks), true)
    else Ticked(t, a, false)
  }

  /** After an interaction the timer stays quiet for the whole idle timeout. */
  lemma QuietAfterInteraction(t: Timer, a: Axes, t0: int, now: int, d: Draw)
    requires now - t0 <= IdleTimeout
    ensures !Tick(Touch(t, t0), a, now, d).switched
  {
  }

  /** Two auto-switches are always more than `MinInterval` apart. */
  lemma SwitchesSpaced(t: Timer, a: Axes, now1: int, d1: Draw, now2: int, d2: Draw)
    requires Due(t, now1) ==> DrawOk(a, d1)
    requires Tick(t, a, now1, d1).switched
    requires now2 - now1 <= MinInterval
    ensures !Tick(Tick(t, a, now1, d1).timer, Tick(t, a, now1, d1).axes, now2, d2).switched
  {
  }

  /** Draw streams good for any axis pair. */
  predicate DrawsOk(draws: seq<Draw>) {
    forall i :: 0 <= i < |draws| ==> Spread(draws[i].picks) && IntervalOk(draws[i].interval)
  }

  /** The state after an idle run; `fired` lists the switch times and `drawn` the interval drawn
      at each of them. */
  datatype Run = Run(timer: Timer, axes: Axes, fired: seq<int>, drawn: seq<int>)

  /** A sequence of frames without user input, at times `nows`. */
  function Idle(t: Timer, a: Axes, nows: seq<int>, draws: seq<Draw>): (r: Run)
    requires |draws| == |nows| && DrawsOk(draws)
    ensures r.timer.lastInteraction == t.lastInteraction
    ensures |r.fired| <= |nows| && |r.drawn| == |r.fired|
    decreases |nows|
  {
    if |nows| == 0 then Run(t, a, [], [])
    else
      SpreadCanPick(a, draws[0].picks);
      var s := Tick(t, a, nows[0], draws[0]);
      var rest := Idle(s.timer, s.axes, nows[1..], draws[1..]);
      if s.switched then Run(rest.timer, rest.axes, [nows[0]] + rest.fired, [draws[0].interval] + rest.drawn)
      else rest
  }

  /** The tail of an idle run after its first frame. */
  lemma DrawsTail(draws: seq<Draw>)
    requires |draws| > 0 && DrawsOk(draws)
    ensures DrawsOk(draws[1..])
  {
    forall i | 0 <= i < |draws[1..]| ensures Spread(draws[1..][i].picks) && IntervalOk(draws[1..][i].interval) {
      assert draws[1..][i] == draws[i + 1];
    }
  }

  /** One frame of an idle run: the tick, then the rest of the run, with the switch recorded
      in front when the tick fired. */
  lemma IdleUnfold(t: Timer, a: Axes, nows: seq<int>, draws: seq<Draw>)
    requires |draws| == |nows| > 0 && DrawsOk(draws)
    ensures CanPick(a, draws[0].picks) && DrawsOk(draws[1..])
    ensures var s := Tick(t, a, nows[0], draws[0]);
      var rest := Idle(s.timer, s.axes, nows[1..], draws[1..]);
      Idle(t, a, nows, draws)
        == if s.switched then Run(rest.timer, rest.axes, [nows[0]] + rest.fired, [draws[0].interval] + rest.drawn)
           else rest
  {
    SpreadCanPick(a, draws[0].picks);
    DrawsTail(draws);
  }

  /** The axes stay distinct over an idle run, and every drawn interval is in range. */
  lemma {:induction false} IdleRunState(t: Timer, a: Axes, nows: seq<int>, draws: seq<Draw>)
    requires |draws| == |nows| && DrawsOk(draws)
    requires IntervalOk(t.interval) && Valid(a)
    decreases |nows|
    ensures var r := Idle(t, a, nows, draws);
      && Valid(r.axes) && IntervalOk(r.timer.interval)
      && (forall i :: 0 <= i < |r.drawn| ==> IntervalOk(r.drawn[i]))
  {
    if |nows| > 0 {
      IdleUnfold(t, a, nows, draws);
      var s := Tick(t, a, nows[0], draws[0]);
      IdleRunState(s.timer, s.axes, nows[1..], draws[1..]);
      var rest := Idle(s.timer, s.axes, nows[1..], draws[1..]);
      if s.switched {
        var drawn := [draws[0].interval] + rest.drawn;
        forall i | 0 <= i < |drawn| ensures IntervalOk(drawn[i]) {
          if i > 0 { assert drawn[i] == rest.drawn[i - 1]; }
        }
      }
    }
  }

  /** Without a switch an idle run leaves the timer untouched; after one the timer holds the
      last switch time and the last drawn interval. */
  lemma {:induction false} IdleRunTimer(t: Timer, a: Axes, nows: seq<int>, draws: seq<Draw>)
    requires |draws| == |nows| && DrawsOk(draws)
    decreases |nows|
    ensures var r := Idle(t, a, nows, draws);
      && (|r.fired| == 0 ==> r.timer == t)
      && (|r.fired| > 0 ==> r.timer.lastAutoSwitch == r.fired[|r.fired| - 1]
                            && r.timer.interval == r.drawn[|r.drawn| - 1])
  {
    if |nows| > 0 {
      IdleUnfold(t, a, nows, draws);
      var s := Tick(t, a, nows[0], draws[0]);
      IdleRunTimer(s.timer, s.axes, nows[1..], draws[1..]);
      var rest := Idle(s.timer, s.axes, nows[1..], draws[1..]);
      if s.switched && |rest.fired| > 0 {
        var fired := [nows[0]] + rest.fired;
        var drawn := [draws[0].interval] + rest.drawn;
        assert fired[|fired| - 1] == rest.fired[|rest.fired| - 1];
        assert drawn[|drawn| - 1] == rest.drawn[|rest.drawn| - 1];
      }
    }
  }

  /** Over an idle run every switch happens after the idle timeout. The first switch comes more
      than the pending interval after the previous one, and each later one more than the
      interval drawn at the switch before it, so more than `MinInterval`. */
  lemma {:induction false} IdleRunSpaced(t: Timer, a: Axes, nows: seq<int>, draws: seq<Draw>)
    requires |draws| == |nows| && DrawsOk(draws)
    requires IntervalOk(t.interval) && Valid(a)
    decreases |nows|
    ensures var r := Idle(t, a, nows, draws);
      && (forall i :: 0 <= i < |r.fired| ==> r.fired[i] - t.lastInteraction > IdleTimeout)
      && (|r.fired| > 0 ==> r.fired[0] - t.lastAutoSwitch > t.interval)
      && (forall i :: 0 < i < |r.fired| ==> r.fired[i] - r.fired[i - 1] > r.drawn[i - 1])
      && (forall i :: 0 < i < |r.fired| ==> r.fired[i] - r.fired[i - 1] > MinInterval)
  {
    IdleRunState(t, a, nows, draws);
    if |nows| > 0 {
      IdleUnfold(t, a, nows, draws);
      var s := Tick(t, a, nows[0], draws[0]);
      IdleRunSpaced(s.timer, s.axes, nows[1..], draws[1..]);
      var rest := Idle(s.timer, s.axes, nows[1..], draws[1..]);
      if s.switched {
        var fired := [nows[0]] + rest.fired;
        var drawn := [draws[0].interval] + rest.drawn;
        forall i | 0 < i < |fired|
          ensures fired[i] - fired[i - 1] > drawn[i - 1]
        {
          if i > 1 {
            assert fired[i] == rest.fired[i - 1] && fired[i - 1] == rest.fired[i - 2];
            assert drawn[i - 1] == rest.drawn[i - 2];
          }
        }
      }
    }
  }
}
