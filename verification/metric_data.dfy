/** The loaded metric dataset and the per-metric value ranges used for normalisation. */
module MetricData {
  import opened Wrappers
  import opened MetricKeys

  /** One entry of the metrics file: a character and its metric values. */
  datatype Record = Record(ch: string, metrics: map<Metric, real>)

  /** The `(v_min, v_max)` pair stored in `self.ranges`. */
  datatype Range = Range(lo: real, hi: real)

  /** The nudge applied to an empty range. */
  const Epsilon: real := 0.001

  datatype LoadError = EmptyDataset | MissingMetric

  /** Python's `min` over a non-empty list. */
  function Min(s: seq<real>): (m: real)
    requires |s| > 0
    ensures m in s
    ensures forall i :: 0 <= i < |s| ==> m <= s[i]
  {
    if |s| == 1 then s[0]
    else
      var rest := Min(s[1..]);
      assert forall i :: 1 <= i < |s| ==> s[i] == s[1..][i - 1];
      if s[0] <= rest then s[0] else rest
  }

  /** Python's `max` over a non-empty list. */
  function Max(s: seq<real>): (m: real)
    requires |s| > 0
    ensures m in s
    ensures forall i :: 0 <= i < |s| ==> s[i] <= m
  {
    if |s| == 1 then s[0]
    else
      var rest := Max(s[1..]);
      assert forall i :: 1 <= i < |s| ==> s[i] == s[1..][i - 1];
      if s[0] >= rest then s[0] else rest
  }

  /** The strict min/max of `vals`, with the maximum nudged by `Epsilon` when the two coincide. */
  function NudgedRange(vals: seq<real>): (r: Range)
    requires |vals| > 0
    ensures r.lo < r.hi
    ensures r.lo in vals && forall i :: 0 <= i < |vals| ==> r.lo <= vals[i] <= r.hi
    ensures r.hi in vals || ((forall i :: 0 <= i < |vals| ==> vals[i] == r.lo) && r.hi == r.lo + Epsilon)
  {
    var lo, hi := Min(vals), Max(vals);
    if hi == lo then Range(lo, hi + Epsilon) else Range(lo, hi)
  }

  /** The strict min/max of `vals` without any nudge. */
  function PlainRange(vals: seq<real>): (r: Range)
    requires |vals| > 0
    ensures r.lo <= r.hi && r.lo in vals && r.hi in vals
    ensures forall i :: 0 <= i < |vals| ==> r.lo <= vals[i] <= r.hi
  {
    Range(Min(vals), Max(vals))
  }

  /** Every record has a value for metric `k`. */
  predicate HasMetric(data: seq<Record>, k: Metric) {
    forall i :: 0 <= i < |data| ==> k in data[i].metrics
  }

  /** The values of metric `k` across the records, in order. */
  function Column(data: seq<Record>, k: Metric): (c: seq<real>)
    requires HasMetric(data, k)
    ensures |c| == |data| && forall i :: 0 <= i < |data| ==> c[i] == data[i].metrics[k]
  {
    seq(|data|, i requires 0 <= i < |data| => data[i].metrics[k])
  }

  /** Every record has a value for every metric the first record has. */
  predicate Keyed(data: seq<Record>)
    requires |data| > 0
  {
    forall k :: k in data[0].metrics ==> HasMetric(data, k)
  }

  /** The range table computed at load time, over the keys of the first record. Reading
      `raw_data[0]` fails on an empty dataset and a record without one of those keys fails too. */
  function ComputeRanges(data: seq<Record>): (r: Result<map<Metric, Range>, LoadError>)
    ensures |data| == 0 <==> r == Failure(EmptyDataset)
    ensures r.Success? <==> |data| > 0 && Keyed(data)
    ensures r.Success? ==> r.value.Keys == data[0].metrics.Keys
    ensures r.Success? ==> forall k :: k in r.value ==>
              && r.value[k].lo < r.value[k].hi
              && (forall i :: 0 <= i < |data| ==> r.value[k].lo <= data[i].metrics[k] <= r.value[k].hi)
    ensures r.Success? ==> forall k :: k in r.value ==> HasMetric(data, k) && r.value[k] == NudgedRange(Column(data, k))
  {
    if |data| == 0 then Failure(EmptyDataset)
    else if !Keyed(data) then Failure(MissingMetric)
    else
      TableSpans(data);
      Success(RangeTable(data))
  }

  /** The nudged range of every metric of the first record, over all records. */
  function RangeTable(data: seq<Record>): (m: map<Metric, Range>)
    requires |data| > 0 && Keyed(data)
    ensures m.Keys == data[0].metrics.Keys
    ensures forall k :: k in m ==> HasMetric(data, k) && m[k] == NudgedRange(Column(data, k))
  {
    map k | k in data[0].metrics :: NudgedRange(Column(data, k))
  }

  /** Every range of the table is non-empty and brackets its metric's values. */
  lemma TableSpans(data: seq<Record>)
    requires |data| > 0 && Keyed(data)
    ensures forall k :: k in RangeTable(data) ==>
              && RangeTable(data)[k].lo < RangeTable(data)[k].hi
              && (forall i :: 0 <= i < |data| ==> RangeTable(data)[k].lo <= data[i].metrics[k] <= RangeTable(data)[k].hi)
  {
    var m := RangeTable(data);
    forall k | k in m
      ensures m[k].lo < m[k].hi
      ensures forall i :: 0 <= i < |data| ==> m[k].lo <= data[i].metrics[k] <= m[k].hi
    {
      var c := Column(data, k);
      assert m[k] == NudgedRange(c);
      forall i | 0 <= i < |data| ensures m[k].lo <= data[i].metrics[k] <= m[k].hi {
        assert c[i] == data[i].metrics[k];
      }
    }
  }

  /** The metrics of every current sprite carry `k`. */
  predicate AllHave(current: seq<map<Metric, real>>, k: Metric) {
    forall i :: 0 <= i < |current| ==> k in current[i]
  }

  function Values(current: seq<map<Metric, real>>, k: Metric): (c: seq<real>)
    requires AllHave(current, k)
    ensures |c| == |current| && forall i :: 0 <= i < |current| ==> c[i] == current[i][k]
  {
    seq(|current|, i requires 0 <= i < |current| => current[i][k])
  }

  /** `rg` brackets the values of metric `k` in `current`, and its low end is one of them. */
  predicate Spans(rg: Range, current: seq<map<Metric, real>>, k: Metric)
    requires AllHave(current, k)
  {
    && rg.lo <= rg.hi
    && (forall i :: 0 <= i < |current| ==> rg.lo <= current[i][k] <= rg.hi)
    && exists i :: 0 <= i < |current| && current[i][k] == rg.lo
  }

  /** The high end of `rg` is one of the values of metric `k` in `current`. */
  predicate HiAttained(rg: Range, current: seq<map<Metric, real>>, k: Metric)
    requires AllHave(current, k)
  {
    exists i :: 0 <= i < |current| && current[i][k] == rg.hi
  }

  /** The range update after a font change: density gets a nudged range, the two centre-of-gravity
      metrics get plain min/max ranges, every other range is kept. */
  function ReloadRanges(ranges: map<Metric, Range>, current: seq<map<Metric, real>>): (r: map<Metric, Range>)
    requires |current| > 0
    requires AllHave(current, Density) && AllHave(current, CogX) && AllHave(current, CogY)
    ensures r.Keys == ranges.Keys + {Density, CogX, CogY}
    ensures forall k :: k in ranges && k != Density && k != CogX && k != CogY ==> r[k] == ranges[k]
    ensures r[Density].lo < r[Density].hi
    ensures Spans(r[Density], current, Density) && Spans(r[CogX], current, CogX) && Spans(r[CogY], current, CogY)
    ensures HiAttained(r[CogX], current, CogX) && HiAttained(r[CogY], current, CogY)
    ensures || HiAttained(r[Density], current, Density)
            || (r[Density].hi == r[Density].lo + Epsilon
                && forall i :: 0 <= i < |current| ==> current[i][Density] == r[Density].lo)
  {
    var d := Fitted(current, Density, true);
    var cx := Fitted(current, CogX, false);
    var cy := Fitted(current, CogY, false);
    Override(ranges, d, cx, cy)
  }

  /** `ranges` with the density and centre-of-gravity entries replaced. */
  function Override(ranges: map<Metric, Range>, d: Range, cx: Range, cy: Range): (r: map<Metric, Range>)
    ensures r.Keys == ranges.Keys + {Density, CogX, CogY}
    ensures forall k :: k in ranges && k != Density && k != CogX && k != CogY ==> r[k] == ranges[k]
    ensures r[Density] == d && r[CogX] == cx && r[CogY] == cy
  {
    ranges[Density := d][CogX := cx][CogY := cy]
  }

  /** The range of metric `k` over `current`: nudged or plain. */
  function Fitted(current: seq<map<Metric, real>>, k: Metric, nudge: bool): (rg: Range)
    requires |current| > 0 && AllHave(current, k)
    ensures rg == if nudge then NudgedRange(Values(current, k)) else PlainRange(Values(current, k))
    ensures Spans(rg, current, k)
    ensures nudge ==> rg.lo < rg.hi
    ensures !nudge ==> HiAttained(rg, current, k)
    ensures nudge ==> || HiAttained(rg, current, k)
                      || (rg.hi == rg.lo + Epsilon && forall i :: 0 <= i < |current| ==> current[i][k] == rg.lo)
  {
    var vals := Values(current, k);
    var rg := if nudge then NudgedRange(vals) else PlainRange(vals);
    assert rg.lo in vals;
    rg
  }

  /** The centre-of-gravity ranges are not nudged: when all sprites share one value the range is
      empty, while the density range is widened by `Epsilon`. */
  lemma CogRangeCanBeEmpty(ranges: map<Metric, Range>, current: seq<map<Metric, real>>, d: real, cx: real, cy: real)
    requires |current| > 0
    requires forall i :: 0 <= i < |current| ==> current[i] == map[Density := d, CogX := cx, CogY := cy]
    ensures AllHave(current, Density) && AllHave(current, CogX) && AllHave(current, CogY)
    ensures var r := ReloadRanges(ranges, current);
            && r[CogX] == Range(cx, cx) && r[CogY] == Range(cy, cy)
            && r[Density] == Range(d, d + Epsilon)
  {
    var r := ReloadRanges(ranges, current);
    assert current[0][CogX] == cx && current[0][CogY] == cy && current[0][Density] == d;
  }
}
