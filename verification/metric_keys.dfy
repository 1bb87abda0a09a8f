/** The fixed list of shape metrics (the METRICS constant), in its cyclic order. */
module MetricKeys {

  datatype Metric =
    | HorizontalRatio | VerticalRatio | DiagonalRatio | ScaleFactor
    | Density | CogX | CogY | SkeletonLength
    | Holes | Discreteness | Inertia | Endpoints

  const Metrics: seq<Metric> :=
    [ HorizontalRatio, VerticalRatio, DiagonalRatio, ScaleFactor,
      Density, CogX, CogY, SkeletonLength,
      Holes, Discreteness, Inertia, Endpoints ]

  /** No metric occurs twice in the list (and `IndexOf` finds every one in it). */
  lemma MetricsUnique()
    ensures forall i, j :: 0 <= i < j < |Metrics| ==> Metrics[i] != Metrics[j]
  {
  }

  /** `METRICS.index(m)`: the position of `m` in the list (its only occurrence). */
  function IndexOf(m: Metric): (i: nat)
    ensures i < |Metrics| && Metrics[i] == m
  {
    match m
    case HorizontalRatio => 0
    case VerticalRatio => 1
    case DiagonalRatio => 2
    case ScaleFactor => 3
    case Density => 4
    case CogX => 5
    case CogY => 6
    case SkeletonLength => 7
    case Holes => 8
    case Discreteness => 9
    case Inertia => 10
    case Endpoints => 11
  }

  /** Every position holds the metric whose index it is. */
  lemma IndexOfInverse(i: nat)
    requires i < |Metrics|
    ensures IndexOf(Metrics[i]) == i
  {
    MetricsUnique();
  }

  lemma MetricsDistinct(i: nat, j: nat)
    requires i < |Metrics| && j < |Metrics| && i != j
    ensures Metrics[i] != Metrics[j]
  {
    MetricsUnique();
  }

  /** Every metric has a value in `m` (every record carries the full metric vector). */
  predicate Complete<V>(m: map<Metric, V>) {
    forall k: Metric :: k in m
  }
}
