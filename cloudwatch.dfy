/** The metric query both classifiers issue, and the activity signal they read
    from its result. The query itself (`get_metric_stats`: the `Minimum` of
    the metric over 60-second periods in the last `days` days, the first
    result set, or nothing on any error) is an input of the model. */
module CloudWatch {
  import opened Wrappers

  datatype Dimension = Dimension(name: string, value: string)

  datatype Metric = Metric(namespace: string, metricName: string, dimensions: seq<Dimension>)

  /** The first result of a metric-data query; its value list may be absent. */
  datatype MetricDataResult = MetricDataResult(values: Option<seq<real>>)

  /** `get_metric_stats(metric, days)`: a result set, or None when the query
      failed or returned none. */
  type MetricStats = (Metric, int) -> Option<MetricDataResult>

  const HealthyHostCount: string := "HealthyHostCount"

  function Sum(vs: seq<real>): real
  {
    if |vs| == 0 then 0.0 else vs[0] + Sum(vs[1..])
  }

  /** The activity signal: a result whose values (none when absent) sum to
      more than zero. A missing result shows no traffic. */
  predicate ShowsTraffic(stats: Option<MetricDataResult>)
  {
    match stats
    case Some(result) => Sum(result.values.GetOr([])) > 0.0
    case None => false
  }

  ghost predicate NonNegative(vs: seq<real>)
  {
    forall i :: 0 <= i < |vs| ==> vs[i] >= 0.0
  }

  /** Healthy-host counts are never negative: their sum is positive exactly
      when one of them is. */
  lemma {:induction false} PositiveSumIffPositiveValue(vs: seq<real>)
    requires NonNegative(vs)
    ensures Sum(vs) >= 0.0
    ensures Sum(vs) > 0.0 <==> exists i :: 0 <= i < |vs| && vs[i] > 0.0
  {
    if |vs| > 0 {
      PositiveSumIffPositiveValue(vs[1..]);
      if exists i :: 0 <= i < |vs| && vs[i] > 0.0 {
        var i :| 0 <= i < |vs| && vs[i] > 0.0;
        if i > 0 {
          assert vs[1..][i - 1] > 0.0;
        }
      }
      if exists i :: 0 <= i < |vs[1..]| && vs[1..][i] > 0.0 {
        var i :| 0 <= i < |vs[1..]| && vs[1..][i] > 0.0;
        assert vs[i + 1] > 0.0;
      }
    }
  }

  /** With non-negative counts, a result shows traffic exactly when it is
      present, carries a value list, and one of the values is positive; an
      absent result, an absent list and an empty list all show none. */
  lemma ShowsTrafficIffPositiveValue(stats: Option<MetricDataResult>)
    requires stats.Some? && stats.value.values.Some? ==> NonNegative(stats.value.values.value)
    ensures ShowsTraffic(stats) <==>
      stats.Some? && stats.value.values.Some? &&
      exists i :: 0 <= i < |stats.value.values.value| && stats.value.values.value[i] > 0.0
  {
    if stats.Some? && stats.value.values.Some? {
      PositiveSumIffPositiveValue(stats.value.values.value);
    }
  }
}
