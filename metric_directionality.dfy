/** audition/metric_directionality.py. The catwalk metric registry is the
    map `availableMetrics` from metric name to its greater-is-better flag. */
module MetricDirectionality {
  import Utils

  function GreaterIsBetter(availableMetrics: map<string, bool>, metric: string): (r: bool)
    ensures metric in availableMetrics ==> r == availableMetrics[metric]
    ensures metric !in availableMetrics ==> r
  {
    if metric in availableMetrics then availableMetrics[metric] else true
  }

  /** The SQL ORDER BY direction that puts the best value first. */
  function SqlRankOrder(availableMetrics: map<string, bool>, metric: string): (order: string)
    ensures order == "desc" <==> GreaterIsBetter(availableMetrics, metric)
    ensures order == "asc" <==> !GreaterIsBetter(availableMetrics, metric)
  {
    if GreaterIsBetter(availableMetrics, metric) then "desc" else "asc"
  }

  /** The two copies of `greater_is_better` agree on every registry and metric. */
  lemma GreaterIsBetterAgreesWithUtils(availableMetrics: map<string, bool>, metric: string)
    ensures GreaterIsBetter(availableMetrics, metric) == Utils.GreaterIsBetter(availableMetrics, metric)
  {
  }
}
