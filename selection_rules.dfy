/** Selection rules: each picks one model group from the distance-from-best
    rows a user could have seen so far. The random shuffle the rules apply
    before `idxmax` or `[0]` is the `tieBreak` parameter: it picks one of the
    tied candidates, and every tied candidate is picked by some value. */
module SelectionRules {
  import opened Results
  import opened Collections
  import opened Tables
  import DistanceFromBest

  /** The message pandas raises from `idxmax` of an empty series. */
  const EmptyArgmax := "attempt to get argmax of an empty sequence"
  const WeightOutOfRange := "Metric weight must be between 0 and 1"

  /** The weight `highest_average_two_metrics` gives metric1 when none is passed. */
  const DefaultMetric1Weight: real := 0.5

  predicate Matches(r: ViewRow, metric: string, param: string) {
    r.metric == metric && r.parameter == param
  }

  /** The rows for one metric and parameter. */
  function MetricRows(df: seq<ViewRow>, metric: string, param: string): seq<ViewRow> {
    Filter(df, (r: ViewRow) => Matches(r, metric, param))
  }

  /** The rows of one model group. */
  function GroupRows(rows: seq<ViewRow>, g: int): seq<ViewRow> {
    Filter(rows, (r: ViewRow) => r.modelGroupId == g)
  }

  /** The distinct model groups of `rows` (the `groupby` keys). */
  function Groups(rows: seq<ViewRow>): (gs: seq<int>)
    ensures forall g :: g in gs <==> exists r :: r in rows && r.modelGroupId == g
  {
    var ids := MapSeq(rows, (r: ViewRow) => r.modelGroupId);
    assert forall r :: r in rows ==> r.modelGroupId in ids by {
      forall r | r in rows ensures r.modelGroupId in ids {
        var i :| 0 <= i < |rows| && rows[i] == r;
        assert ids[i] == r.modelGroupId;
      }
    }
    Distinct(ids)
  }

  /** A model group's score aggregated per group, shuffled, and the group
      with the largest score taken: a model group of `rows` with the largest
      score, or the `idxmax` error when there is no row. */
  function GroupPick(rows: seq<ViewRow>, score: int -> real, tieBreak: nat): (r: Result<int>)
    ensures r.Err? <==> |rows| == 0
    ensures r.Err? ==> r.error == ValueError(EmptyArgmax)
    ensures r.Ok? ==> exists row :: row in rows && row.modelGroupId == r.value
    ensures r.Ok? ==> forall row :: row in rows ==> score(row.modelGroupId) <= score(r.value)
  {
    if |rows| == 0 then Err(ValueError(EmptyArgmax))
    else
      assert rows[0].modelGroupId in Groups(rows);
      Ok(ArgmaxPick(Groups(rows), score, tieBreak))
  }

  /** Every best-scoring model group of `rows` is picked for some tie break. */
  lemma GroupPickReachesEveryBest(rows: seq<ViewRow>, score: int -> real, g: int)
    requires exists row :: row in rows && row.modelGroupId == g
    requires forall row :: row in rows ==> score(row.modelGroupId) <= score(g)
    ensures exists tieBreak: nat :: GroupPick(rows, score, tieBreak) == Ok(g)
  {
    var gs := Groups(rows);
    assert IsMaximal(gs, score, g);
    ArgmaxPickReachesEveryMaximizer(gs, score, g);
    var t: nat :| ArgmaxPick(gs, score, t) == g;
    assert GroupPick(rows, score, t) == Ok(g);
  }

  /** `GroupPick` over the rows of one metric, whatever the score. */
  lemma PickOverMetricRows(df: seq<ViewRow>, metric: string, param: string, score: int -> real, tieBreak: nat)
    ensures var r := GroupPick(MetricRows(df, metric, param), score, tieBreak);
      && (r.Err? <==> !exists row :: row in df && Matches(row, metric, param))
      && (r.Err? ==> r.error == ValueError(EmptyArgmax))
      && (r.Ok? ==> exists row :: row in df && Matches(row, metric, param) && row.modelGroupId == r.value)
      && (r.Ok? ==> forall row :: row in df && Matches(row, metric, param) ==> score(row.modelGroupId) <= score(r.value))
  {
    var met := MetricRows(df, metric, param);
    if |met| == 0 {
      assert forall row :: row in df && Matches(row, metric, param) ==> row in met;
    }
  }

  // ---- highest_metric_value ----------------------------------------------

  /** The rows of the current train end time for the metric. */
  function CurrentRows(df: seq<ViewRow>, trainEndTime: int, metric: string, param: string): seq<ViewRow> {
    Filter(df, (r: ViewRow) => r.trainEndTime == trainEndTime && Matches(r, metric, param))
  }

  /** The model group of a row with the highest current raw value; indexing
      the empty selection raises IndexError. */
  function HighestMetricValue(df: seq<ViewRow>, trainEndTime: int, metric: string, param: string, tieBreak: nat): (r: Result<int>)
    ensures r.Err? <==> !exists row :: row in df && row.trainEndTime == trainEndTime && Matches(row, metric, param)
    ensures r.Err? ==> r.error == IndexError
    ensures r.Ok? ==> exists row :: (row in df && row.trainEndTime == trainEndTime && Matches(row, metric, param)
      && row.modelGroupId == r.value
      && forall other :: other in df && other.trainEndTime == trainEndTime && Matches(other, metric, param) ==>
           other.rawValue <= row.rawValue)
  {
    var current := CurrentRows(df, trainEndTime, metric, param);
    if |current| == 0 then Err(IndexError)
    else
      var best := ArgmaxPick(current, (row: ViewRow) => row.rawValue, tieBreak);
      Ok(best.modelGroupId)
  }

  /** The group of every row with the highest current raw value is picked for
      some tie break. */
  lemma HighestMetricValueReachesEveryBest(df: seq<ViewRow>, trainEndTime: int, metric: string, param: string, row: ViewRow)
    requires row in df && row.trainEndTime == trainEndTime && Matches(row, metric, param)
    requires forall other :: other in df && other.trainEndTime == trainEndTime && Matches(other, metric, param) ==>
      other.rawValue <= row.rawValue
    ensures exists tieBreak: nat :: HighestMetricValue(df, trainEndTime, metric, param, tieBreak) == Ok(row.modelGroupId)
  {
    var current := CurrentRows(df, trainEndTime, metric, param);
    var score := (r: ViewRow) => r.rawValue;
    assert IsMaximal(current, score, row);
    ArgmaxPickReachesEveryMaximizer(current, score, row);
    var t: nat :| ArgmaxPick(current, score, t) == row;
    assert HighestMetricValue(df, trainEndTime, metric, param, t) == Ok(row.modelGroupId);
  }

  // ---- highest_average_value ---------------------------------------------

  /** The mean raw value of a model group's rows. */
  function AverageValue(rows: seq<ViewRow>, g: int): real {
    Mean(MapSeq(GroupRows(rows, g), (r: ViewRow) => r.rawValue))
  }

  function AverageScorer(rows: seq<ViewRow>): int -> real {
    g => AverageValue(rows, g)
  }

  /** The model group with the highest mean raw value for the metric over all
      rows so far. */
  function HighestAverageValue(df: seq<ViewRow>, trainEndTime: int, metric: string, param: string, tieBreak: nat): (r: Result<int>)
    ensures r.Err? <==> !exists row :: row in df && Matches(row, metric, param)
    ensures r.Err? ==> r.error == ValueError(EmptyArgmax)
    ensures r.Ok? ==> exists row :: row in df && Matches(row, metric, param) && row.modelGroupId == r.value
    ensures r.Ok? ==> forall row :: row in df && Matches(row, metric, param) ==>
      AverageValue(MetricRows(df, metric, param), row.modelGroupId) <= AverageValue(MetricRows(df, metric, param), r.value)
  {
    var met := MetricRows(df, metric, param);
    PickOverMetricRows(df, metric, param, AverageScorer(met), tieBreak);
    GroupPick(met, AverageScorer(met), tieBreak)
  }

  lemma HighestAverageValueReachesEveryBest(df: seq<ViewRow>, trainEndTime: int, metric: string, param: string, g: int)
    requires exists row :: row in df && Matches(row, metric, param) && row.modelGroupId == g
    requires forall row :: row in df && Matches(row, metric, param) ==>
      AverageValue(MetricRows(df, metric, param), row.modelGroupId) <= AverageValue(MetricRows(df, metric, param), g)
    ensures exists tieBreak: nat :: HighestAverageValue(df, trainEndTime, metric, param, tieBreak) == Ok(g)
  {
    var met := MetricRows(df, metric, param);
    var score := AverageScorer(met);
    var row :| row in df && Matches(row, metric, param) && row.modelGroupId == g;
    assert row in met;
    assert forall other :: other in met ==> score(other.modelGroupId) <= score(g);
    GroupPickReachesEveryBest(met, score, g);
    var t: nat :| GroupPick(met, score, t) == Ok(g);
    assert HighestAverageValue(df, trainEndTime, metric, param, t) == Ok(g);
  }

  // ---- most_frequent_best_dist -------------------------------------------

  /** The fraction of a model group's rows within `distFromBest` of the best. */
  function WithinDistFraction(rows: seq<ViewRow>, distFromBest: real, g: int): real {
    DistanceFromBest.PctOfTime(MapSeq(GroupRows(rows, g), (r: ViewRow) => r.belowBest), distFromBest)
  }

  function WithinDistScorer(rows: seq<ViewRow>, distFromBest: real): int -> real {
    g => WithinDistFraction(rows, distFromBest, g)
  }

  /** The model group most often within `distFromBest` of the best. */
  function MostFrequentBestDist(df: seq<ViewRow>, trainEndTime: int, metric: string, param: string, distFromBest: real, tieBreak: nat): (r: Result<int>)
    ensures r.Err? <==> !exists row :: row in df && Matches(row, metric, param)
    ensures r.Err? ==> r.error == ValueError(EmptyArgmax)
    ensures r.Ok? ==> exists row :: row in df && Matches(row, metric, param) && row.modelGroupId == r.value
    ensures r.Ok? ==> forall row :: row in df && Matches(row, metric, param) ==>
      WithinDistFraction(MetricRows(df, metric, param), distFromBest, row.modelGroupId)
        <= WithinDistFraction(MetricRows(df, metric, param), distFromBest, r.value)
  {
    var met := MetricRows(df, metric, param);
    PickOverMetricRows(df, metric, param, WithinDistScorer(met, distFromBest), tieBreak);
    GroupPick(met, WithinDistScorer(met, distFromBest), tieBreak)
  }

  /** The score is the number of the group's rows with `below_best <=
      distFromBest` divided by the number of the group's rows. */
  lemma WithinDistFractionIsCount(rows: seq<ViewRow>, distFromBest: real, g: int)
    requires exists row :: row in rows && row.modelGroupId == g
    ensures var ds := MapSeq(GroupRows(rows, g), (r: ViewRow) => r.belowBest);
      && |ds| > 0
      && WithinDistFraction(rows, distFromBest, g) == (DistanceFromBest.CountWithin(ds, distFromBest) as real) / (|ds| as real)
      && 0.0 <= WithinDistFraction(rows, distFromBest, g) <= 1.0
  {
    var row :| row in rows && row.modelGroupId == g;
    assert row in GroupRows(rows, g);
    var ds := MapSeq(GroupRows(rows, g), (r: ViewRow) => r.belowBest);
    DistanceFromBest.PctOfTimeIsFraction(ds, distFromBest);
  }

  lemma MostFrequentBestDistReachesEveryBest(df: seq<ViewRow>, trainEndTime: int, metric: string, param: string, distFromBest: real, g: int)
    requires exists row :: row in df && Matches(row, metric, param) && row.modelGroupId == g
    requires forall row :: row in df && Matches(row, metric, param) ==>
      WithinDistFraction(MetricRows(df, metric, param), distFromBest, row.modelGroupId)
        <= WithinDistFraction(MetricRows(df, metric, param), distFromBest, g)
    ensures exists tieBreak: nat :: MostFrequentBestDist(df, trainEndTime, metric, param, distFromBest, tieBreak) == Ok(g)
  {
    var met := MetricRows(df, metric, param);
    var score := WithinDistScorer(met, distFromBest);
    var row :| row in df && Matches(row, metric, param) && row.modelGroupId == g;
    assert row in met;
    assert forall other :: other in met ==> score(other.modelGroupId) <= score(g);
    GroupPickReachesEveryBest(met, score, g);
    var t: nat :| GroupPick(met, score, t) == Ok(g);
    assert MostFrequentBestDist(df, trainEndTime, metric, param, distFromBest, t) == Ok(g);
  }

  // ---- highest_average_two_metrics ---------------------------------------

  /** A row's `weighted_raw`: rows of the second metric are weighted by
      `1 - metric1Weight`, and that assignment comes last, so it wins when
      the two metrics coincide. */
  function WeightedRaw(r: ViewRow, metric1: string, param1: string, metric2: string, param2: string, metric1Weight: real): real {
    if Matches(r, metric2, param2) then r.rawValue * (1.0 - metric1Weight)
    else r.rawValue * metric1Weight
  }

  /** The rows of either metric. */
  function TwoMetricRows(df: seq<ViewRow>, metric1: string, param1: string, metric2: string, param2: string): seq<ViewRow> {
    Filter(df, (r: ViewRow) => Matches(r, metric1, param1) || Matches(r, metric2, param2))
  }

  /** The group's weighted sum at one train end time. */
  function WeightedSumAt(groupRows: seq<ViewRow>, t: int, metric1: string, param1: string, metric2: string, param2: string, metric1Weight: real): real {
    Sum(MapSeq(Filter(groupRows, (r: ViewRow) => r.trainEndTime == t),
      (r: ViewRow) => WeightedRaw(r, metric1, param1, metric2, param2, metric1Weight)))
  }

  /** The train end times at which a group has rows. */
  function TimesOf(groupRows: seq<ViewRow>): seq<int> {
    Distinct(MapSeq(groupRows, (r: ViewRow) => r.trainEndTime))
  }

  /** The mean over the group's train end times of its weighted sums. */
  function TwoMetricScore(rows: seq<ViewRow>, metric1: string, param1: string, metric2: string, param2: string, metric1Weight: real, g: int): real {
    var groupRows := GroupRows(rows, g);
    Mean(MapSeq(TimesOf(groupRows), t => WeightedSumAt(groupRows, t, metric1, param1, metric2, param2, metric1Weight)))
  }

  function TwoMetricScorer(rows: seq<ViewRow>, metric1: string, param1: string, metric2: string, param2: string, metric1Weight: real): int -> real {
    g => TwoMetricScore(rows, metric1, param1, metric2, param2, metric1Weight, g)
  }

  /** `GroupPick` over the rows of either metric, whatever the score. */
  lemma PickOverTwoMetricRows(df: seq<ViewRow>, metric1: string, param1: string, metric2: string, param2: string,
                              score: int -> real, tieBreak: nat)
    ensures var r := GroupPick(TwoMetricRows(df, metric1, param1, metric2, param2), score, tieBreak);
      && (r.Err? <==> !exists row :: row in df && (Matches(row, metric1, param1) || Matches(row, metric2, param2)))
      && (r.Err? ==> r.error == ValueError(EmptyArgmax))
      && (r.Ok? ==> exists row :: (row in df && (Matches(row, metric1, param1) || Matches(row, metric2, param2))
            && row.modelGroupId == r.value))
      && (r.Ok? ==> forall row :: row in df && (Matches(row, metric1, param1) || Matches(row, metric2, param2)) ==>
            score(row.modelGroupId) <= score(r.value))
  {
    var met := TwoMetricRows(df, metric1, param1, metric2, param2);
    if |met| == 0 {
      assert forall row :: row in df && (Matches(row, metric1, param1) || Matches(row, metric2, param2)) ==> row in met;
    }
  }

  /** Every best-scoring group over the rows of either metric is picked for
      some tie break, whatever the score. */
  lemma PickOverTwoMetricRowsReachesEveryBest(df: seq<ViewRow>, metric1: string, param1: string, metric2: string, param2: string,
                                              score: int -> real, g: int)
    requires exists row :: row in df && (Matches(row, metric1, param1) || Matches(row, metric2, param2)) && row.modelGroupId == g
    requires forall row :: row in df && (Matches(row, metric1, param1) || Matches(row, metric2, param2)) ==>
      score(row.modelGroupId) <= score(g)
    ensures exists tieBreak: nat :: GroupPick(TwoMetricRows(df, metric1, param1, metric2, param2), score, tieBreak) == Ok(g)
  {
    var met := TwoMetricRows(df, metric1, param1, metric2, param2);
    var row :| row in df && (Matches(row, metric1, param1) || Matches(row, metric2, param2)) && row.modelGroupId == g;
    assert row in met;
    GroupPickReachesEveryBest(met, score, g);
  }

  /** The model group with the highest average combined value of the two
      metrics; a weight outside [0, 1] is refused. */
  function HighestAverageTwoMetrics(df: seq<ViewRow>, trainEndTime: int, metric1: string, param1: string,
                                    metric2: string, param2: string, metric1Weight: real, tieBreak: nat): (r: Result<int>)
    ensures (metric1Weight < 0.0 || metric1Weight > 1.0) ==> r == Err(ValueError(WeightOutOfRange))
    ensures 0.0 <= metric1Weight <= 1.0 ==>
      (r.Err? <==> !exists row :: row in df && (Matches(row, metric1, param1) || Matches(row, metric2, param2)))
    ensures 0.0 <= metric1Weight <= 1.0 && r.Err? ==> r.error == ValueError(EmptyArgmax)
    ensures r.Ok? ==> exists row :: (row in df && (Matches(row, metric1, param1) || Matches(row, metric2, param2))
      && row.modelGroupId == r.value)
    ensures r.Ok? ==> forall row :: row in df && (Matches(row, metric1, param1) || Matches(row, metric2, param2)) ==>
      var met := TwoMetricRows(df, metric1, param1, metric2, param2);
      TwoMetricScore(met, metric1, param1, metric2, param2, metric1Weight, row.modelGroupId)
        <= TwoMetricScore(met, metric1, param1, metric2, param2, metric1Weight, r.value)
  {
    if metric1Weight < 0.0 || metric1Weight > 1.0 then Err(ValueError(WeightOutOfRange))
    else
      var met := TwoMetricRows(df, metric1, param1, metric2, param2);
      var score := TwoMetricScorer(met, metric1, param1, metric2, param2, metric1Weight);
      PickOverTwoMetricRows(df, metric1, param1, metric2, param2, score, tieBreak);
      GroupPick(met, score, tieBreak)
  }

  lemma HighestAverageTwoMetricsReachesEveryBest(df: seq<ViewRow>, trainEndTime: int, metric1: string, param1: string,
                                                 metric2: string, param2: string, metric1Weight: real, g: int)
    requires 0.0 <= metric1Weight <= 1.0
    requires exists row :: row in df && (Matches(row, metric1, param1) || Matches(row, metric2, param2)) && row.modelGroupId == g
    requires forall row :: row in df && (Matches(row, metric1, param1) || Matches(row, metric2, param2)) ==>
      var met := TwoMetricRows(df, metric1, param1, metric2, param2);
      TwoMetricScore(met, metric1, param1, metric2, param2, metric1Weight, row.modelGroupId)
        <= TwoMetricScore(met, metric1, param1, metric2, param2, metric1Weight, g)
    ensures exists tieBreak: nat ::
      HighestAverageTwoMetrics(df, trainEndTime, metric1, param1, metric2, param2, metric1Weight, tieBreak) == Ok(g)
  {
    var met := TwoMetricRows(df, metric1, param1, metric2, param2);
    var score := TwoMetricScorer(met, metric1, param1, metric2, param2, metric1Weight);
    PickOverTwoMetricRowsReachesEveryBest(df, metric1, param1, metric2, param2, score, g);
    var t: nat :| GroupPick(met, score, t) == Ok(g);
    TwoMetricsPick(df, trainEndTime, metric1, param1, metric2, param2, metric1Weight, t);
  }

  /** With an allowed weight the rule is the pick by the two-metric score. */
  lemma TwoMetricsPick(df: seq<ViewRow>, trainEndTime: int, metric1: string, param1: string,
                       metric2: string, param2: string, metric1Weight: real, tieBreak: nat)
    requires 0.0 <= metric1Weight <= 1.0
    ensures var met := TwoMetricRows(df, metric1, param1, metric2, param2);
      HighestAverageTwoMetrics(df, trainEndTime, metric1, param1, metric2, param2, metric1Weight, tieBreak)
        == GroupPick(met, TwoMetricScorer(met, metric1, param1, metric2, param2, metric1Weight), tieBreak)
  {
  }

  // ---- the registry ------------------------------------------------------

  /** The entries of the rule registry that are modelled, with the extra
      arguments each takes; an absent metric1 weight is the default. */
  datatype SelectionRule =
    | HighestMetricValueRule
    | HighestAverageValueRule
    | MostFrequentBestDistRule(distFromBest: real)
    | HighestAverageTwoMetricsRule(metric2: string, param2: string, metric1Weight: Option<real>)

  /** The registry key of a rule. */
  function RuleName(rule: SelectionRule): string {
    match rule
    case HighestMetricValueRule => "highest_metric_value"
    case HighestAverageValueRule => "highest_average_value"
    case MostFrequentBestDistRule(_) => "most_frequent_best_dist"
    case HighestAverageTwoMetricsRule(_, _, _) => "highest_average_two_metrics"
  }

  /** Applies a rule; whichever rule it is, a picked model group is one that
      has a row in the frame. */
  function ApplyRule(rule: SelectionRule, df: seq<ViewRow>, trainEndTime: int, metric: string, param: string, tieBreak: nat): (r: Result<int>)
    ensures r.Ok? ==> exists row :: row in df && row.modelGroupId == r.value
    ensures |df| == 0 ==> r.Err?
  {
    match rule
    case HighestMetricValueRule => HighestMetricValue(df, trainEndTime, metric, param, tieBreak)
    case HighestAverageValueRule => HighestAverageValue(df, trainEndTime, metric, param, tieBreak)
    case MostFrequentBestDistRule(d) => MostFrequentBestDist(df, trainEndTime, metric, param, d, tieBreak)
    case HighestAverageTwoMetricsRule(metric2, param2, w) =>
      var weight := if w.Some? then w.value else DefaultMetric1Weight;
      HighestAverageTwoMetrics(df, trainEndTime, metric, param, metric2, param2, weight, tieBreak)
  }

  /** Called without a weight, the two-metric rule weighs both metrics
      equally, and the weight check never refuses that. */
  lemma DefaultWeightAccepted(df: seq<ViewRow>, trainEndTime: int, metric1: string, param1: string,
                              metric2: string, param2: string, tieBreak: nat)
    ensures HighestAverageTwoMetrics(df, trainEndTime, metric1, param1, metric2, param2, DefaultMetric1Weight, tieBreak)
      != Err(ValueError(WeightOutOfRange))
  {
    var r := HighestAverageTwoMetrics(df, trainEndTime, metric1, param1, metric2, param2, DefaultMetric1Weight, tieBreak);
    assert |EmptyArgmax| != |WeightOutOfRange|;
    assert r.Err? ==> r.error == ValueError(EmptyArgmax);
  }
}
