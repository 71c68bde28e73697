/** audition/distance_from_best.py: the distance-from-best table and the
    "percent of time within X of best" histogram over it. */
module DistanceFromBest {
  import opened Results
  import opened Collections
  import opened Tables

  /** One entry of the `metrics` list: `{'metric': ..., 'param': ...}`. */
  datatype MetricSpec = MetricSpec(metric: string, param: string)

  /** The WHERE clause of `model_ranks`: the requested metric and parameter,
      a listed model group and a listed train end time. */
  predicate Selected(e: Evaluation, spec: MetricSpec, modelGroupIds: seq<int>, trainEndTimes: seq<int>) {
    && e.metric == spec.metric
    && e.parameter == spec.param
    && e.modelGroupId in modelGroupIds
    && e.trainEndTime in trainEndTimes
  }

  /** The evaluations `model_ranks` ranks for one metric. */
  function Ranked(evaluations: seq<Evaluation>, spec: MetricSpec, modelGroupIds: seq<int>, trainEndTimes: seq<int>): seq<Evaluation> {
    Filter(evaluations, e => Selected(e, spec, modelGroupIds, trainEndTimes))
  }

  /** The value of the rank-1 evaluation at time `t` under the descending
      ranking: the largest value at `t`, if any. */
  function BestValueAt(sel: seq<Evaluation>, t: int): (best: Option<real>)
    ensures best.None? <==> forall i :: 0 <= i < |sel| ==> sel[i].trainEndTime != t
    ensures best.Some? ==> exists i :: 0 <= i < |sel| && sel[i].trainEndTime == t && sel[i].value == best.value
    ensures best.Some? ==> forall i :: 0 <= i < |sel| && sel[i].trainEndTime == t ==> sel[i].value <= best.value
  {
    if |sel| == 0 then None
    else
      var rest := BestValueAt(sel[1..], t);
      assert forall i :: 1 <= i < |sel| ==> sel[i] == sel[1..][i - 1];
      if sel[0].trainEndTime != t then rest
      else if rest.Some? && rest.value > sel[0].value then rest
      else Some(sel[0].value)
  }

  /** `best_val - value` for the `i`-th ranked evaluation. */
  function BelowBest(sel: seq<Evaluation>, i: nat): real
    requires i < |sel|
  {
    BestValueAt(sel, sel[i].trainEndTime).value - sel[i].value
  }

  /** Row `j` follows row `i` in the window `partition by model_group_id
      order by train_end_time asc`; rows of one group with equal times,
      which SQL leaves in no particular order, are taken in list order. */
  predicate LaterInGroup(sel: seq<Evaluation>, i: nat, j: nat)
    requires i < |sel| && j < |sel|
  {
    && sel[j].modelGroupId == sel[i].modelGroupId
    && (sel[j].trainEndTime > sel[i].trainEndTime || (sel[j].trainEndTime == sel[i].trainEndTime && j > i))
  }

  /** Row `j` comes before row `k` in that window order. */
  predicate WindowBefore(sel: seq<Evaluation>, j: nat, k: nat)
    requires j < |sel| && k < |sel|
  {
    sel[j].trainEndTime < sel[k].trainEndTime || (sel[j].trainEndTime == sel[k].trainEndTime && j < k)
  }

  /** Among the first `n` rows, the one right after row `i` in its group's
      window (`rows between 1 following and unbounded following`, first value). */
  function NextInGroup(sel: seq<Evaluation>, i: nat, n: nat): (r: Option<nat>)
    requires i < |sel| && n <= |sel|
    ensures r.Some? ==> r.value < n && LaterInGroup(sel, i, r.value)
    ensures r.Some? ==> forall k :: 0 <= k < n && LaterInGroup(sel, i, k) ==> k == r.value || WindowBefore(sel, r.value, k)
    ensures r.None? ==> forall k :: 0 <= k < n ==> !LaterInGroup(sel, i, k)
  {
    if n == 0 then None
    else
      var prev := NextInGroup(sel, i, n - 1);
      if LaterInGroup(sel, i, n - 1) && (prev.None? || sel[n - 1].trainEndTime < sel[prev.value].trainEndTime)
      then Some(n - 1)
      else prev
  }

  /** The row `current_best_vals` and the final select produce for the
      `i`-th ranked evaluation. */
  function DistanceRow(sel: seq<Evaluation>, spec: MetricSpec, i: nat): Row
    requires i < |sel|
  {
    var next := match NextInGroup(sel, i, |sel|)
      case None => None
      case Some(j) => Some(BelowBest(sel, j));
    Row(sel[i].modelGroupId, sel[i].modelId, sel[i].trainEndTime, spec.metric, spec.param,
        sel[i].value, BelowBest(sel, i), next)
  }

  /** The rows one iteration of `_populate`'s loop inserts for `spec`. */
  function Batch(evaluations: seq<Evaluation>, modelGroupIds: seq<int>, trainEndTimes: seq<int>, spec: MetricSpec): (rows: seq<Row>)
    ensures |rows| == |Ranked(evaluations, spec, modelGroupIds, trainEndTimes)|
  {
    var sel := Ranked(evaluations, spec, modelGroupIds, trainEndTimes);
    seq(|sel|, i requires 0 <= i < |sel| => DistanceRow(sel, spec, i))
  }

  /** Row `r` carries evaluation `e`: same model, time, metric and value. */
  predicate Carries(r: Row, e: Evaluation) {
    && r.modelGroupId == e.modelGroupId
    && r.modelId == e.modelId
    && r.trainEndTime == e.trainEndTime
    && r.metric == e.metric
    && r.parameter == e.parameter
    && r.rawValue == e.value
  }

  /** The rows of a batch are exactly the selected evaluations, one row each:
      nothing outside the requested metric, groups and times gets a row, and
      every selected evaluation gets one. */
  lemma BatchRowsAreSelectedEvaluations(evaluations: seq<Evaluation>, modelGroupIds: seq<int>, trainEndTimes: seq<int>, spec: MetricSpec)
    ensures forall r :: r in Batch(evaluations, modelGroupIds, trainEndTimes, spec) ==>
      exists e :: e in evaluations && Selected(e, spec, modelGroupIds, trainEndTimes) && Carries(r, e)
    ensures forall e :: e in evaluations && Selected(e, spec, modelGroupIds, trainEndTimes) ==>
      exists r :: r in Batch(evaluations, modelGroupIds, trainEndTimes, spec) && Carries(r, e)
  {
    var sel := Ranked(evaluations, spec, modelGroupIds, trainEndTimes);
    var rows := Batch(evaluations, modelGroupIds, trainEndTimes, spec);
    forall r | r in rows
      ensures exists e :: e in evaluations && Selected(e, spec, modelGroupIds, trainEndTimes) && Carries(r, e)
    {
      var i :| 0 <= i < |rows| && rows[i] == r;
      assert sel[i] in sel;
      assert Carries(r, sel[i]);
    }
    forall e | e in evaluations && Selected(e, spec, modelGroupIds, trainEndTimes)
      ensures exists r :: r in rows && Carries(r, e)
    {
      assert e in sel;
      var i :| 0 <= i < |sel| && sel[i] == e;
      assert rows[i] in rows;
      assert Carries(rows[i], e);
    }
  }

  /** Row `i`'s below_best is its gap to the largest raw value at its train
      end time: never negative, every row at that time is within it, and some
      row at that time (the rank-1 row) reaches it with below_best = 0. */
  predicate GapToBest(b: seq<Row>, i: nat)
    requires i < |b|
  {
    && b[i].belowBest >= 0.0
    && (forall j :: 0 <= j < |b| && b[j].trainEndTime == b[i].trainEndTime ==>
          b[j].rawValue <= b[i].rawValue + b[i].belowBest)
    && (exists j :: 0 <= j < |b| && b[j].trainEndTime == b[i].trainEndTime &&
          b[j].rawValue == b[i].rawValue + b[i].belowBest && b[j].belowBest == 0.0)
  }

  /** Every row of a batch has below_best equal to its gap to the best. */
  lemma BatchBelowBest(evaluations: seq<Evaluation>, modelGroupIds: seq<int>, trainEndTimes: seq<int>, spec: MetricSpec)
    ensures var b := Batch(evaluations, modelGroupIds, trainEndTimes, spec);
      forall i :: 0 <= i < |b| ==> GapToBest(b, i)
  {
    var b := Batch(evaluations, modelGroupIds, trainEndTimes, spec);
    forall i | 0 <= i < |b|
      ensures GapToBest(b, i)
    {
      RowBelowBest(evaluations, modelGroupIds, trainEndTimes, spec, b, i);
    }
  }

  /** The columns of a batch row: those of its evaluation, the requested
      metric and the gap to the best. */
  lemma BatchColumns(evaluations: seq<Evaluation>, modelGroupIds: seq<int>, trainEndTimes: seq<int>, spec: MetricSpec, b: seq<Row>)
    requires b == Batch(evaluations, modelGroupIds, trainEndTimes, spec)
    ensures var sel := Ranked(evaluations, spec, modelGroupIds, trainEndTimes);
      forall k :: 0 <= k < |b| ==>
        b[k].modelGroupId == sel[k].modelGroupId && b[k].modelId == sel[k].modelId
        && b[k].trainEndTime == sel[k].trainEndTime
        && b[k].metric == spec.metric && b[k].parameter == spec.param
        && b[k].rawValue == sel[k].value && b[k].belowBest == BelowBest(sel, k)
  {
    var sel := Ranked(evaluations, spec, modelGroupIds, trainEndTimes);
    assert forall k :: 0 <= k < |b| ==> b[k] == DistanceRow(sel, spec, k);
  }

  /** A batch row's below_best_next_time is the below_best of the row right
      after it in its group's window, and NULL when there is none. */
  lemma BatchNextColumn(evaluations: seq<Evaluation>, modelGroupIds: seq<int>, trainEndTimes: seq<int>, spec: MetricSpec, b: seq<Row>, k: nat)
    requires b == Batch(evaluations, modelGroupIds, trainEndTimes, spec)
    requires k < |b|
    ensures var sel := Ranked(evaluations, spec, modelGroupIds, trainEndTimes);
      b[k].belowBestNextTime == match NextInGroup(sel, k, |sel|)
        case None => None
        case Some(j) => Some(b[j].belowBest)
  {
    var sel := Ranked(evaluations, spec, modelGroupIds, trainEndTimes);
    assert b[k] == DistanceRow(sel, spec, k);
    match NextInGroup(sel, k, |sel|)
    case None =>
    case Some(j) =>
      assert b[j] == DistanceRow(sel, spec, j);
  }

  lemma RowBelowBest(evaluations: seq<Evaluation>, modelGroupIds: seq<int>, trainEndTimes: seq<int>, spec: MetricSpec, b: seq<Row>, i: nat)
    requires b == Batch(evaluations, modelGroupIds, trainEndTimes, spec)
    requires i < |b|
    ensures GapToBest(b, i)
  {
    var sel := Ranked(evaluations, spec, modelGroupIds, trainEndTimes);
    BatchColumns(evaluations, modelGroupIds, trainEndTimes, spec, b);
    var t := sel[i].trainEndTime;
    var best := BestValueAt(sel, t);
    var j :| 0 <= j < |sel| && sel[j].trainEndTime == t && sel[j].value == best.value;
    assert BelowBest(sel, j) == 0.0;
  }

  /** Each model group has at most one row per train end time. */
  predicate OneRowPerGroupAndTime(b: seq<Row>) {
    forall i, j :: 0 <= i < |b| && 0 <= j < |b| && i != j && b[i].modelGroupId == b[j].modelGroupId ==>
      b[i].trainEndTime != b[j].trainEndTime
  }

  /** With one row per group and time, below_best_next_time is the
      below_best of the same group's row at its next later train end time,
      and NULL exactly when the row is the group's latest. */
  lemma BatchNextTime(evaluations: seq<Evaluation>, modelGroupIds: seq<int>, trainEndTimes: seq<int>, spec: MetricSpec, i: nat)
    requires i < |Batch(evaluations, modelGroupIds, trainEndTimes, spec)|
    requires OneRowPerGroupAndTime(Batch(evaluations, modelGroupIds, trainEndTimes, spec))
    ensures var b := Batch(evaluations, modelGroupIds, trainEndTimes, spec);
      b[i].belowBestNextTime.None? <==>
        forall k :: 0 <= k < |b| && b[k].modelGroupId == b[i].modelGroupId ==> b[k].trainEndTime <= b[i].trainEndTime
    ensures var b := Batch(evaluations, modelGroupIds, trainEndTimes, spec);
      b[i].belowBestNextTime.Some? ==>
        exists j :: 0 <= j < |b| && b[j].modelGroupId == b[i].modelGroupId
          && b[j].trainEndTime > b[i].trainEndTime
          && b[i].belowBestNextTime.value == b[j].belowBest
          && forall k :: 0 <= k < |b| && b[k].modelGroupId == b[i].modelGroupId && b[k].trainEndTime > b[i].trainEndTime ==>
               b[j].trainEndTime <= b[k].trainEndTime
  {
    var sel := Ranked(evaluations, spec, modelGroupIds, trainEndTimes);
    var b := Batch(evaluations, modelGroupIds, trainEndTimes, spec);
    BatchColumns(evaluations, modelGroupIds, trainEndTimes, spec, b);
    assert b[i] == DistanceRow(sel, spec, i);
    assert UniqueGroupTimes(sel) by {
      forall j, k | 0 <= j < |sel| && 0 <= k < |sel| && j != k && sel[j].modelGroupId == sel[k].modelGroupId
        ensures sel[j].trainEndTime != sel[k].trainEndTime
      {
        assert b[j].trainEndTime != b[k].trainEndTime;
      }
    }
    NextInGroupIsNextTime(sel, i);
    match NextInGroup(sel, i, |sel|)
    case None =>
    case Some(j) =>
      assert b[i].belowBestNextTime.value == b[j].belowBest;
  }

  /** Each model group has at most one ranked evaluation per train end time. */
  predicate UniqueGroupTimes(sel: seq<Evaluation>) {
    forall j, k :: 0 <= j < |sel| && 0 <= k < |sel| && j != k && sel[j].modelGroupId == sel[k].modelGroupId ==>
      sel[j].trainEndTime != sel[k].trainEndTime
  }

  /** With unique times per group, the next row in the window is the group's
      evaluation at the next later train end time, and there is none exactly
      when the row is the group's latest. */
  lemma NextInGroupIsNextTime(sel: seq<Evaluation>, i: nat)
    requires i < |sel| && UniqueGroupTimes(sel)
    ensures NextInGroup(sel, i, |sel|).None? <==>
      forall k :: 0 <= k < |sel| && sel[k].modelGroupId == sel[i].modelGroupId ==> sel[k].trainEndTime <= sel[i].trainEndTime
    ensures NextInGroup(sel, i, |sel|).Some? ==>
      var j := NextInGroup(sel, i, |sel|).value;
      && sel[j].modelGroupId == sel[i].modelGroupId && sel[j].trainEndTime > sel[i].trainEndTime
      && forall k :: 0 <= k < |sel| && sel[k].modelGroupId == sel[i].modelGroupId && sel[k].trainEndTime > sel[i].trainEndTime ==>
           sel[j].trainEndTime <= sel[k].trainEndTime
  {
    forall k | 0 <= k < |sel|
      ensures LaterInGroup(sel, i, k) <==>
        sel[k].modelGroupId == sel[i].modelGroupId && sel[k].trainEndTime > sel[i].trainEndTime
    {
    }
  }

  /** All batches of `_populate`, one per metric in list order. */
  function Batches(evaluations: seq<Evaluation>, modelGroupIds: seq<int>, trainEndTimes: seq<int>, metrics: seq<MetricSpec>): seq<Row>
  {
    if |metrics| == 0 then []
    else Batches(evaluations, modelGroupIds, trainEndTimes, metrics[..|metrics| - 1])
         + Batch(evaluations, modelGroupIds, trainEndTimes, metrics[|metrics| - 1])
  }

  /** Running the metric list in two parts appends the second part's
      batches after the first part's, which are left unchanged. */
  lemma {:induction false} BatchesAppend(evaluations: seq<Evaluation>, modelGroupIds: seq<int>, trainEndTimes: seq<int>, a: seq<MetricSpec>, b: seq<MetricSpec>)
    ensures Batches(evaluations, modelGroupIds, trainEndTimes, a + b) ==
      Batches(evaluations, modelGroupIds, trainEndTimes, a) + Batches(evaluations, modelGroupIds, trainEndTimes, b)
  {
    if |b| == 0 {
      assert a + b == a;
    } else {
      var init := b[..|b| - 1];
      var last := Batch(evaluations, modelGroupIds, trainEndTimes, b[|b| - 1]);
      assert (a + b)[..|a + b| - 1] == a + init;
      assert (a + b)[|a + b| - 1] == b[|b| - 1];
      BatchesAppend(evaluations, modelGroupIds, trainEndTimes, a, init);
      var head := Batches(evaluations, modelGroupIds, trainEndTimes, a);
      var tail := Batches(evaluations, modelGroupIds, trainEndTimes, init);
      assert Batches(evaluations, modelGroupIds, trainEndTimes, a + b) == (head + tail) + last;
      assert Batches(evaluations, modelGroupIds, trainEndTimes, b) == tail + last;
      assert (head + tail) + last == head + (tail + last);
    }
  }

  /** A row of the populated table belongs to the batch of one listed metric. */
  lemma {:induction false} BatchesMembership(evaluations: seq<Evaluation>, modelGroupIds: seq<int>, trainEndTimes: seq<int>, metrics: seq<MetricSpec>, r: Row)
    ensures r in Batches(evaluations, modelGroupIds, trainEndTimes, metrics) <==>
      exists k :: 0 <= k < |metrics| && r in Batch(evaluations, modelGroupIds, trainEndTimes, metrics[k])
  {
    if |metrics| > 0 {
      var init := metrics[..|metrics| - 1];
      var last := Batch(evaluations, modelGroupIds, trainEndTimes, metrics[|metrics| - 1]);
      BatchesMembership(evaluations, modelGroupIds, trainEndTimes, init, r);
      assert Batches(evaluations, modelGroupIds, trainEndTimes, metrics) == Batches(evaluations, modelGroupIds, trainEndTimes, init) + last;
      if r in Batches(evaluations, modelGroupIds, trainEndTimes, init) {
        var k :| 0 <= k < |init| && r in Batch(evaluations, modelGroupIds, trainEndTimes, init[k]);
        assert init[k] == metrics[k];
      }
      forall k | 0 <= k < |metrics| && r in Batch(evaluations, modelGroupIds, trainEndTimes, metrics[k])
        ensures r in Batches(evaluations, modelGroupIds, trainEndTimes, metrics)
      {
        if k < |init| {
          assert init[k] == metrics[k];
        }
      }
    }
  }

  /** The distance table: its rows are the relation the rest of the core queries. */
  class DistanceFromBestTable {
    var rows: seq<Row>

    constructor ()
      ensures rows == []
    {
      rows := [];
    }

    /** `_create`: a new, empty table. */
    method Create()
      modifies this
      ensures rows == []
    {
      rows := [];
    }

    /** `_populate`: one batch per metric, appended in list order. */
    method Populate(evaluations: seq<Evaluation>, modelGroupIds: seq<int>, trainEndTimes: seq<int>, metrics: seq<MetricSpec>)
      modifies this
      ensures rows == old(rows) + Batches(evaluations, modelGroupIds, trainEndTimes, metrics)
    {
      var i := 0;
      while i < |metrics|
        invariant 0 <= i <= |metrics|
        invariant rows == old(rows) + Batches(evaluations, modelGroupIds, trainEndTimes, metrics[..i])
      {
        assert metrics[..i + 1][..i] == metrics[..i];
        rows := rows + Batch(evaluations, modelGroupIds, trainEndTimes, metrics[i]);
        i := i + 1;
      }
      assert metrics[..|metrics|] == metrics;
    }

    method CreateAndPopulate(evaluations: seq<Evaluation>, modelGroupIds: seq<int>, trainEndTimes: seq<int>, metrics: seq<MetricSpec>)
      modifies this
      ensures rows == Batches(evaluations, modelGroupIds, trainEndTimes, metrics)
    {
      Create();
      Populate(evaluations, modelGroupIds, trainEndTimes, metrics);
    }

    /** `as_dataframe`: exactly the rows of the listed model groups, each as
      often as it occurs in the table. */
    function AsDataframe(modelGroupIds: seq<int>): (df: seq<Row>)
      reads this
      ensures forall r :: r in df <==> r in rows && r.modelGroupId in modelGroupIds
      ensures forall r: Row :: r.modelGroupId in modelGroupIds ==> multiset(df)[r] == multiset(rows)[r]
    {
      var df := Filter(rows, (r: Row) => r.modelGroupId in modelGroupIds);
      assert forall r: Row :: r.modelGroupId in modelGroupIds ==> multiset(df)[r] == multiset(rows)[r] by {
        forall r: Row | r.modelGroupId in modelGroupIds
          ensures multiset(df)[r] == multiset(rows)[r]
        {
          FilterMultiset(rows, (r: Row) => r.modelGroupId in modelGroupIds, r);
        }
      }
      df
    }

    /** `dataframe_as_of`: additionally only the rows at that train end time,
      each as often as it occurs in the table. */
    function DataframeAsOf(modelGroupIds: seq<int>, trainEndTime: int): (df: seq<Row>)
      reads this
      ensures forall r :: r in df <==> r in rows && r.modelGroupId in modelGroupIds && r.trainEndTime == trainEndTime
      ensures forall r: Row :: r.modelGroupId in modelGroupIds && r.trainEndTime == trainEndTime ==>
        multiset(df)[r] == multiset(rows)[r]
    {
      var all := AsDataframe(modelGroupIds);
      var df := Filter(all, (r: Row) => r.trainEndTime == trainEndTime);
      assert forall r: Row :: r.modelGroupId in modelGroupIds && r.trainEndTime == trainEndTime ==>
        multiset(df)[r] == multiset(rows)[r] by {
        forall r: Row | r.modelGroupId in modelGroupIds && r.trainEndTime == trainEndTime
          ensures multiset(df)[r] == multiset(rows)[r]
        {
          FilterMultiset(all, (r: Row) => r.trainEndTime == trainEndTime, r);
        }
      }
      df
    }
  }

  // ---------------------------------------------------------------------
  // BestDistanceHistogrammer.generate_histogram_data

  /** One output row: model group, pct_diff, num_models and pct_of_time
      (the model_type column of the model_groups table is not modelled). */
  datatype HistogramRow = HistogramRow(modelGroupId: int, pctDiff: real, numModels: nat, pctOfTime: real)

  /** The k-th threshold of the histogram: k hundredths, for k from 0 to 100. */
  function PctDiff(k: nat): real {
    (k as real) / 100.0
  }

  /** The WHERE clause of the histogram query. */
  predicate InHistogramScope(r: Row, metric: string, metricParam: string, modelGroupIds: seq<int>, trainEndTimes: seq<int>) {
    r.metric == metric && r.parameter == metricParam && r.modelGroupId in modelGroupIds && r.trainEndTime in trainEndTimes
  }

  /** The below_best values of one model group's rows in scope. */
  function GroupDistances(rows: seq<Row>, metric: string, metricParam: string, modelGroupIds: seq<int>, trainEndTimes: seq<int>, g: int): seq<real> {
    MapSeq(Filter(rows, (r: Row) => InHistogramScope(r, metric, metricParam, modelGroupIds, trainEndTimes) && r.modelGroupId == g),
           (r: Row) => r.belowBest)
  }

  /** The indicator of one distance being at most `x`: 1 when it is, otherwise 0. */
  function Within(d: real, x: real): real {
    if d <= x then 1.0 else 0.0
  }

  /** The share of the distances at most `x`: the average of their indicators. */
  function PctOfTime(distances: seq<real>, x: real): real {
    Mean(MapSeq(distances, d => Within(d, x)))
  }

  /** The number of distances at most `x`. */
  function CountWithin(distances: seq<real>, x: real): nat {
    |Filter(distances, d => d <= x)|
  }

  /** The 101 rows of one model group. */
  function GroupHistogram(g: int, distances: seq<real>): seq<HistogramRow> {
    seq(101, k requires 0 <= k < 101 => HistogramRow(g, PctDiff(k), |distances|, PctOfTime(distances, PctDiff(k))))
  }

  /** The rows for the listed groups that have rows in scope (the inner join
      drops the others). */
  function HistogramOver(groups: seq<int>, rows: seq<Row>, metric: string, metricParam: string, modelGroupIds: seq<int>, trainEndTimes: seq<int>): seq<HistogramRow>
  {
    if |groups| == 0 then []
    else
      var ds := GroupDistances(rows, metric, metricParam, modelGroupIds, trainEndTimes, groups[0]);
      (if |ds| > 0 then GroupHistogram(groups[0], ds) else [])
      + HistogramOver(groups[1..], rows, metric, metricParam, modelGroupIds, trainEndTimes)
  }

  /** `generate_histogram_data` on the distance table's rows. */
  function GenerateHistogramData(rows: seq<Row>, metric: string, metricParam: string, modelGroupIds: seq<int>, trainEndTimes: seq<int>): seq<HistogramRow> {
    HistogramOver(Distinct(modelGroupIds), rows, metric, metricParam, modelGroupIds, trainEndTimes)
  }

  /** The average of the 0/1 indicators is the fraction of distances within `x`. */
  lemma {:induction false} SumWithin(distances: seq<real>, x: real)
    ensures Sum(MapSeq(distances, d => Within(d, x))) == CountWithin(distances, x) as real
  {
    if |distances| > 0 {
      SumWithin(distances[1..], x);
      assert MapSeq(distances, d => Within(d, x))[1..] == MapSeq(distances[1..], d => Within(d, x));
    }
  }

  lemma PctOfTimeIsFraction(distances: seq<real>, x: real)
    requires |distances| > 0
    ensures PctOfTime(distances, x) == (CountWithin(distances, x) as real) / (|distances| as real)
    ensures 0.0 <= PctOfTime(distances, x) <= 1.0
  {
    var indicators := MapSeq(distances, d => Within(d, x));
    SumWithin(distances, x);
    assert PctOfTime(distances, x) == Sum(indicators) / (|indicators| as real);
    FractionBounds(CountWithin(distances, x) as real, |distances| as real);
  }

  lemma FractionBounds(c: real, n: real)
    requires 0.0 <= c <= n && 0.0 < n
    ensures 0.0 <= c / n <= 1.0
  {
    DivideMonotone(c, n, n);
    DivideMonotone(0.0, c, n);
    assert n / n == 1.0;
  }

  lemma {:induction false} CountWithinMonotone(distances: seq<real>, x: real, y: real)
    requires x <= y
    ensures CountWithin(distances, x) <= CountWithin(distances, y)
  {
    if |distances| > 0 {
      CountWithinMonotone(distances[1..], x, y);
    }
  }

  lemma {:induction false} CountWithinAll(distances: seq<real>, x: real)
    requires forall i :: 0 <= i < |distances| ==> distances[i] <= x
    ensures CountWithin(distances, x) == |distances|
  {
    if |distances| > 0 {
      assert forall i :: 1 <= i < |distances| ==> distances[1..][i - 1] == distances[i];
      CountWithinAll(distances[1..], x);
    }
  }

  lemma DivideMonotone(a: real, b: real, n: real)
    requires 0.0 < n && a <= b
    ensures a / n <= b / n
  {
  }

  /** pct_of_time never decreases as pct_diff grows. */
  lemma PctOfTimeMonotone(distances: seq<real>, x: real, y: real)
    requires |distances| > 0 && x <= y
    ensures PctOfTime(distances, x) <= PctOfTime(distances, y)
  {
    PctOfTimeIsFraction(distances, x);
    PctOfTimeIsFraction(distances, y);
    CountWithinMonotone(distances, x, y);
    DivideMonotone(CountWithin(distances, x) as real, CountWithin(distances, y) as real, |distances| as real);
  }

  /** pct_of_time is 1 once pct_diff reaches the group's largest below_best. */
  lemma PctOfTimeFull(distances: seq<real>, x: real)
    requires |distances| > 0
    requires forall i :: 0 <= i < |distances| ==> distances[i] <= x
    ensures PctOfTime(distances, x) == 1.0
  {
    PctOfTimeIsFraction(distances, x);
    CountWithinAll(distances, x);
    var n := |distances| as real;
    assert n / n == 1.0;
  }

  /** Every histogram row belongs to a listed group with rows in scope, has
      one of the 101 pct_diff values, counts that group's rows and gives the
      fraction of them within pct_diff of the best. */
  lemma {:induction false} HistogramOverRows(groups: seq<int>, rows: seq<Row>, metric: string, metricParam: string, modelGroupIds: seq<int>, trainEndTimes: seq<int>, h: HistogramRow)
    requires h in HistogramOver(groups, rows, metric, metricParam, modelGroupIds, trainEndTimes)
    ensures h.modelGroupId in groups
    ensures exists k :: 0 <= k <= 100 && h.pctDiff == PctDiff(k)
    ensures var ds := GroupDistances(rows, metric, metricParam, modelGroupIds, trainEndTimes, h.modelGroupId);
      && |ds| > 0
      && h.numModels == |ds|
      && h.pctOfTime == (CountWithin(ds, h.pctDiff) as real) / (|ds| as real)
  {
    var ds := GroupDistances(rows, metric, metricParam, modelGroupIds, trainEndTimes, groups[0]);
    var first := if |ds| > 0 then GroupHistogram(groups[0], ds) else [];
    var rest := HistogramOver(groups[1..], rows, metric, metricParam, modelGroupIds, trainEndTimes);
    if h in first {
      var k :| 0 <= k < |first| && first[k] == h;
      PctOfTimeIsFraction(ds, PctDiff(k));
    } else {
      assert h in rest;
      HistogramOverRows(groups[1..], rows, metric, metricParam, modelGroupIds, trainEndTimes, h);
    }
  }

  /** Every listed group with rows in scope gets a row for every pct_diff. */
  lemma {:induction false} HistogramOverComplete(groups: seq<int>, rows: seq<Row>, metric: string, metricParam: string, modelGroupIds: seq<int>, trainEndTimes: seq<int>, g: int, k: nat)
    requires g in groups && k <= 100
    requires |GroupDistances(rows, metric, metricParam, modelGroupIds, trainEndTimes, g)| > 0
    ensures exists h :: (h in HistogramOver(groups, rows, metric, metricParam, modelGroupIds, trainEndTimes)
      && h.modelGroupId == g && h.pctDiff == PctDiff(k))
  {
    var rest := HistogramOver(groups[1..], rows, metric, metricParam, modelGroupIds, trainEndTimes);
    if groups[0] == g {
      var ds := GroupDistances(rows, metric, metricParam, modelGroupIds, trainEndTimes, g);
      var h := GroupHistogram(g, ds)[k];
      assert h in HistogramOver(groups, rows, metric, metricParam, modelGroupIds, trainEndTimes);
    } else {
      HistogramOverComplete(groups[1..], rows, metric, metricParam, modelGroupIds, trainEndTimes, g, k);
      var h :| h in rest && h.modelGroupId == g && h.pctDiff == PctDiff(k);
      assert h in HistogramOver(groups, rows, metric, metricParam, modelGroupIds, trainEndTimes);
    }
  }

  /** The histogram: for each listed model group with rows in scope and each
      pct_diff = k/100 (k = 0..100) there is a row, num_models is the number
      of the group's rows and pct_of_time the fraction of them with
      below_best <= pct_diff; no other rows occur. */
  lemma HistogramData(rows: seq<Row>, metric: string, metricParam: string, modelGroupIds: seq<int>, trainEndTimes: seq<int>)
    ensures var data := GenerateHistogramData(rows, metric, metricParam, modelGroupIds, trainEndTimes);
      forall h :: h in data ==>
        var ds := GroupDistances(rows, metric, metricParam, modelGroupIds, trainEndTimes, h.modelGroupId);
        && h.modelGroupId in modelGroupIds
        && (exists k :: 0 <= k <= 100 && h.pctDiff == PctDiff(k))
        && |ds| > 0 && h.numModels == |ds|
        && h.pctOfTime == (CountWithin(ds, h.pctDiff) as real) / (|ds| as real)
  {
    var groups := Distinct(modelGroupIds);
    forall h | h in GenerateHistogramData(rows, metric, metricParam, modelGroupIds, trainEndTimes)
      ensures var ds := GroupDistances(rows, metric, metricParam, modelGroupIds, trainEndTimes, h.modelGroupId);
        && h.modelGroupId in modelGroupIds
        && (exists k :: 0 <= k <= 100 && h.pctDiff == PctDiff(k))
        && |ds| > 0 && h.numModels == |ds|
        && h.pctOfTime == (CountWithin(ds, h.pctDiff) as real) / (|ds| as real)
    {
      HistogramOverRows(groups, rows, metric, metricParam, modelGroupIds, trainEndTimes, h);
    }
  }

  /** Every listed model group with rows in scope has a histogram row for
      every pct_diff = k/100, k = 0..100. */
  lemma HistogramDataComplete(rows: seq<Row>, metric: string, metricParam: string, modelGroupIds: seq<int>, trainEndTimes: seq<int>, g: int, k: nat)
    requires g in modelGroupIds && k <= 100
    requires |GroupDistances(rows, metric, metricParam, modelGroupIds, trainEndTimes, g)| > 0
    ensures exists h :: (h in GenerateHistogramData(rows, metric, metricParam, modelGroupIds, trainEndTimes)
      && h.modelGroupId == g && h.pctDiff == PctDiff(k))
  {
    HistogramOverComplete(Distinct(modelGroupIds), rows, metric, metricParam, modelGroupIds, trainEndTimes, g, k);
  }
}
