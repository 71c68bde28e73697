/** Pruning of model groups by per-metric thresholds: a model group survives
    when, for every filter, it is within `maxBelowBest` of the best at some
    train end time and at least `minValue` at every train end time. */
module Thresholding {
  import opened Tables
  import opened DistanceFromBest

  /** One entry of the metric filter list. */
  datatype MetricFilter = MetricFilter(metric: string, metricParam: string, maxBelowBest: real, minValue: real)

  /** The two per-time queries: close to the best, and above the minimum. */
  datatype Criterion = CloseToBest | AboveMin

  /** A distance row on `trainEndTime` for the filter's metric passes the
      criterion's test (strictly below `maxBelowBest`, or at least `minValue`). */
  predicate Passes(r: Row, f: MetricFilter, trainEndTime: int, c: Criterion) {
    && r.trainEndTime == trainEndTime
    && r.metric == f.metric
    && r.parameter == f.metricParam
    && match c
       case CloseToBest => r.belowBest < f.maxBelowBest
       case AboveMin => r.rawValue >= f.minValue
  }

  /** Model group `g` has a passing row for filter `f` at `trainEndTime`. */
  predicate HasPassingRow(rows: seq<Row>, f: MetricFilter, trainEndTime: int, g: int, c: Criterion) {
    exists r :: r in rows && r.modelGroupId == g && Passes(r, f, trainEndTime, c)
  }

  /** The model groups among `ids` with a passing row for `f`: one select. */
  function GroupsPassingFilter(rows: seq<Row>, f: MetricFilter, trainEndTime: int, ids: set<int>, c: Criterion): (s: set<int>)
    ensures forall g :: g in s <==> g in ids && HasPassingRow(rows, f, trainEndTime, g, c)
  {
    set r | r in rows && r.modelGroupId in ids && Passes(r, f, trainEndTime, c) :: r.modelGroupId
  }

  /** The selects of all filters joined with `intersect`. An empty filter
      list gives an empty query, which the database refuses. */
  function GroupsAsOf(rows: seq<Row>, filters: seq<MetricFilter>, trainEndTime: int, ids: set<int>, c: Criterion): (s: set<int>)
    requires |filters| > 0
    ensures s <= ids
    ensures forall g :: g in s <==>
      g in ids && forall i :: 0 <= i < |filters| ==> HasPassingRow(rows, filters[i], trainEndTime, g, c)
    decreases |filters|
  {
    var here := GroupsPassingFilter(rows, filters[0], trainEndTime, ids, c);
    if |filters| == 1 then here
    else
      var rest := GroupsAsOf(rows, filters[1..], trainEndTime, ids, c);
      assert forall i :: 1 <= i < |filters| ==> filters[1..][i - 1] == filters[i];
      here * rest
  }

  /** The union of the close-to-best groups over `times`. */
  function CloseAny(rows: seq<Row>, filters: seq<MetricFilter>, times: seq<int>, ids: set<int>): (s: set<int>)
    requires |times| == 0 || |filters| > 0
    ensures forall g :: g in s <==>
      exists i :: 0 <= i < |times| && g in GroupsAsOf(rows, filters, times[i], ids, CloseToBest)
  {
    if |times| == 0 then {}
    else
      var init := times[..|times| - 1];
      var prev := CloseAny(rows, filters, init, ids);
      assert forall i :: 0 <= i < |init| ==> init[i] == times[i];
      prev + GroupsAsOf(rows, filters, times[|times| - 1], ids, CloseToBest)
  }

  /** `ids` intersected with the above-minimum groups of every time. */
  function AboveMinAll(rows: seq<Row>, filters: seq<MetricFilter>, times: seq<int>, ids: set<int>): (s: set<int>)
    requires |times| == 0 || |filters| > 0
    ensures forall g :: g in s <==>
      g in ids && forall i :: 0 <= i < |times| ==> g in GroupsAsOf(rows, filters, times[i], ids, AboveMin)
  {
    if |times| == 0 then ids
    else
      var init := times[..|times| - 1];
      var prev := AboveMinAll(rows, filters, init, ids);
      assert forall i :: 0 <= i < |init| ==> init[i] == times[i];
      prev * GroupsAsOf(rows, filters, times[|times| - 1], ids, AboveMin)
  }

  /** The model groups passing the rules: one of `ids`, and for every
      filter close to the best at some time and above the minimum at every
      time. With no train end times nothing passes. */
  function PassingRules(rows: seq<Row>, filters: seq<MetricFilter>, times: seq<int>, ids: set<int>): (s: set<int>)
    requires |times| == 0 || |filters| > 0
    ensures s <= ids
    ensures |times| == 0 ==> s == {}
    ensures forall g :: g in s <==>
      && g in ids
      && (exists i :: 0 <= i < |times| &&
            forall j :: 0 <= j < |filters| ==> HasPassingRow(rows, filters[j], times[i], g, CloseToBest))
      && (forall i :: 0 <= i < |times| ==>
            forall j :: 0 <= j < |filters| ==> HasPassingRow(rows, filters[j], times[i], g, AboveMin))
  {
    CloseAny(rows, filters, times, ids) * AboveMinAll(rows, filters, times, ids)
  }

  /** A group's fate depends only on its own rows: narrowing `ids` narrows the
      result to exactly those groups. */
  lemma {:induction false} PassingRulesRestrict(rows: seq<Row>, filters: seq<MetricFilter>, times: seq<int>, ids: set<int>, sub: set<int>)
    requires |times| == 0 || |filters| > 0
    requires sub <= ids
    ensures PassingRules(rows, filters, times, sub) == sub * PassingRules(rows, filters, times, ids)
  {
    forall g | g in sub
      ensures g in PassingRules(rows, filters, times, sub) <==> g in PassingRules(rows, filters, times, ids)
    {
    }
  }

  /** Applying the same filters to the survivors changes nothing. */
  lemma PassingRulesIdempotent(rows: seq<Row>, filters: seq<MetricFilter>, times: seq<int>, ids: set<int>)
    requires |times| == 0 || |filters| > 0
    ensures var once := PassingRules(rows, filters, times, ids);
      PassingRules(rows, filters, times, once) == once
  {
    var once := PassingRules(rows, filters, times, ids);
    PassingRulesRestrict(rows, filters, times, ids, once);
  }

  class ModelGroupThresholder {
    const distanceFromBestTable: DistanceFromBestTable
    const trainEndTimes: seq<int>
    var modelGroupIds: set<int>
    var metricFilters: seq<MetricFilter>

    constructor (distanceFromBestTable: DistanceFromBestTable, trainEndTimes: seq<int>, initialModelGroupIds: seq<int>)
      ensures this.distanceFromBestTable == distanceFromBestTable
      ensures this.trainEndTimes == trainEndTimes
      ensures modelGroupIds == set g | g in initialModelGroupIds
      ensures metricFilters == []
    {
      this.distanceFromBestTable := distanceFromBestTable;
      this.trainEndTimes := trainEndTimes;
      modelGroupIds := set g | g in initialModelGroupIds;
      metricFilters := [];
    }

    /** The current model groups close to the best at `trainEndTime` for
        every current filter. */
    function ModelGroupsCloseToBestAsOf(trainEndTime: int): (s: set<int>)
      reads this, distanceFromBestTable
      requires |metricFilters| > 0
      ensures s <= modelGroupIds
      ensures forall g :: g in s <==> g in modelGroupIds && forall i :: 0 <= i < |metricFilters| ==>
        exists r :: r in distanceFromBestTable.rows && r.modelGroupId == g && r.trainEndTime == trainEndTime
          && r.metric == metricFilters[i].metric && r.parameter == metricFilters[i].metricParam
          && r.belowBest < metricFilters[i].maxBelowBest
    {
      GroupsAsOf(distanceFromBestTable.rows, metricFilters, trainEndTime, modelGroupIds, CloseToBest)
    }

    /** The current model groups at or above the minimum at `trainEndTime`
        for every current filter. */
    function ModelGroupsAboveMinAsOf(trainEndTime: int): (s: set<int>)
      reads this, distanceFromBestTable
      requires |metricFilters| > 0
      ensures s <= modelGroupIds
      ensures forall g :: g in s <==> g in modelGroupIds && forall i :: 0 <= i < |metricFilters| ==>
        exists r :: r in distanceFromBestTable.rows && r.modelGroupId == g && r.trainEndTime == trainEndTime
          && r.metric == metricFilters[i].metric && r.parameter == metricFilters[i].metricParam
          && r.rawValue >= metricFilters[i].minValue
    {
      GroupsAsOf(distanceFromBestTable.rows, metricFilters, trainEndTime, modelGroupIds, AboveMin)
    }

    /** Accumulates the close-to-best union and the above-minimum intersection
        over the train end times, then intersects the two. */
    method ModelGroupsPassingRules() returns (totalModelGroups: set<int>)
      requires |trainEndTimes| == 0 || |metricFilters| > 0
      ensures totalModelGroups == PassingRules(distanceFromBestTable.rows, metricFilters, trainEndTimes, modelGroupIds)
      ensures totalModelGroups <= modelGroupIds
    {
      var belowMinModelGroups := modelGroupIds;
      var closeToBestModelGroups: set<int> := {};
      var i := 0;
      while i < |trainEndTimes|
        invariant 0 <= i <= |trainEndTimes|
        invariant closeToBestModelGroups == CloseAny(distanceFromBestTable.rows, metricFilters, trainEndTimes[..i], modelGroupIds)
        invariant belowMinModelGroups == AboveMinAll(distanceFromBestTable.rows, metricFilters, trainEndTimes[..i], modelGroupIds)
      {
        assert trainEndTimes[..i + 1][..i] == trainEndTimes[..i];
        var closeToBest := ModelGroupsCloseToBestAsOf(trainEndTimes[i]);
        closeToBestModelGroups := closeToBestModelGroups + closeToBest;
        var belowMin := ModelGroupsAboveMinAsOf(trainEndTimes[i]);
        belowMinModelGroups := belowMinModelGroups * belowMin;
        i := i + 1;
      }
      assert trainEndTimes[..i] == trainEndTimes;
      totalModelGroups := closeToBestModelGroups * belowMinModelGroups;
    }

    /** New filters replace the old ones and prune the current model groups;
        the same filters again leave everything as it was. */
    method UpdateFilters(newMetricFilters: seq<MetricFilter>)
      modifies this
      requires newMetricFilters == metricFilters || |trainEndTimes| == 0 || |newMetricFilters| > 0
      ensures metricFilters == newMetricFilters
      ensures newMetricFilters == old(metricFilters) ==> modelGroupIds == old(modelGroupIds)
      ensures newMetricFilters != old(metricFilters) ==>
        modelGroupIds == PassingRules(distanceFromBestTable.rows, newMetricFilters, trainEndTimes, old(modelGroupIds))
      ensures modelGroupIds <= old(modelGroupIds)
    {
      if newMetricFilters != metricFilters {
        metricFilters := newMetricFilters;
        modelGroupIds := ModelGroupsPassingRules();
      }
    }
  }
}
