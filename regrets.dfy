/** Regrets of a selection rule: at each train end time the rule picks a
    model group from what was known then, and the regret is how far that
    group fell below the best at the next train end time. */
module Regrets {
  import opened Results
  import opened Collections
  import opened Tables
  import opened DistanceFromBest

  /** The rows of `df` up to `trainEndTime`, in table order. */
  function Past(df: seq<Row>, trainEndTime: int): seq<Row> {
    Filter(df, (r: Row) => r.trainEndTime <= trainEndTime)
  }

  /** The frame a rule sees at `trainEndTime`: the rows up to that time, in
      table order and each as often as in the table, without the next-time
      column. */
  function Localize(df: seq<Row>, trainEndTime: int): (local: seq<ViewRow>)
    ensures |local| == |Past(df, trainEndTime)|
    ensures forall i :: 0 <= i < |local| ==> local[i] == View(Past(df, trainEndTime)[i])
    ensures forall v :: v in local <==> exists r :: r in df && r.trainEndTime <= trainEndTime && View(r) == v
    ensures forall v :: multiset(local)[v] == |Filter(df, (r: Row) => r.trainEndTime <= trainEndTime && View(r) == v)|
    ensures forall v :: v in local ==> v.trainEndTime <= trainEndTime
  {
    var past := Past(df, trainEndTime);
    var local := MapSeq(past, View);
    assert forall r :: r in past ==> View(r) in local by {
      forall r | r in past ensures View(r) in local {
        var i :| 0 <= i < |past| && past[i] == r;
        assert local[i] == View(r);
      }
    }
    assert forall v :: v in local ==> exists r :: r in df && r.trainEndTime <= trainEndTime && View(r) == v by {
      forall v | v in local ensures exists r :: r in df && r.trainEndTime <= trainEndTime && View(r) == v {
        var i :| 0 <= i < |local| && local[i] == v;
        assert past[i] in past;
      }
    }
    assert forall v :: multiset(local)[v] == |Filter(df, (r: Row) => r.trainEndTime <= trainEndTime && View(r) == v)| by {
      forall v ensures multiset(local)[v] == |Filter(df, (r: Row) => r.trainEndTime <= trainEndTime && View(r) == v)| {
        MapFilterCount(df, (r: Row) => r.trainEndTime <= trainEndTime, View,
                       (r: Row) => r.trainEndTime <= trainEndTime && View(r) == v, v);
      }
    }
    local
  }

  /** Two tables whose rows up to `trainEndTime` agree in order and in every
      column but the next-time one localize to the same frame, however many
      later rows each holds and wherever they sit: a rule never sees the
      future. */
  lemma LocalizeIgnoresFuture(df1: seq<Row>, df2: seq<Row>, trainEndTime: int)
    requires |Past(df1, trainEndTime)| == |Past(df2, trainEndTime)|
    requires forall i :: 0 <= i < |Past(df1, trainEndTime)| ==>
      View(Past(df1, trainEndTime)[i]) == View(Past(df2, trainEndTime)[i])
    ensures Localize(df1, trainEndTime) == Localize(df2, trainEndTime)
  {
  }

  /** Localizing only the past rows gives the same frame. */
  lemma LocalizeOnlyPast(df: seq<Row>, trainEndTime: int)
    ensures Localize(df, trainEndTime) == Localize(Past(df, trainEndTime), trainEndTime)
  {
    FilterIdempotent(df, (r: Row) => r.trainEndTime <= trainEndTime);
  }

  /** Rows after `trainEndTime`, inserted anywhere, leave the frame unchanged. */
  lemma LocalizeDropsLater(before: seq<Row>, later: seq<Row>, after: seq<Row>, trainEndTime: int)
    requires forall r :: r in later ==> r.trainEndTime > trainEndTime
    ensures Localize(before + later + after, trainEndTime) == Localize(before + after, trainEndTime)
  {
    var p := (r: Row) => r.trainEndTime <= trainEndTime;
    FilterAppend(before + later, after, p);
    FilterAppend(before, later, p);
    FilterAppend(before, after, p);
    FilterNone(later, p);
    assert Past(before + later + after, trainEndTime) == Past(before + after, trainEndTime);
  }

  /** The rule local to the regret calculator, on a frame keyed by model
      group: the first row with the largest raw value over the whole frame
      (metric and parameter are not consulted); the empty frame raises
      IndexError. */
  function FirstHighestMetricValue(df: seq<ViewRow>, metric: string, param: string): (r: Result<int>)
    ensures r.Err? <==> |df| == 0
    ensures r.Err? ==> r.error == IndexError
    ensures r.Ok? ==> exists i :: (0 <= i < |df| && df[i].modelGroupId == r.value
      && (forall j :: 0 <= j < |df| ==> df[j].rawValue <= df[i].rawValue)
      && (forall j :: 0 <= j < i ==> df[j].rawValue < df[i].rawValue))
  {
    if |df| == 0 then Err(IndexError)
    else
      var m := MaxScore(df, (v: ViewRow) => v.rawValue);
      var i := FirstAttaining(df, m, 0);
      Ok(df[i].modelGroupId)
  }

  /** The first position at or after `from` whose raw value is `m`. */
  function FirstAttaining(df: seq<ViewRow>, m: real, from: nat): (i: nat)
    requires from <= |df|
    requires exists k :: from <= k < |df| && df[k].rawValue == m
    ensures from <= i < |df| && df[i].rawValue == m
    ensures forall j :: from <= j < i ==> df[j].rawValue != m
    decreases |df| - from
  {
    if df[from].rawValue == m then from else FirstAttaining(df, m, from + 1)
  }

  /** The distance rows of model group `g` at `trainEndTime` for the metric. */
  function RegretRows(df: seq<Row>, g: int, trainEndTime: int, metric: string, metricParam: string): seq<Row> {
    Filter(df, (r: Row) => r.modelGroupId == g && r.trainEndTime == trainEndTime && r.metric == metric && r.parameter == metricParam)
  }

  /** The regret at one train end time: the rule's pick from the localized
      frame, then the pick's `below_best_next_time` from its single row; a
      lookup that does not find exactly one row fails its assertion, and an
      error of the rule propagates. */
  function RegretAt(selectionRule: seq<ViewRow> -> Result<int>, df: seq<Row>, trainEndTime: int, metric: string, metricParam: string): (r: Result<Option<real>>)
    ensures selectionRule(Localize(df, trainEndTime)).Err? ==> r == Err(selectionRule(Localize(df, trainEndTime)).error)
    ensures selectionRule(Localize(df, trainEndTime)).Ok? ==>
      var hits := RegretRows(df, selectionRule(Localize(df, trainEndTime)).value, trainEndTime, metric, metricParam);
      && (|hits| != 1 <==> r == Err(AssertionError))
      && (|hits| == 1 ==> r.Ok? && hits[0] in df && r.value == hits[0].belowBestNextTime)
  {
    var choice := selectionRule(Localize(df, trainEndTime));
    if choice.Err? then Err(choice.error)
    else
      var hits := RegretRows(df, choice.value, trainEndTime, metric, metricParam);
      if |hits| != 1 then Err(AssertionError)
      else Ok(hits[0].belowBestNextTime)
  }

  /** The values of a run of steps, or the error of the first step that
      fails. */
  function Collect<T>(rs: seq<Result<T>>): (r: Result<seq<T>>)
    ensures r.Ok? <==> forall i :: 0 <= i < |rs| ==> rs[i].Ok?
    ensures r.Ok? ==> |r.value| == |rs| && forall i :: 0 <= i < |rs| ==> rs[i] == Ok(r.value[i])
    ensures r.Err? ==> exists i :: 0 <= i < |rs| && rs[i] == Err(r.error) && forall j :: 0 <= j < i ==> rs[j].Ok?
  {
    if |rs| == 0 then Ok([])
    else
      var init := rs[..|rs| - 1];
      assert forall i :: 0 <= i < |init| ==> init[i] == rs[i];
      var prev := Collect(init);
      if prev.Err? then Err(prev.error)
      else
        var last := rs[|rs| - 1];
        if last.Err? then Err(last.error)
        else
          var all := prev.value + [last.value];
          assert forall i :: 0 <= i < |init| ==> all[i] == prev.value[i];
          Ok(all)
  }

  /** One more step: an earlier failure stands, a failing step ends the run
      with its error, and a succeeding step appends its value. */
  lemma CollectSnoc<T>(rs: seq<Result<T>>, x: Result<T>)
    ensures Collect(rs + [x]) ==
      if Collect(rs).Err? then Collect(rs)
      else if x.Err? then Err(x.error)
      else Ok(Collect(rs).value + [x.value])
  {
    assert (rs + [x])[..|rs|] == rs;
  }

  /** The result of each train end time on its own. */
  function RegretSteps(selectionRule: seq<ViewRow> -> Result<int>, df: seq<Row>, trainEndTimes: seq<int>, metric: string, metricParam: string): (rs: seq<Result<Option<real>>>)
    ensures |rs| == |trainEndTimes|
    ensures forall i :: 0 <= i < |trainEndTimes| ==> rs[i] == RegretAt(selectionRule, df, trainEndTimes[i], metric, metricParam)
  {
    seq(|trainEndTimes|, i requires 0 <= i < |trainEndTimes| => RegretAt(selectionRule, df, trainEndTimes[i], metric, metricParam))
  }

  /** The regrets over `trainEndTimes`, or the error of the first time that
      fails. */
  function Regrets(selectionRule: seq<ViewRow> -> Result<int>, df: seq<Row>, trainEndTimes: seq<int>, metric: string, metricParam: string): (r: Result<seq<Option<real>>>)
    ensures r.Ok? <==> forall i :: 0 <= i < |trainEndTimes| ==> RegretAt(selectionRule, df, trainEndTimes[i], metric, metricParam).Ok?
    ensures r.Ok? ==> |r.value| == |trainEndTimes|
    ensures r.Ok? ==> forall i :: 0 <= i < |trainEndTimes| ==>
      RegretAt(selectionRule, df, trainEndTimes[i], metric, metricParam) == Ok(r.value[i])
    ensures r.Err? ==> exists i :: (0 <= i < |trainEndTimes|
      && RegretAt(selectionRule, df, trainEndTimes[i], metric, metricParam) == Err(r.error)
      && forall j :: 0 <= j < i ==> RegretAt(selectionRule, df, trainEndTimes[j], metric, metricParam).Ok?)
  {
    Collect(RegretSteps(selectionRule, df, trainEndTimes, metric, metricParam))
  }

  /** One more train end time: an earlier failure stands, a failing time
      ends the run with its error, and otherwise its regret is appended. */
  lemma RegretsStep(selectionRule: seq<ViewRow> -> Result<int>, df: seq<Row>, trainEndTimes: seq<int>, n: nat, metric: string, metricParam: string)
    requires n < |trainEndTimes|
    ensures var prev := Regrets(selectionRule, df, trainEndTimes[..n], metric, metricParam);
      var here := RegretAt(selectionRule, df, trainEndTimes[n], metric, metricParam);
      Regrets(selectionRule, df, trainEndTimes[..n + 1], metric, metricParam) ==
        if prev.Err? then prev
        else if here.Err? then Err(here.error)
        else Ok(prev.value + [here.value])
  {
    var steps := RegretSteps(selectionRule, df, trainEndTimes[..n], metric, metricParam);
    var here := RegretAt(selectionRule, df, trainEndTimes[n], metric, metricParam);
    assert RegretSteps(selectionRule, df, trainEndTimes[..n + 1], metric, metricParam) == steps + [here];
    CollectSnoc(steps, here);
  }

  class RegretCalculator {
    const distanceFromBestTable: DistanceFromBestTable

    constructor (distanceFromBestTable: DistanceFromBestTable)
      ensures this.distanceFromBestTable == distanceFromBestTable
    {
      this.distanceFromBestTable := distanceFromBestTable;
    }

    /** The rule's regret at each train end time, in order, over the table's
        rows for `modelGroupIds`; the first failure ends the computation. */
    method RegretsForRule(selectionRule: seq<ViewRow> -> Result<int>, modelGroupIds: seq<int>, trainEndTimes: seq<int>,
                          metric: string, metricParam: string)
      returns (regrets: Result<seq<Option<real>>>)
      ensures regrets == Regrets(selectionRule, distanceFromBestTable.AsDataframe(modelGroupIds), trainEndTimes, metric, metricParam)
    {
      var acc: seq<Option<real>> := [];
      var df := distanceFromBestTable.AsDataframe(modelGroupIds);
      var i := 0;
      while i < |trainEndTimes|
        invariant 0 <= i <= |trainEndTimes|
        invariant Regrets(selectionRule, df, trainEndTimes[..i], metric, metricParam) == Ok(acc)
      {
        RegretsStep(selectionRule, df, trainEndTimes, i, metric, metricParam);
        var localizedDf := Localize(df, trainEndTimes[i]);
        var choice := selectionRule(localizedDf);
        if choice.Err? {
          assert RegretAt(selectionRule, df, trainEndTimes[i], metric, metricParam) == Err(choice.error);
          regrets := Err(choice.error);
          RegretsErrorPersists(selectionRule, df, trainEndTimes, metric, metricParam, i + 1);
          return;
        }
        var regretResult := RegretRows(df, choice.value, trainEndTimes[i], metric, metricParam);
        if |regretResult| != 1 {
          assert RegretAt(selectionRule, df, trainEndTimes[i], metric, metricParam) == Err(AssertionError);
          regrets := Err(AssertionError);
          RegretsErrorPersists(selectionRule, df, trainEndTimes, metric, metricParam, i + 1);
          return;
        }
        assert RegretAt(selectionRule, df, trainEndTimes[i], metric, metricParam) == Ok(regretResult[0].belowBestNextTime);
        acc := acc + [regretResult[0].belowBestNextTime];
        i := i + 1;
      }
      assert trainEndTimes[..i] == trainEndTimes;
      regrets := Ok(acc);
    }
  }

  /** Once the regrets of a prefix of the times fail, the regrets of all
      the times fail with the same error: the first failure ends the run. */
  lemma RegretsErrorPersists(selectionRule: seq<ViewRow> -> Result<int>, df: seq<Row>, trainEndTimes: seq<int>, metric: string, metricParam: string, n: nat)
    requires n <= |trainEndTimes|
    requires Regrets(selectionRule, df, trainEndTimes[..n], metric, metricParam).Err?
    ensures Regrets(selectionRule, df, trainEndTimes, metric, metricParam) == Regrets(selectionRule, df, trainEndTimes[..n], metric, metricParam)
  {
    var steps := RegretSteps(selectionRule, df, trainEndTimes, metric, metricParam);
    assert RegretSteps(selectionRule, df, trainEndTimes[..n], metric, metricParam) == steps[..n];
    CollectErrorPersists(steps, n);
  }

  /** A failure in the first `n` steps is the failure of the whole run. */
  lemma {:induction false} CollectErrorPersists<T>(rs: seq<Result<T>>, n: nat)
    requires n <= |rs|
    requires Collect(rs[..n]).Err?
    ensures Collect(rs) == Collect(rs[..n])
    decreases |rs| - n
  {
    if n < |rs| {
      assert rs[..n + 1] == rs[..n] + [rs[n]];
      CollectSnoc(rs[..n], rs[n]);
      CollectErrorPersists(rs, n + 1);
    } else {
      assert rs[..n] == rs;
    }
  }
}
