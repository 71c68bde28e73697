/** The repository's test scenarios, stated on the model. Train end times
    are written as years; the selection-rule frames take the test's
    `dist_from_abs_worst` column as the raw value and `dist_from_best_case`
    as below-best. Each frame is written as blocks of rows (by train end
    time or by model group); the order of rows affects no outcome here,
    because no scenario has a tie. */
module Fixtures {
  import opened Results
  import opened Collections
  import opened Tables
  import opened SelectionRules
  import opened Regrets

  // Filtering blocks of rows.

  function Keep<T>(x: T, p: T -> bool): seq<T> {
    if p(x) then [x] else []
  }

  lemma FilterStep<T(!new)>(s: seq<T>, p: T -> bool)
    requires |s| > 0
    ensures Filter(s, p) == Keep(s[0], p) + Filter(s[1..], p)
  {
    FilterFrom(s, p, 0);
    assert s[0..] == s;
  }

  lemma Filter3<T(!new)>(s: seq<T>, p: T -> bool)
    requires |s| == 3
    ensures Filter(s, p) == Keep(s[0], p) + Keep(s[1], p) + Keep(s[2], p)
  {
    FilterStep(s, p);
    var t := s[1..];
    FilterStep(t, p);
    var u := t[1..];
    FilterStep(u, p);
    assert u[1..] == [];
    assert t[0] == s[1] && u[0] == s[2];
    var a, b, c := Keep(s[0], p), Keep(s[1], p), Keep(s[2], p);
    assert Filter(u, p) == c;
    assert Filter(t, p) == b + c;
    assert a + (b + c) == a + b + c;
  }

  lemma {:induction false} AllMembersPass<T(!new)>(s: seq<T>, p: T -> bool)
    requires forall x :: x in s ==> p(x)
    ensures Filter(s, p) == s
  {
    if |s| > 0 {
      assert forall x :: x in s[1..] ==> x in s;
      AllMembersPass(s[1..], p);
      FilterStep(s, p);
      assert Keep(s[0], p) == [s[0]];
    }
  }

  lemma {:induction false} NoMemberPasses<T(!new)>(s: seq<T>, p: T -> bool)
    requires forall x :: x in s ==> !p(x)
    ensures Filter(s, p) == []
  {
    if |s| > 0 {
      assert forall x :: x in s[1..] ==> x in s;
      NoMemberPasses(s[1..], p);
      FilterStep(s, p);
      assert Keep(s[0], p) == [];
    }
  }

  /** Of two blocks, the one whose rows all pass is kept and the other dropped. */
  lemma FirstBlock<T(!new)>(a: seq<T>, b: seq<T>, p: T -> bool)
    requires forall x :: x in a ==> p(x)
    requires forall x :: x in b ==> !p(x)
    ensures Filter(a + b, p) == a
  {
    FilterAppend(a, b, p);
    AllMembersPass(a, p);
    NoMemberPasses(b, p);
    assert a + [] == a;
  }

  lemma SecondBlock<T(!new)>(a: seq<T>, b: seq<T>, p: T -> bool)
    requires forall x :: x in a ==> !p(x)
    requires forall x :: x in b ==> p(x)
    ensures Filter(a + b, p) == b
  {
    FilterAppend(a, b, p);
    NoMemberPasses(a, p);
    AllMembersPass(b, p);
    assert [] + b == b;
  }

  /** Filtering skips a block none of whose rows pass. */
  lemma SkipBlock<T(!new)>(a: seq<T>, b: seq<T>, p: T -> bool)
    requires forall x :: x in a ==> !p(x)
    ensures Filter(a + b, p) == Filter(b, p)
  {
    FilterAppend(a, b, p);
    NoMemberPasses(a, p);
    assert [] + Filter(b, p) == Filter(b, p);
  }

  lemma Sum2(a: real, b: real)
    ensures Sum([a, b]) == a + b
  {
    assert [a, b][1..] == [b];
    assert [b][1..] == [];
    assert Sum([b]) == b + Sum([]);
  }

  lemma Sum3(a: real, b: real, c: real)
    ensures Sum([a, b, c]) == a + b + c
  {
    assert [a, b, c][1..] == [b, c];
    Sum2(b, c);
  }

  /** A frame whose rows all belong to `winner` or `loser`, with `winner`
      present and strictly ahead, yields `winner` whatever the tie break. */
  lemma PickOfTwo(rows: seq<ViewRow>, score: int -> real, tieBreak: nat, winner: int, loser: int)
    requires forall r :: r in rows ==> r.modelGroupId == winner || r.modelGroupId == loser
    requires exists r :: r in rows && r.modelGroupId == winner
    requires score(loser) < score(winner)
    ensures GroupPick(rows, score, tieBreak) == Ok(winner)
  {
    var gs := Groups(rows);
    assert winner in gs;
    ArgmaxPickUnique(gs, score, winner, tieBreak);
  }

  function V(g: int, m: int, t: int, metric: string, raw: real, below: real): ViewRow {
    ViewRow(g, m, t, metric, "100_abs", raw, below)
  }

  // The highest-metric-value scenario.

  function BestValue2011(): seq<ViewRow> {
    [V(1, 1, 2011, "precision@", 0.5, 0.0), V(2, 2, 2011, "precision@", 0.4, 0.1)]
  }

  function BestValue2012(): seq<ViewRow> {
    [V(1, 3, 2012, "precision@", 0.6, 0.1), V(2, 4, 2012, "precision@", 0.7, 0.0)]
  }

  /** The frame of the highest-metric-value test. */
  function BestValueFrame(): seq<ViewRow> {
    BestValue2011() + BestValue2012()
  }

  lemma BestValueNow2011()
    ensures CurrentRows(BestValueFrame(), 2011, "precision@", "100_abs") == BestValue2011()
  {
    FirstBlock(BestValue2011(), BestValue2012(), (r: ViewRow) => r.trainEndTime == 2011 && Matches(r, "precision@", "100_abs"));
  }

  lemma BestValueNow2012()
    ensures CurrentRows(BestValueFrame(), 2012, "precision@", "100_abs") == BestValue2012()
  {
    SecondBlock(BestValue2011(), BestValue2012(), (r: ViewRow) => r.trainEndTime == 2012 && Matches(r, "precision@", "100_abs"));
  }

  lemma BestValueNow2013()
    ensures CurrentRows(BestValueFrame(), 2013, "precision@", "100_abs") == []
  {
    NoMemberPasses(BestValueFrame(), (r: ViewRow) => r.trainEndTime == 2013 && Matches(r, "precision@", "100_abs"));
  }

  /** Of a current pair with different raw values, the larger one's group is
      picked. */
  lemma PairPick(df: seq<ViewRow>, t: int, a: ViewRow, b: ViewRow, tieBreak: nat)
    requires CurrentRows(df, t, "precision@", "100_abs") == [a, b]
    requires a.rawValue != b.rawValue
    ensures HighestMetricValue(df, t, "precision@", "100_abs", tieBreak)
      == Ok(if a.rawValue > b.rawValue then a.modelGroupId else b.modelGroupId)
  {
    var score := (row: ViewRow) => row.rawValue;
    if a.rawValue > b.rawValue {
      ArgmaxPickUnique([a, b], score, a, tieBreak);
    } else {
      ArgmaxPickUnique([a, b], score, b, tieBreak);
    }
  }

  /** Group 1 leads in 2011, whatever the tie break. */
  lemma HighestMetricValue2011(tieBreak: nat)
    ensures HighestMetricValue(BestValueFrame(), 2011, "precision@", "100_abs", tieBreak) == Ok(1)
  {
    var rows := BestValue2011();
    BestValueNow2011();
    PairPick(BestValueFrame(), 2011, rows[0], rows[1], tieBreak);
  }

  /** Group 2 leads in 2012, whatever the tie break. */
  lemma HighestMetricValue2012(tieBreak: nat)
    ensures HighestMetricValue(BestValueFrame(), 2012, "precision@", "100_abs", tieBreak) == Ok(2)
  {
    var rows := BestValue2012();
    BestValueNow2012();
    PairPick(BestValueFrame(), 2012, rows[0], rows[1], tieBreak);
  }

  /** No row is current in 2013, so there is no first row to take. */
  lemma HighestMetricValueNothingCurrent(tieBreak: nat)
    ensures HighestMetricValue(BestValueFrame(), 2013, "precision@", "100_abs", tieBreak) == Err(IndexError)
  {
    BestValueNow2013();
  }

  // The average and most-frequent scenarios.

  function AverageGroupOne(): seq<ViewRow> {
    [V(1, 1, 2011, "precision@", 0.5, 0.0), V(1, 3, 2012, "precision@", 0.6, 0.1), V(1, 5, 2013, "precision@", 0.6, 0.02)]
  }

  function AverageGroupTwo(): seq<ViewRow> {
    [V(2, 2, 2011, "precision@", 0.4, 0.1), V(2, 4, 2012, "precision@", 0.69, 0.0), V(2, 6, 2013, "precision@", 0.62, 0.0)]
  }

  /** The frame of the average and most-frequent tests. */
  function AverageFrame(): seq<ViewRow> {
    AverageGroupOne() + AverageGroupTwo()
  }

  lemma AverageFrameMetricRows()
    ensures MetricRows(AverageFrame(), "precision@", "100_abs") == AverageFrame()
  {
    AllMembersPass(AverageFrame(), (r: ViewRow) => Matches(r, "precision@", "100_abs"));
  }

  /** A frame with no row of `metric` has no metric rows. */
  lemma OtherMetricOnly(df: seq<ViewRow>, metric: string, param: string)
    requires forall r :: r in df ==> r.metric != metric
    ensures MetricRows(df, metric, param) == []
  {
    NoMemberPasses(df, (r: ViewRow) => Matches(r, metric, param));
  }

  lemma AverageFrameNoRecall()
    ensures MetricRows(AverageFrame(), "recall@", "100_abs") == []
  {
    assert forall r :: r in AverageFrame() ==> r.metric == "precision@";
    assert "precision@" != "recall@";
    OtherMetricOnly(AverageFrame(), "recall@", "100_abs");
  }

  lemma AverageFrameGroups()
    ensures GroupRows(AverageFrame(), 1) == AverageGroupOne()
    ensures GroupRows(AverageFrame(), 2) == AverageGroupTwo()
  {
    FirstBlock(AverageGroupOne(), AverageGroupTwo(), (r: ViewRow) => r.modelGroupId == 1);
    SecondBlock(AverageGroupOne(), AverageGroupTwo(), (r: ViewRow) => r.modelGroupId == 2);
  }

  /** The mean raw value of a group with three rows. */
  lemma AverageOfThree(frame: seq<ViewRow>, g: int, rows: seq<ViewRow>)
    requires |rows| == 3 && GroupRows(frame, g) == rows
    ensures AverageValue(frame, g) == (rows[0].rawValue + rows[1].rawValue + rows[2].rawValue) / 3.0
  {
    var raws := MapSeq(rows, (r: ViewRow) => r.rawValue);
    assert raws == [rows[0].rawValue, rows[1].rawValue, rows[2].rawValue];
    Sum3(rows[0].rawValue, rows[1].rawValue, rows[2].rawValue);
  }

  lemma AverageFrameTwoGroups()
    ensures forall r :: r in AverageFrame() ==> r.modelGroupId == 2 || r.modelGroupId == 1
    ensures exists r :: r in AverageFrame() && r.modelGroupId == 2
  {
    assert AverageFrame()[3] in AverageFrame();
  }

  /** Group 2's mean (0.57) beats group 1's (0.5666...). */
  lemma HighestAverageValueExample(tieBreak: nat)
    ensures HighestAverageValue(AverageFrame(), 2013, "precision@", "100_abs", tieBreak) == Ok(2)
  {
    var df := AverageFrame();
    AverageFrameMetricRows();
    AverageFrameGroups();
    AverageOfThree(df, 1, AverageGroupOne());
    AverageOfThree(df, 2, AverageGroupTwo());
    AverageFrameTwoGroups();
    PickOfTwo(df, AverageScorer(df), tieBreak, 2, 1);
  }

  /** Without rows of the metric there is nothing to pick from. */
  lemma HighestAverageValueNoMetricRows(tieBreak: nat)
    ensures HighestAverageValue(AverageFrame(), 2013, "recall@", "100_abs", tieBreak) == Err(ValueError(EmptyArgmax))
  {
    AverageFrameNoRecall();
  }

  /** The below-best distances of three rows. */
  lemma BelowBests(rows: seq<ViewRow>)
    requires |rows| == 3
    ensures MapSeq(rows, (r: ViewRow) => r.belowBest) == [rows[0].belowBest, rows[1].belowBest, rows[2].belowBest]
  {
  }

  /** The share of a three-row group's rows within `x` of the best. */
  lemma WithinOfThree(frame: seq<ViewRow>, x: real, g: int, rows: seq<ViewRow>, count: nat)
    requires |rows| == 3 && GroupRows(frame, g) == rows
    requires |Filter([rows[0].belowBest, rows[1].belowBest, rows[2].belowBest], d => d <= x)| == count
    ensures WithinDistFraction(frame, x, g) == (count as real) / 3.0
  {
    assert rows[0] in GroupRows(frame, g);
    WithinDistFractionIsCount(frame, x, g);
    BelowBests(rows);
  }

  lemma WithinOne()
    ensures WithinDistFraction(AverageFrame(), 0.01, 1) == 1.0 / 3.0
  {
    var rows := AverageGroupOne();
    AverageFrameGroups();
    var ds := [rows[0].belowBest, rows[1].belowBest, rows[2].belowBest];
    var p := (d: real) => d <= 0.01;
    Filter3(ds, p);
    assert Keep(ds[0], p) == [ds[0]] && Keep(ds[1], p) == [] && Keep(ds[2], p) == [];
    WithinOfThree(AverageFrame(), 0.01, 1, rows, 1);
  }

  lemma WithinTwo()
    ensures WithinDistFraction(AverageFrame(), 0.01, 2) == 2.0 / 3.0
  {
    var rows := AverageGroupTwo();
    AverageFrameGroups();
    var ds := [rows[0].belowBest, rows[1].belowBest, rows[2].belowBest];
    var p := (d: real) => d <= 0.01;
    Filter3(ds, p);
    assert Keep(ds[0], p) == [] && Keep(ds[1], p) == [ds[1]] && Keep(ds[2], p) == [ds[2]];
    WithinOfThree(AverageFrame(), 0.01, 2, rows, 2);
  }

  /** Within 0.01 of the best, group 2 is so two times out of three, group 1
      once. */
  lemma MostFrequentBestDistExample(tieBreak: nat)
    ensures MostFrequentBestDist(AverageFrame(), 2013, "precision@", "100_abs", 0.01, tieBreak) == Ok(2)
  {
    AverageFrameMetricRows();
    WithinOne();
    WithinTwo();
    AverageFrameTwoGroups();
    PickOfTwo(AverageFrame(), WithinDistScorer(AverageFrame(), 0.01), tieBreak, 2, 1);
  }

  // The two-metric scenario.

  /** A group's precision and recall rows at 2011 (model `m1`), then at
      2012 (model `m2`). */
  function PrecisionRecallRows(g: int, m1: int, m2: int, p1: real, r1: real, p2: real, r2: real): seq<ViewRow> {
    [V(g, m1, 2011, "precision@", p1, 0.0), V(g, m1, 2011, "recall@", r1, 0.0),
     V(g, m2, 2012, "precision@", p2, 0.0), V(g, m2, 2012, "recall@", r2, 0.0)]
  }

  function TwoMetricGroupOne(): seq<ViewRow> {
    PrecisionRecallRows(1, 1, 3, 0.6, 0.4, 0.5, 0.5)
  }

  function TwoMetricGroupTwo(): seq<ViewRow> {
    PrecisionRecallRows(2, 2, 4, 0.4, 0.6, 0.4, 0.5)
  }

  /** The frame of the two-metric test. */
  function TwoMetricFrame(): seq<ViewRow> {
    TwoMetricGroupOne() + TwoMetricGroupTwo()
  }

  lemma TwoMetricFrameRows()
    ensures TwoMetricRows(TwoMetricFrame(), "precision@", "100_abs", "recall@", "100_abs") == TwoMetricFrame()
  {
    AllMembersPass(TwoMetricFrame(), (r: ViewRow) => Matches(r, "precision@", "100_abs") || Matches(r, "recall@", "100_abs"));
  }

  lemma TwoMetricFrameTwoGroups()
    ensures forall r :: r in TwoMetricFrame() ==> r.modelGroupId == 1 || r.modelGroupId == 2
    ensures exists r :: r in TwoMetricFrame() && r.modelGroupId == 1
    ensures exists r :: r in TwoMetricFrame() && r.modelGroupId == 2
  {
    assert TwoMetricFrame()[0] in TwoMetricFrame();
    assert TwoMetricFrame()[4] in TwoMetricFrame();
  }

  lemma TwoMetricFrameGroups()
    ensures GroupRows(TwoMetricFrame(), 1) == TwoMetricGroupOne()
    ensures GroupRows(TwoMetricFrame(), 2) == TwoMetricGroupTwo()
  {
    FirstBlock(TwoMetricGroupOne(), TwoMetricGroupTwo(), (r: ViewRow) => r.modelGroupId == 1);
    SecondBlock(TwoMetricGroupOne(), TwoMetricGroupTwo(), (r: ViewRow) => r.modelGroupId == 2);
  }

  /** Two rows at each of two distinct times give those two times. */
  lemma DistinctPairs(x: int, y: int)
    requires x != y
    ensures Distinct([x, x, y, y]) == [x, y]
  {
    var s1, s2, s3, s4 := [x], [x, x], [x, x, y], [x, x, y, y];
    assert s1[..0] == [];
    assert Distinct(s1) == [x];
    assert s2[..1] == s1;
    assert Distinct(s2) == [x];
    assert s3[..2] == s2;
    assert Distinct(s3) == [x, y];
    assert s4[..3] == s3;
  }

  lemma TwoYears(rows: seq<ViewRow>)
    requires |rows| == 4
    requires rows[0].trainEndTime == 2011 && rows[1].trainEndTime == 2011
    requires rows[2].trainEndTime == 2012 && rows[3].trainEndTime == 2012
    ensures TimesOf(rows) == [2011, 2012]
  {
    var ts := MapSeq(rows, (r: ViewRow) => r.trainEndTime);
    assert ts == [2011, 2011, 2012, 2012];
    DistinctPairs(2011, 2012);
  }

  lemma YearRows(rows: seq<ViewRow>)
    requires |rows| == 4
    requires rows[0].trainEndTime == 2011 && rows[1].trainEndTime == 2011
    requires rows[2].trainEndTime == 2012 && rows[3].trainEndTime == 2012
    ensures Filter(rows, (r: ViewRow) => r.trainEndTime == 2011) == rows[..2]
    ensures Filter(rows, (r: ViewRow) => r.trainEndTime == 2012) == rows[2..]
  {
    var early, late := rows[..2], rows[2..];
    assert rows == early + late;
    assert forall r :: r in early ==> r.trainEndTime == 2011;
    assert forall r :: r in late ==> r.trainEndTime == 2012;
    FirstBlock(early, late, (r: ViewRow) => r.trainEndTime == 2011);
    SecondBlock(early, late, (r: ViewRow) => r.trainEndTime == 2012);
  }

  /** The weighted sum at one time of a precision row and a recall row. */
  lemma WeightedPair(rows: seq<ViewRow>, t: int, pair: seq<ViewRow>, w: real)
    requires |pair| == 2 && Filter(rows, (r: ViewRow) => r.trainEndTime == t) == pair
    requires pair[0].metric == "precision@" && pair[1].metric == "recall@" && pair[1].parameter == "100_abs"
    ensures WeightedSumAt(rows, t, "precision@", "100_abs", "recall@", "100_abs", w)
      == pair[0].rawValue * w + pair[1].rawValue * (1.0 - w)
  {
    var wf := (r: ViewRow) => WeightedRaw(r, "precision@", "100_abs", "recall@", "100_abs", w);
    var m := MapSeq(pair, wf);
    assert wf(pair[0]) == pair[0].rawValue * w;
    assert wf(pair[1]) == pair[1].rawValue * (1.0 - w);
    assert m == [pair[0].rawValue * w, pair[1].rawValue * (1.0 - w)];
    Sum2(pair[0].rawValue * w, pair[1].rawValue * (1.0 - w));
  }

  /** The weighted sums at 2011 and 2012 of a group with a precision and a
      recall row at each. */
  lemma PerTimeSums(rows: seq<ViewRow>, w: real)
    requires |rows| == 4
    requires rows[0].trainEndTime == 2011 && rows[1].trainEndTime == 2011
    requires rows[2].trainEndTime == 2012 && rows[3].trainEndTime == 2012
    requires rows[0].metric == "precision@" && rows[2].metric == "precision@"
    requires rows[1].metric == "recall@" && rows[3].metric == "recall@"
    requires rows[1].parameter == "100_abs" && rows[3].parameter == "100_abs"
    ensures WeightedSumAt(rows, 2011, "precision@", "100_abs", "recall@", "100_abs", w)
      == rows[0].rawValue * w + rows[1].rawValue * (1.0 - w)
    ensures WeightedSumAt(rows, 2012, "precision@", "100_abs", "recall@", "100_abs", w)
      == rows[2].rawValue * w + rows[3].rawValue * (1.0 - w)
  {
    YearRows(rows);
    WeightedPair(rows, 2011, rows[..2], w);
    WeightedPair(rows, 2012, rows[2..], w);
  }

  /** A group's rows are a precision and a recall row at 2011, then a
      precision and a recall row at 2012. */
  predicate PrecisionRecallShape(rows: seq<ViewRow>) {
    && |rows| == 4
    && rows[0].trainEndTime == 2011 && rows[1].trainEndTime == 2011
    && rows[2].trainEndTime == 2012 && rows[3].trainEndTime == 2012
    && rows[0].metric == "precision@" && rows[2].metric == "precision@"
    && rows[1].metric == "recall@" && rows[3].metric == "recall@"
    && rows[1].parameter == "100_abs" && rows[3].parameter == "100_abs"
  }

  /** The score of a group with rows of that shape. */
  lemma TwoYearScore(frame: seq<ViewRow>, w: real, g: int, rows: seq<ViewRow>)
    requires GroupRows(frame, g) == rows && PrecisionRecallShape(rows)
    ensures TwoMetricScore(frame, "precision@", "100_abs", "recall@", "100_abs", w, g)
      == ((rows[0].rawValue * w + rows[1].rawValue * (1.0 - w)) + (rows[2].rawValue * w + rows[3].rawValue * (1.0 - w))) / 2.0
  {
    TwoYears(rows);
    PerTimeSums(rows, w);
    var s1 := WeightedSumAt(rows, 2011, "precision@", "100_abs", "recall@", "100_abs", w);
    var s2 := WeightedSumAt(rows, 2012, "precision@", "100_abs", "recall@", "100_abs", w);
    var perTime := MapSeq([2011, 2012], t => WeightedSumAt(rows, t, "precision@", "100_abs", "recall@", "100_abs", w));
    assert perTime == [s1, s2];
    Sum2(s1, s2);
  }

  /** The same score written with the group's four raw values. */
  lemma TwoYearScoreOf(frame: seq<ViewRow>, w: real, g: int, rows: seq<ViewRow>, p1: real, r1: real, p2: real, r2: real)
    requires GroupRows(frame, g) == rows && PrecisionRecallShape(rows)
    requires rows[0].rawValue == p1 && rows[1].rawValue == r1 && rows[2].rawValue == p2 && rows[3].rawValue == r2
    ensures TwoMetricScore(frame, "precision@", "100_abs", "recall@", "100_abs", w, g)
      == ((p1 * w + r1 * (1.0 - w)) + (p2 * w + r2 * (1.0 - w))) / 2.0
  {
    TwoYearScore(frame, w, g, rows);
  }

  lemma ScoreAtHalf(df: seq<ViewRow>, g: int, m1: int, m2: int, p1: real, r1: real, p2: real, r2: real)
    requires GroupRows(df, g) == PrecisionRecallRows(g, m1, m2, p1, r1, p2, r2)
    ensures TwoMetricScore(df, "precision@", "100_abs", "recall@", "100_abs", 0.5, g)
      == ((p1 * 0.5 + r1 * (1.0 - 0.5)) + (p2 * 0.5 + r2 * (1.0 - 0.5))) / 2.0
  {
    TwoYearScoreOf(df, 0.5, g, PrecisionRecallRows(g, m1, m2, p1, r1, p2, r2), p1, r1, p2, r2);
  }

  lemma ScoreAtTenth(df: seq<ViewRow>, g: int, m1: int, m2: int, p1: real, r1: real, p2: real, r2: real)
    requires GroupRows(df, g) == PrecisionRecallRows(g, m1, m2, p1, r1, p2, r2)
    ensures TwoMetricScore(df, "precision@", "100_abs", "recall@", "100_abs", 0.1, g)
      == ((p1 * 0.1 + r1 * (1.0 - 0.1)) + (p2 * 0.1 + r2 * (1.0 - 0.1))) / 2.0
  {
    TwoYearScoreOf(df, 0.1, g, PrecisionRecallRows(g, m1, m2, p1, r1, p2, r2), p1, r1, p2, r2);
  }

  lemma GroupOneScoreEven()
    ensures TwoMetricScore(TwoMetricFrame(), "precision@", "100_abs", "recall@", "100_abs", 0.5, 1) == 0.5
  {
    TwoMetricFrameGroups();
    ScoreAtHalf(TwoMetricFrame(), 1, 1, 3, 0.6, 0.4, 0.5, 0.5);
  }

  lemma GroupTwoScoreEven()
    ensures TwoMetricScore(TwoMetricFrame(), "precision@", "100_abs", "recall@", "100_abs", 0.5, 2) == 0.475
  {
    TwoMetricFrameGroups();
    ScoreAtHalf(TwoMetricFrame(), 2, 2, 4, 0.4, 0.6, 0.4, 0.5);
  }

  lemma GroupOneScoreRecallHeavy()
    ensures TwoMetricScore(TwoMetricFrame(), "precision@", "100_abs", "recall@", "100_abs", 0.1, 1) == 0.46
  {
    TwoMetricFrameGroups();
    ScoreAtTenth(TwoMetricFrame(), 1, 1, 3, 0.6, 0.4, 0.5, 0.5);
  }

  lemma GroupTwoScoreRecallHeavy()
    ensures TwoMetricScore(TwoMetricFrame(), "precision@", "100_abs", "recall@", "100_abs", 0.1, 2) == 0.535
  {
    TwoMetricFrameGroups();
    ScoreAtTenth(TwoMetricFrame(), 2, 2, 4, 0.4, 0.6, 0.4, 0.5);
  }

  /** Equal weights favour group 1 (0.5 against 0.475). */
  lemma HighestAverageTwoMetricsEven(tieBreak: nat)
    ensures HighestAverageTwoMetrics(TwoMetricFrame(), 2013, "precision@", "100_abs", "recall@", "100_abs", 0.5, tieBreak) == Ok(1)
  {
    var df := TwoMetricFrame();
    TwoMetricFrameRows();
    TwoMetricFrameTwoGroups();
    GroupOneScoreEven();
    GroupTwoScoreEven();
    PickOfTwo(df, TwoMetricScorer(df, "precision@", "100_abs", "recall@", "100_abs", 0.5), tieBreak, 1, 2);
  }

  /** Weight 0.1 on precision favours group 2 (0.535 against 0.46). */
  lemma HighestAverageTwoMetricsRecallHeavy(tieBreak: nat)
    ensures HighestAverageTwoMetrics(TwoMetricFrame(), 2013, "precision@", "100_abs", "recall@", "100_abs", 0.1, tieBreak) == Ok(2)
  {
    var df := TwoMetricFrame();
    TwoMetricFrameRows();
    TwoMetricFrameTwoGroups();
    GroupOneScoreRecallHeavy();
    GroupTwoScoreRecallHeavy();
    PickOfTwo(df, TwoMetricScorer(df, "precision@", "100_abs", "recall@", "100_abs", 0.1), tieBreak, 2, 1);
  }

  /** A weight of 2 is refused. */
  lemma HighestAverageTwoMetricsWeightRefused(tieBreak: nat)
    ensures HighestAverageTwoMetrics(TwoMetricFrame(), 2013, "precision@", "100_abs", "recall@", "100_abs", 2.0, tieBreak)
      == Err(ValueError(WeightOutOfRange))
  {
  }

  // The regret scenario.

  function R(g: int, m: int, t: int, raw: real, below: real, next: real): Row {
    Row(g, m, t, "precision@", "100_abs", raw, below, Some(next))
  }

  /** The stable model group 1 of the regret test. */
  function StableRows(): seq<Row> {
    [R(1, 1, 2014, 0.5, 0.1, 0.15), R(1, 2, 2015, 0.5, 0.15, 0.18), R(1, 3, 2016, 0.46, 0.21, 0.11)]
  }

  /** The spiky model group 2 of the regret test. */
  function SpikyRows(): seq<Row> {
    [R(2, 4, 2014, 0.45, 0.15, 0.19), R(2, 5, 2015, 0.84, 0.0, 0.3), R(2, 6, 2016, 0.45, 0.22, 0.12)]
  }

  /** The distance rows of the regret test. */
  function RegretTable(): seq<Row> {
    StableRows() + SpikyRows()
  }

  /** A rule that always picks the spiky group. */
  function PickSpiky(df: seq<ViewRow>): Result<int> {
    Ok(2)
  }

  /** Behind a block of another group, a group with one row per time has
      exactly that row at each of its times. */
  lemma LookupBehind(other: seq<Row>, rows: seq<Row>, g: int, k: nat)
    requires forall r :: r in other ==> r.modelGroupId != g
    requires |rows| == 3 && k < 3
    requires forall i :: 0 <= i < 3 ==> (rows[i].modelGroupId == g && rows[i].trainEndTime == 2014 + i
      && rows[i].metric == "precision@" && rows[i].parameter == "100_abs")
    ensures RegretRows(other + rows, g, 2014 + k, "precision@", "100_abs") == [rows[k]]
  {
    var p := (r: Row) => r.modelGroupId == g && r.trainEndTime == 2014 + k && r.metric == "precision@" && r.parameter == "100_abs";
    SkipBlock(other, rows, p);
    Filter3(rows, p);
    assert forall i :: 0 <= i < 3 ==> (p(rows[i]) <==> i == k);
    if k == 0 {
      assert Keep(rows[0], p) == [rows[0]] && Keep(rows[1], p) == [] && Keep(rows[2], p) == [];
    } else if k == 1 {
      assert Keep(rows[0], p) == [] && Keep(rows[1], p) == [rows[1]] && Keep(rows[2], p) == [];
    } else {
      assert Keep(rows[0], p) == [] && Keep(rows[1], p) == [] && Keep(rows[2], p) == [rows[2]];
    }
  }

  /** The spiky group's row at `2014 + k`. */
  lemma RegretLookup(k: nat)
    requires k < 3
    ensures RegretRows(RegretTable(), 2, 2014 + k, "precision@", "100_abs") == [SpikyRows()[k]]
  {
    assert forall r :: r in StableRows() ==> r.modelGroupId == 1;
    LookupBehind(StableRows(), SpikyRows(), 2, k);
  }

  /** The spiky group's regret at a time is its row's next-time distance. */
  lemma RegretAtSpiky(k: nat)
    requires k < 3
    ensures RegretAt(PickSpiky, RegretTable(), 2014 + k, "precision@", "100_abs") == Ok(SpikyRows()[k].belowBestNextTime)
  {
    RegretLookup(k);
  }

  /** Three times that each succeed give their three regrets in order. */
  lemma RegretsOfThree(rule: seq<ViewRow> -> Result<int>, df: seq<Row>, t1: int, t2: int, t3: int, x: Option<real>, y: Option<real>, z: Option<real>)
    requires RegretAt(rule, df, t1, "precision@", "100_abs") == Ok(x)
    requires RegretAt(rule, df, t2, "precision@", "100_abs") == Ok(y)
    requires RegretAt(rule, df, t3, "precision@", "100_abs") == Ok(z)
    ensures Regrets.Regrets(rule, df, [t1, t2, t3], "precision@", "100_abs") == Ok([x, y, z])
  {
    StepsOfThree(rule, df, t1, t2, t3, "precision@", "100_abs");
    CollectThree(x, y, z);
  }

  lemma StepsOfThree(rule: seq<ViewRow> -> Result<int>, df: seq<Row>, t1: int, t2: int, t3: int, metric: string, metricParam: string)
    ensures RegretSteps(rule, df, [t1, t2, t3], metric, metricParam) ==
      [RegretAt(rule, df, t1, metric, metricParam), RegretAt(rule, df, t2, metric, metricParam), RegretAt(rule, df, t3, metric, metricParam)]
  {
    var steps := RegretSteps(rule, df, [t1, t2, t3], metric, metricParam);
    assert steps[0] == RegretAt(rule, df, t1, metric, metricParam);
  }

  lemma CollectThree<T>(x: T, y: T, z: T)
    ensures Collect([Ok(x), Ok(y), Ok(z)]) == Ok([x, y, z])
  {
    var r := Collect([Ok(x), Ok(y), Ok(z)]);
    assert r.value == [x, y, z];
  }

  /** Always picking the spiky group costs its next-time distances. */
  lemma RegretsExample()
    ensures Regrets.Regrets(PickSpiky, RegretTable(), [2014, 2015, 2016], "precision@", "100_abs")
      == Ok([Some(0.19), Some(0.3), Some(0.12)])
  {
    RegretAtSpiky(0);
    RegretAtSpiky(1);
    RegretAtSpiky(2);
    RegretsOfThree(PickSpiky, RegretTable(), 2014, 2015, 2016, Some(0.19), Some(0.3), Some(0.12));
  }
}
