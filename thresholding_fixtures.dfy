/** The thresholder scenario of the repository's tests, stated on the model.
    Train end times are years. The distance rows are written as one block per
    model group; a group's fate depends only on its own rows. */
module ThresholdingFixtures {
  import opened Results
  import opened Tables
  import opened Thresholding
  import DistanceFromBest

  function D(g: int, m: int, t: int, metric: string, raw: real, below: real, next: real): Row {
    Row(g, m, t, metric, "100_abs", raw, below, Some(next))
  }

  /** Passes both checks in 2014, fails the close check in 2015. */
  function GroupOne(): seq<Row> {
    [D(1, 1, 2014, "precision@", 0.5, 0.0, 0.38), D(1, 1, 2014, "recall@", 0.5, 0.0, 0.38),
     D(1, 2, 2015, "precision@", 0.5, 0.38, 0.0), D(1, 2, 2015, "recall@", 0.5, 0.38, 0.0),
     D(1, 3, 2016, "precision@", 0.46, 0.0, 0.11), D(1, 3, 2016, "recall@", 0.46, 0.0, 0.11)]
  }

  /** Fails the min check in 2014, passes both in 2015. */
  function GroupTwo(): seq<Row> {
    [D(2, 4, 2014, "precision@", 0.39, 0.11, 0.5), D(2, 4, 2014, "recall@", 0.5, 0.0, 0.38),
     D(2, 5, 2015, "precision@", 0.69, 0.19, 0.12), D(2, 5, 2015, "recall@", 0.69, 0.19, 0.0),
     D(2, 6, 2016, "precision@", 0.34, 0.12, 0.11), D(2, 6, 2016, "recall@", 0.46, 0.0, 0.11)]
  }

  /** Not among the tracked groups. */
  function GroupThree(): seq<Row> {
    [D(3, 7, 2014, "precision@", 0.28, 0.22, 0.0), D(3, 7, 2014, "recall@", 0.5, 0.0, 0.38),
     D(3, 8, 2015, "precision@", 0.88, 0.0, 0.02), D(3, 8, 2015, "recall@", 0.5, 0.38, 0.0),
     D(3, 9, 2016, "precision@", 0.44, 0.02, 0.11), D(3, 9, 2016, "recall@", 0.46, 0.0, 0.11)]
  }

  /** Fails both checks in 2014, fails the close check in 2015. */
  function GroupFour(): seq<Row> {
    [D(4, 10, 2014, "precision@", 0.29, 0.21, 0.21), D(4, 10, 2014, "recall@", 0.5, 0.0, 0.38),
     D(4, 11, 2015, "precision@", 0.67, 0.21, 0.21), D(4, 11, 2015, "recall@", 0.5, 0.38, 0.0),
     D(4, 12, 2016, "precision@", 0.25, 0.21, 0.21), D(4, 12, 2016, "recall@", 0.46, 0.0, 0.11)]
  }

  /** Good precision but not recall: a below_best of exactly 0.2 is not
      close to the best. */
  function GroupFive(): seq<Row> {
    [D(5, 13, 2014, "precision@", 0.5, 0.0, 0.38), D(5, 13, 2014, "recall@", 0.3, 0.2, 0.38),
     D(5, 14, 2015, "precision@", 0.5, 0.38, 0.0), D(5, 14, 2015, "recall@", 0.3, 0.58, 0.0),
     D(5, 15, 2016, "precision@", 0.46, 0.0, 0.11), D(5, 16, 2016, "recall@", 0.3, 0.16, 0.11)]
  }

  /** The distance table of the thresholder test. */
  function ThresholdTable(): seq<Row> {
    GroupOne() + GroupTwo() + GroupThree() + GroupFour() + GroupFive()
  }

  const PrecisionFilter := MetricFilter("precision@", "100_abs", 0.2, 0.4)
  const RecallFilter := MetricFilter("recall@", "100_abs", 0.2, 0.4)

  /** The two metric filters of the test. */
  function TestFilters(): seq<MetricFilter> {
    [PrecisionFilter, RecallFilter]
  }

  /** The tracked groups of the test. */
  function Tracked(): set<int> {
    {1, 2, 4, 5}
  }

  /** Group `g` passes criterion `c` for both test filters at `t`. */
  predicate PassesBoth(rows: seq<Row>, t: int, g: int, c: Criterion) {
    HasPassingRow(rows, PrecisionFilter, t, g, c) && HasPassingRow(rows, RecallFilter, t, g, c)
  }

  /** All rows of `block` belong to model group `g`. */
  predicate OfGroup(block: seq<Row>, g: int) {
    forall r :: r in block ==> r.modelGroupId == g
  }

  /** The block of a model group of the test table. */
  function Block(g: int): seq<Row> {
    if g == 1 then GroupOne() else if g == 2 then GroupTwo() else if g == 3 then GroupThree()
    else if g == 4 then GroupFour() else if g == 5 then GroupFive() else []
  }

  lemma GroupOneRows() ensures OfGroup(GroupOne(), 1) { }
  lemma GroupTwoRows() ensures OfGroup(GroupTwo(), 2) { }
  lemma GroupThreeRows() ensures OfGroup(GroupThree(), 3) { }
  lemma GroupFourRows() ensures OfGroup(GroupFour(), 4) { }
  lemma GroupFiveRows() ensures OfGroup(GroupFive(), 5) { }

  /** In a table made of one block per group 1..5, a group's passing rows
      are those of its own block. */
  lemma OwnBlock(rows: seq<Row>, b1: seq<Row>, b2: seq<Row>, b3: seq<Row>, b4: seq<Row>, b5: seq<Row>,
                 f: MetricFilter, t: int, g: int, c: Criterion)
    requires rows == b1 + b2 + b3 + b4 + b5
    requires OfGroup(b1, 1) && OfGroup(b2, 2) && OfGroup(b3, 3) && OfGroup(b4, 4) && OfGroup(b5, 5)
    requires 1 <= g <= 5
    ensures HasPassingRow(rows, f, t, g, c) <==> HasPassingRow([b1, b2, b3, b4, b5][g - 1], f, t, g, c)
  {
    var block := [b1, b2, b3, b4, b5][g - 1];
    assert forall r :: r in rows <==> r in b1 || r in b2 || r in b3 || r in b4 || r in b5;
    assert forall r :: r in rows && r.modelGroupId == g ==> r in block;
  }

  /** What group `g` of `rows` passes at the two thresholder times: close to
      the best and at or above the minimum, in 2014 and in 2015. */
  predicate Outcomes(rows: seq<Row>, g: int, close2014: bool, min2014: bool, close2015: bool, min2015: bool) {
    && (PassesBoth(rows, 2014, g, CloseToBest) <==> close2014)
    && (PassesBoth(rows, 2014, g, AboveMin) <==> min2014)
    && (PassesBoth(rows, 2015, g, CloseToBest) <==> close2015)
    && (PassesBoth(rows, 2015, g, AboveMin) <==> min2015)
  }

  lemma GroupOneFacts(b: seq<Row>)
    requires b == GroupOne()
    ensures Outcomes(b, 1, true, true, false, true)
  {
    assert Passes(b[0], PrecisionFilter, 2014, CloseToBest) && Passes(b[1], RecallFilter, 2014, CloseToBest);
    assert Passes(b[0], PrecisionFilter, 2014, AboveMin) && Passes(b[1], RecallFilter, 2014, AboveMin);
    assert Passes(b[2], PrecisionFilter, 2015, AboveMin) && Passes(b[3], RecallFilter, 2015, AboveMin);
    assert !HasPassingRow(b, PrecisionFilter, 2015, 1, CloseToBest);
  }

  lemma GroupTwoFacts(b: seq<Row>)
    requires b == GroupTwo()
    ensures Outcomes(b, 2, true, false, true, true)
  {
    assert Passes(b[0], PrecisionFilter, 2014, CloseToBest) && Passes(b[1], RecallFilter, 2014, CloseToBest);
    assert !HasPassingRow(b, PrecisionFilter, 2014, 2, AboveMin);
    assert Passes(b[2], PrecisionFilter, 2015, CloseToBest) && Passes(b[3], RecallFilter, 2015, CloseToBest);
    assert Passes(b[2], PrecisionFilter, 2015, AboveMin) && Passes(b[3], RecallFilter, 2015, AboveMin);
  }

  lemma GroupFourFacts(b: seq<Row>)
    requires b == GroupFour()
    ensures Outcomes(b, 4, false, false, false, true)
  {
    assert !HasPassingRow(b, PrecisionFilter, 2014, 4, CloseToBest);
    assert !HasPassingRow(b, PrecisionFilter, 2014, 4, AboveMin);
    assert !HasPassingRow(b, PrecisionFilter, 2015, 4, CloseToBest);
    assert Passes(b[2], PrecisionFilter, 2015, AboveMin) && Passes(b[3], RecallFilter, 2015, AboveMin);
  }

  lemma GroupFiveFacts(b: seq<Row>)
    requires b == GroupFive()
    ensures Outcomes(b, 5, false, false, false, false)
  {
    assert !HasPassingRow(b, RecallFilter, 2014, 5, CloseToBest);
    assert !HasPassingRow(b, RecallFilter, 2014, 5, AboveMin);
    assert !HasPassingRow(b, PrecisionFilter, 2015, 5, CloseToBest);
    assert !HasPassingRow(b, RecallFilter, 2015, 5, AboveMin);
  }

  /** A group's outcomes in a table of one block per group are those of its block. */
  lemma BlockOutcomes(rows: seq<Row>, b1: seq<Row>, b2: seq<Row>, b3: seq<Row>, b4: seq<Row>, b5: seq<Row>,
                      g: int, close2014: bool, min2014: bool, close2015: bool, min2015: bool)
    requires rows == b1 + b2 + b3 + b4 + b5
    requires OfGroup(b1, 1) && OfGroup(b2, 2) && OfGroup(b3, 3) && OfGroup(b4, 4) && OfGroup(b5, 5)
    requires 1 <= g <= 5
    requires Outcomes([b1, b2, b3, b4, b5][g - 1], g, close2014, min2014, close2015, min2015)
    ensures Outcomes(rows, g, close2014, min2014, close2015, min2015)
  {
    forall f, t, c ensures HasPassingRow(rows, f, t, g, c) <==> HasPassingRow([b1, b2, b3, b4, b5][g - 1], f, t, g, c) {
      OwnBlock(rows, b1, b2, b3, b4, b5, f, t, g, c);
    }
  }

  /** The outcomes of the tracked groups in the test table. */
  predicate TestOutcomes(rows: seq<Row>) {
    && Outcomes(rows, 1, true, true, false, true)
    && Outcomes(rows, 2, true, false, true, true)
    && Outcomes(rows, 4, false, false, false, true)
    && Outcomes(rows, 5, false, false, false, false)
  }

  /** A table of one block per group whose blocks have the test outcomes has them too. */
  lemma BlocksOutcomes(rows: seq<Row>, b1: seq<Row>, b2: seq<Row>, b3: seq<Row>, b4: seq<Row>, b5: seq<Row>)
    requires rows == b1 + b2 + b3 + b4 + b5
    requires OfGroup(b1, 1) && OfGroup(b2, 2) && OfGroup(b3, 3) && OfGroup(b4, 4) && OfGroup(b5, 5)
    requires Outcomes(b1, 1, true, true, false, true)
    requires Outcomes(b2, 2, true, false, true, true)
    requires Outcomes(b4, 4, false, false, false, true)
    requires Outcomes(b5, 5, false, false, false, false)
    ensures TestOutcomes(rows)
  {
    BlockOutcomes(rows, b1, b2, b3, b4, b5, 1, true, true, false, true);
    BlockOutcomes(rows, b1, b2, b3, b4, b5, 2, true, false, true, true);
    BlockOutcomes(rows, b1, b2, b3, b4, b5, 4, false, false, false, true);
    BlockOutcomes(rows, b1, b2, b3, b4, b5, 5, false, false, false, false);
  }

  /** The per-group results in the test table, at both thresholder times. */
  lemma TableFacts(rows: seq<Row>)
    requires rows == ThresholdTable()
    ensures TestOutcomes(rows)
  {
    GroupOneRows();
    GroupTwoRows();
    GroupThreeRows();
    GroupFourRows();
    GroupFiveRows();
    GroupOneFacts(GroupOne());
    GroupTwoFacts(GroupTwo());
    GroupFourFacts(GroupFour());
    GroupFiveFacts(GroupFive());
    BlocksOutcomes(rows, GroupOne(), GroupTwo(), GroupThree(), GroupFour(), GroupFive());
  }

  /** A per-time query over the tracked groups, read off the groups' results. */
  lemma GroupsAsOfTracked(rows: seq<Row>, t: int, c: Criterion, expected: set<int>)
    requires forall g :: g in Tracked() ==> (g in expected <==> PassesBoth(rows, t, g, c))
    requires expected <= Tracked()
    ensures GroupsAsOf(rows, TestFilters(), t, Tracked(), c) == expected
  {
    var s := GroupsAsOf(rows, TestFilters(), t, Tracked(), c);
    forall g ensures g in s <==> g in expected {
      if g in Tracked() {
        assert g in s <==> PassesBoth(rows, t, g, c);
      }
    }
  }

  lemma CloseToBestQueries(rows: seq<Row>)
    requires PassesBoth(rows, 2014, 1, CloseToBest) && PassesBoth(rows, 2014, 2, CloseToBest)
    requires !PassesBoth(rows, 2014, 4, CloseToBest) && !PassesBoth(rows, 2014, 5, CloseToBest)
    requires !PassesBoth(rows, 2015, 1, CloseToBest) && PassesBoth(rows, 2015, 2, CloseToBest)
    requires !PassesBoth(rows, 2015, 4, CloseToBest) && !PassesBoth(rows, 2015, 5, CloseToBest)
    ensures GroupsAsOf(rows, TestFilters(), 2014, Tracked(), CloseToBest) == {1, 2}
    ensures GroupsAsOf(rows, TestFilters(), 2015, Tracked(), CloseToBest) == {2}
  {
    GroupsAsOfTracked(rows, 2014, CloseToBest, {1, 2});
    GroupsAsOfTracked(rows, 2015, CloseToBest, {2});
  }

  lemma AboveMinQueries(rows: seq<Row>)
    requires PassesBoth(rows, 2014, 1, AboveMin) && !PassesBoth(rows, 2014, 2, AboveMin)
    requires !PassesBoth(rows, 2014, 4, AboveMin) && !PassesBoth(rows, 2014, 5, AboveMin)
    requires PassesBoth(rows, 2015, 1, AboveMin) && PassesBoth(rows, 2015, 2, AboveMin)
    requires PassesBoth(rows, 2015, 4, AboveMin) && !PassesBoth(rows, 2015, 5, AboveMin)
    ensures GroupsAsOf(rows, TestFilters(), 2014, Tracked(), AboveMin) == {1}
    ensures GroupsAsOf(rows, TestFilters(), 2015, Tracked(), AboveMin) == {1, 2, 4}
  {
    GroupsAsOfTracked(rows, 2014, AboveMin, {1});
    GroupsAsOfTracked(rows, 2015, AboveMin, {1, 2, 4});
  }

  /** Close to the best: groups 1 and 2 in 2014, only group 2 in 2015. */
  lemma CloseToBestExample(rows: seq<Row>)
    requires rows == ThresholdTable()
    ensures GroupsAsOf(rows, TestFilters(), 2014, Tracked(), CloseToBest) == {1, 2}
    ensures GroupsAsOf(rows, TestFilters(), 2015, Tracked(), CloseToBest) == {2}
  {
    TableFacts(rows);
    CloseToBestQueries(rows);
  }

  /** At or above the minimum: group 1 in 2014; groups 1, 2 and 4 in 2015. */
  lemma AboveMinExample(rows: seq<Row>)
    requires rows == ThresholdTable()
    ensures GroupsAsOf(rows, TestFilters(), 2014, Tracked(), AboveMin) == {1}
    ensures GroupsAsOf(rows, TestFilters(), 2015, Tracked(), AboveMin) == {1, 2, 4}
  {
    TableFacts(rows);
    AboveMinQueries(rows);
  }

  /** Group 1 is close to the best in 2014 and at the minimum in both years. */
  lemma GroupOnePassesRules(rows: seq<Row>)
    requires PassesBoth(rows, 2014, 1, CloseToBest)
    requires PassesBoth(rows, 2014, 1, AboveMin) && PassesBoth(rows, 2015, 1, AboveMin)
    ensures 1 in PassingRules(rows, TestFilters(), [2014, 2015], Tracked())
  {
    var times, fs, ids := [2014, 2015], TestFilters(), Tracked();
    assert 1 in GroupsAsOf(rows, fs, times[0], ids, CloseToBest);
    assert 1 in CloseAny(rows, fs, times, ids);
    assert 1 in GroupsAsOf(rows, fs, times[0], ids, AboveMin);
    assert 1 in GroupsAsOf(rows, fs, times[1], ids, AboveMin);
    assert 1 in AboveMinAll(rows, fs, times, ids);
  }

  /** A group short of the minimum in 2014 fails the rules. */
  lemma BelowMinFailsRules(rows: seq<Row>, g: int)
    requires !PassesBoth(rows, 2014, g, AboveMin)
    ensures g !in PassingRules(rows, TestFilters(), [2014, 2015], Tracked())
  {
    var times, fs, ids := [2014, 2015], TestFilters(), Tracked();
    assert g !in GroupsAsOf(rows, fs, times[0], ids, AboveMin);
    assert g !in AboveMinAll(rows, fs, times, ids);
  }

  /** Minimums ANDed over 2014 and 2015 and closeness ORed leave group 1. */
  lemma PassingRulesOfOutcomes(rows: seq<Row>)
    requires TestOutcomes(rows)
    ensures PassingRules(rows, TestFilters(), [2014, 2015], Tracked()) == {1}
  {
    var s := PassingRules(rows, TestFilters(), [2014, 2015], Tracked());
    GroupOnePassesRules(rows);
    BelowMinFailsRules(rows, 2);
    BelowMinFailsRules(rows, 4);
    BelowMinFailsRules(rows, 5);
    OnlyGroupOne(s);
  }

  /** A subset of the tracked groups holding 1 but not 2, 4 or 5 is {1}. */
  lemma OnlyGroupOne(s: set<int>)
    requires s <= Tracked() && 1 in s && 2 !in s && 4 !in s && 5 !in s
    ensures s == {1}
  {
    forall g | g in s ensures g == 1 {
      assert g in Tracked();
    }
  }

  /** Minimums ANDed over 2014 and 2015 and closeness ORed leave group 1. */
  lemma PassingRulesExample(rows: seq<Row>)
    requires rows == ThresholdTable()
    ensures PassingRules(rows, TestFilters(), [2014, 2015], Tracked()) == {1}
  {
    TableFacts(rows);
    PassingRulesOfOutcomes(rows);
  }

  /** Building the thresholder on the test table and applying the test's
      filters keeps only group 1. */
  method UpdateFiltersExample() returns (ids: set<int>)
    ensures ids == {1}
  {
    var table := new DistanceFromBest.DistanceFromBestTable();
    table.rows := ThresholdTable();
    var thresholder := new ModelGroupThresholder(table, [2014, 2015], [1, 2, 4, 5]);
    assert thresholder.modelGroupIds == Tracked();
    thresholder.UpdateFilters(TestFilters());
    PassingRulesExample(table.rows);
    ids := thresholder.modelGroupIds;
  }
}
