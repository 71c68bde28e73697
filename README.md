# audition, modelled in Dafny

audition helps someone choose a model group from a set of trained models.
It builds a *distance-from-best* table. Each row holds one model's value for
one metric at one train end time (`raw_value`), how far that value lies below
the best model at the same time (`below_best`), and the same gap for the
group's next later time (`below_best_next_time`). On top of that table:

- a *thresholder* prunes model groups with per-metric filters;
- *selection rules* pick one model group from the rows seen so far;
- a *regret calculator* replays a rule over a list of train end times. For
  each time it records how far the picked group falls behind the best at the
  next time.

The model keeps the shape of the code:

- a table is a `seq<Row>`;
- every SQL statement and every pandas expression is a function over that
  sequence;
- the two stateful pieces are classes. `DistanceFromBestTable` has a `rows`
  field that `Populate` appends to in a loop. `ModelGroupThresholder` has
  `modelGroupIds` and `metricFilters`, which `UpdateFilters` reassigns.
  Its `ModelGroupsPassingRules` keeps the original's union and intersection
  loop;
- `RegretsForRule` keeps its loop over train end times too.

Each loop is proved against a function of its inputs. The properties are
proved about those functions.

Modules, one per source file plus three shared ones:

| module | file | models |
|---|---|---|
| `Results` | results.dfy | `Option`, `Result` and the raised exceptions (`ValueError`, `IndexError`, `AssertionError`) |
| `Collections` | collections.dfy | filter, map, sums and means, the argmax candidates and the tie-breaking pick that stands for `sample(frac=1)` |
| `Tables` | tables.dfy | evaluation rows, distance rows, and the rows a selection rule sees (with no next-time column) |
| `DistanceFromBest` | distance_from_best.dfy | `_populate`'s window query, the table class, `as_dataframe`, `dataframe_as_of`, the histogram |
| `Thresholding` | thresholding.dfy | the per-time queries, the passing rules, `ModelGroupThresholder` |
| `SelectionRules` | selection_rules.dfy | the four modelled rules and the rule registry |
| `Regrets` | regrets.dfy | the rule's restricted view, the local `highest_metric_value`, the regret list, `RegretCalculator` |
| `MetricDirectionality` | metric_directionality.dfy | `greater_is_better`, `sql_rank_order` |
| `Utils` | utils.dfy | `str_in_sql` and the second `greater_is_better` |
| `Fixtures` | fixtures.dfy | the numeric scenarios of the repository's tests, restated on the model |
| `ThresholdingFixtures` | thresholding_fixtures.dfy | the thresholder scenario of the repository's tests, restated on the model |

How the model stands in for things the code leaves to chance or to the outside:

- **Random tie-breaking.** pandas' `sample(frac=1)` in the selection rules
  is modelled as a `tieBreak: nat` argument. A rule with a tie break picks
  one of the tied candidates. For every rule a lemma proves that each tied
  candidate is picked for some tie break, so "returns some member of the
  argmax set" is stated in both directions. The SQL `RANDOM()` in
  `_populate` only orders tied values inside the `rank` window. No output
  column depends on that order, so DistanceFromBest.Batch takes no tie break.
- **The metric registry.** catwalk's `ModelEvaluator.available_metrics` is a
  `map<string, bool>` parameter.
- **A rule's extra arguments.** In `RegretsForRule` the user's rule is a
  function parameter of type `seq<ViewRow> -> Result<int>`, with its keyword
  arguments already applied.
- **Row types.** A selection rule receives `ViewRow`s, which have no
  `below_best_next_time` field, so no rule can look ahead.

Facts about the code that the model keeps:

- **Ranking direction.** `_populate` always ranks `ORDER BY ev.value DESC`,
  so "best" is always the maximum, whatever the metric's direction.
- **Next-time distance.** `below_best_next_time` is the group's own
  `below_best` at its next later time, not a gap to the best of that time.
- **Ties in `highest_metric_value`.** The rule shuffles the current rows
  before taking the first row with the maximal value.
- **Unknown metrics.** `greater_is_better` returns `True` for a metric not in
  the registry and raises no error.

`str_in_sql` does not escape quotes. `Utils.QuoteIsNotEscaped` shows that
`["a','b"]` and `["a", "b"]` render to the same string. The round-trip lemma
therefore requires quote-free values.

## Model

| member | source | states |
|---|---|---|
| DistanceFromBest.BestValueAt | audition/distance_from_best.py:35-37 | the best value at a time is absent exactly when no selected evaluation has that time; otherwise it is attained by one of them and no evaluation at that time exceeds it (rank 1 under `ORDER BY value DESC`) |
| DistanceFromBest.NextInGroup | audition/distance_from_best.py:69-73 | the window's next row is a later row of the same group, none of the group's later rows comes before it in the window order, and it is absent exactly when the group has no later row |
| DistanceFromBest.Batch | audition/distance_from_best.py:27-74 | one metric's insert has one row per selected evaluation |
| DistanceFromBest.BatchRowsAreSelectedEvaluations | audition/distance_from_best.py:39-44 | every inserted row carries a selected evaluation's group, model, time, metric, parameter and value, and every selected evaluation has such a row: exactly the evaluations of the requested metric, parameter, listed groups and listed times |
| DistanceFromBest.BatchColumns | audition/distance_from_best.py:57-64 | row k of a batch carries the k-th ranked evaluation's group, model, time and value and the requested metric and parameter, and its below_best is the best value at that time minus its own |
| DistanceFromBest.BatchNextColumn | audition/distance_from_best.py:67-73 | a batch row's below_best_next_time is the below_best of the batch row right after it in its group's window, and NULL when there is none |
| DistanceFromBest.BatchBelowBest | audition/distance_from_best.py:50-64 | every below_best is non-negative, no row at the same time exceeds this row's raw value plus its below_best, and some row at that time attains it with below_best 0 |
| DistanceFromBest.RowBelowBest | audition/distance_from_best.py:50-64 | the same gap-to-best fact for a single row of a batch |
| DistanceFromBest.NextInGroupIsNextTime | audition/distance_from_best.py:69-73 | with one evaluation per group and time, the window's next row is the group's row at its next later time, and there is none exactly at the group's latest time |
| DistanceFromBest.BatchNextTime | audition/distance_from_best.py:69-73 | with one row per group and time, below_best_next_time is NULL exactly for a group's latest time; otherwise it equals the below_best of the group's row at its next later time |
| DistanceFromBest.BatchesAppend | audition/distance_from_best.py:26-28 | the rows inserted for a concatenated metric list are the rows for each part, in list order |
| DistanceFromBest.BatchesMembership | audition/distance_from_best.py:26-28 | a row is inserted for the metric list exactly when it is in the batch of one of its metrics |
| DistanceFromBest.DistanceFromBestTable.constructor | audition/distance_from_best.py:8-11 | a new table holds no rows |
| DistanceFromBest.DistanceFromBestTable.Create | audition/distance_from_best.py:13-23 | `_create` leaves an empty table |
| DistanceFromBest.DistanceFromBestTable.Populate | audition/distance_from_best.py:25-82 | the table becomes its old rows followed by one batch per metric, in list order; earlier rows are unchanged |
| DistanceFromBest.DistanceFromBestTable.CreateAndPopulate | audition/distance_from_best.py:84-91 | the table holds exactly the batches of the metric list |
| DistanceFromBest.DistanceFromBestTable.AsDataframe | audition/distance_from_best.py:93-100 | the frame holds exactly the table's rows of the listed groups, each as often as in the table |
| DistanceFromBest.DistanceFromBestTable.DataframeAsOf | audition/distance_from_best.py:102-104 | the frame holds exactly the table's rows of the listed groups at that train end time, each as often as in the table |
| DistanceFromBest.SumWithin | audition/distance_from_best.py:153 | the sum of the 0/1 indicators `below_best <= pct_diff` is the number of distances within pct_diff |
| DistanceFromBest.PctOfTimeIsFraction | audition/distance_from_best.py:153 | pct_of_time is the count of distances within pct_diff over the row count, and lies between 0 and 1 |
| DistanceFromBest.CountWithinMonotone | audition/distance_from_best.py:153 | a larger pct_diff counts at least as many distances |
| DistanceFromBest.CountWithinAll | audition/distance_from_best.py:153 | when every distance is within x, all of them are counted |
| DistanceFromBest.PctOfTimeMonotone | audition/distance_from_best.py:153 | pct_of_time does not decrease as pct_diff grows |
| DistanceFromBest.PctOfTimeFull | audition/distance_from_best.py:153 | pct_of_time is 1 once pct_diff is at least every distance of the group |
| DistanceFromBest.HistogramOverRows | audition/distance_from_best.py:139-162 | every histogram row belongs to a requested group that has rows in scope, has pct_diff k/100 with 0 <= k <= 100, num_models equal to the group's row count, and pct_of_time equal to the fraction within pct_diff |
| DistanceFromBest.HistogramOverComplete | audition/distance_from_best.py:139-162 | every requested group with rows in scope has a row for each k/100 |
| DistanceFromBest.HistogramData | audition/distance_from_best.py:112-165 | the properties of HistogramOverRows for `generate_histogram_data`, over the listed groups and times and the requested metric and parameter |
| DistanceFromBest.HistogramDataComplete | audition/distance_from_best.py:139-162 | `generate_histogram_data` has a row for every listed group with rows in scope and every pct_diff of the series |
| Thresholding.GroupsPassingFilter | audition/thresholding.py:20-28 | one filter's select returns exactly the tracked groups with a passing row at that time |
| Thresholding.GroupsAsOf | audition/thresholding.py:20-37 | the intersected query returns a subset of the tracked ids: exactly those groups with a passing row for every filter |
| Thresholding.CloseAny | audition/thresholding.py:61-69 | the accumulated close-to-best set is the union over the given times of the close-to-best groups |
| Thresholding.AboveMinAll | audition/thresholding.py:60-77 | the accumulated above-min set is the tracked ids intersected with the above-min groups of every given time |
| Thresholding.PassingRules | audition/thresholding.py:59-84 | a group passes exactly when it is tracked, close to the best for every filter at some time, and at or above the minimum for every filter at every time; with no times nothing passes |
| Thresholding.PassingRulesRestrict | audition/thresholding.py:59-84 | a group's fate depends only on its own rows: passing from a subset of the ids is passing from the full ids, restricted to that subset |
| Thresholding.PassingRulesIdempotent | audition/thresholding.py:86-89 | applying the same filters to the surviving groups keeps all of them |
| Thresholding.ModelGroupThresholder.constructor | audition/thresholding.py:6-17 | the tracked ids are the initial ids and the filter list is empty |
| Thresholding.ModelGroupThresholder.ModelGroupsCloseToBestAsOf | audition/thresholding.py:19-37 | exactly the tracked groups that, for every current filter, have a row at that time with below_best strictly under max_below_best |
| Thresholding.ModelGroupThresholder.ModelGroupsAboveMinAsOf | audition/thresholding.py:39-57 | exactly the tracked groups that, for every current filter, have a row at that time with raw_value at least min_value |
| Thresholding.ModelGroupThresholder.ModelGroupsPassingRules | audition/thresholding.py:59-84 | the loop's union and intersection produce PassingRules of the current table, filters, times and tracked ids, a subset of the tracked ids |
| Thresholding.ModelGroupThresholder.UpdateFilters | audition/thresholding.py:86-89 | the new filters are stored; equal filters leave the tracked ids as they were, and different ones replace them by the groups passing the new rules, a subset of the old ids |
| SelectionRules.Groups | audition/selection_rules.py:53 | the groupby index holds exactly the groups that occur in the rows |
| SelectionRules.GroupPick | audition/selection_rules.py:52-53 | `idxmax` over a per-group score fails exactly on an empty frame, with pandas' ValueError; otherwise it returns a group of the frame whose score no other group exceeds |
| SelectionRules.GroupPickReachesEveryBest | audition/selection_rules.py:52-53 | every group with a maximal score is returned for some shuffle |
| SelectionRules.PickOverMetricRows | audition/selection_rules.py:48-53 | the pick over the metric's rows fails exactly when there is no row of that metric and parameter; otherwise it returns a group with such a row and a maximal score |
| SelectionRules.HighestMetricValue | audition/selection_rules.py:20-26 | IndexError exactly when no row has that time, metric and parameter; otherwise a group of one such row whose raw_value is the maximum among them |
| SelectionRules.HighestMetricValueReachesEveryBest | audition/selection_rules.py:25-26 | every current row with the maximal raw_value has its group returned for some shuffle |
| SelectionRules.HighestAverageValue | audition/selection_rules.py:48-53 | ValueError exactly when no row has that metric and parameter; otherwise a group with such rows whose mean raw_value, over all times, is maximal |
| SelectionRules.HighestAverageValueReachesEveryBest | audition/selection_rules.py:52-53 | every group with a maximal mean is returned for some shuffle |
| SelectionRules.MostFrequentBestDist | audition/selection_rules.py:104-110 | ValueError exactly when no row has that metric and parameter; otherwise a group with a maximal fraction of rows with below_best at most dist_from_best |
| SelectionRules.WithinDistFractionIsCount | audition/selection_rules.py:108-110 | a group's within-distance score is its count of rows with below_best <= dist_from_best over its row count, between 0 and 1 |
| SelectionRules.MostFrequentBestDistReachesEveryBest | audition/selection_rules.py:109-110 | every group with a maximal within-distance fraction is returned for some shuffle |
| SelectionRules.PickOverTwoMetricRows | audition/selection_rules.py:140-157 | the pick over the two metrics' rows fails exactly when neither metric has a row; otherwise it returns a group with such a row and a maximal score |
| SelectionRules.PickOverTwoMetricRowsReachesEveryBest | audition/selection_rules.py:156-157 | every group with a maximal score over the two metrics' rows is returned for some shuffle |
| SelectionRules.HighestAverageTwoMetrics | audition/selection_rules.py:137-157 | a weight outside [0, 1] raises ValueError; otherwise ValueError exactly when neither metric has a row, else a group maximizing the mean over its times of the per-time sum of w times metric1 plus (1 - w) times metric2 |
| SelectionRules.TwoMetricsPick | audition/selection_rules.py:140-157 | with an allowed weight, the rule is the argmax pick of the weighted two-metric score over the two metrics' rows |
| SelectionRules.HighestAverageTwoMetricsReachesEveryBest | audition/selection_rules.py:156-157 | with an allowed weight, every group with a maximal weighted mean is returned for some shuffle |
| SelectionRules.ApplyRule | audition/selection_rules.py:198-205 | whichever registered rule is applied, a picked group has a row in the frame, and an empty frame is an error; the two-metric rule without a weight uses 0.5 |
| SelectionRules.DefaultWeightAccepted | audition/selection_rules.py:113-138 | called with the default metric1 weight 0.5, the two-metric rule never raises the weight error |
| Regrets.Localize | audition/regrets.py:78-81 | the rule's frame is the table's rows with train_end_time at most T, in table order and each as often as in the table, without their next-time column |
| Regrets.LocalizeIgnoresFuture | audition/regrets.py:78-81 | two tables whose rows up to T agree in order and in every column but the next-time one give the rule the same frame, however many later rows each has and wherever they sit |
| Regrets.LocalizeOnlyPast | audition/regrets.py:78-81 | the frame of a table is the frame of its rows up to T alone |
| Regrets.LocalizeDropsLater | audition/regrets.py:78-81 | inserting rows later than T anywhere in a table leaves the rule's frame unchanged |
| Regrets.FirstHighestMetricValue | audition/regrets.py:4-22 | IndexError exactly on an empty frame; otherwise the group of the first row whose raw_value is the maximum |
| Regrets.FirstAttaining | audition/regrets.py:22 | the first position, from `from` on, holding the given value |
| Regrets.RegretAt | audition/regrets.py:83-91 | a failing rule's error is passed on; otherwise AssertionError exactly when the chosen group does not have exactly one row at T for the metric and parameter, and else that row's below_best_next_time |
| Regrets.Collect | audition/regrets.py:74-92 | the list of step results is Ok exactly when every step is; then it holds the steps' values in order, and else the first failing step's error |
| Regrets.CollectSnoc | audition/regrets.py:77-91 | one more step keeps an earlier error, adds a new error, or appends the step's value |
| Regrets.RegretSteps | audition/regrets.py:77-91 | one step per train end time, in order, each the regret at that time |
| Regrets.Regrets | audition/regrets.py:74-92 | Ok exactly when every time's regret is; then one regret per time in input order, and else the error of the first failing time |
| Regrets.RegretsStep | audition/regrets.py:77-91 | the regrets for the first n+1 times extend those for the first n by the regret at time n, or carry the first error |
| Regrets.RegretsErrorPersists | audition/regrets.py:83-90 | once a prefix of the times fails, the whole calculation fails with the same error |
| Regrets.CollectErrorPersists | audition/regrets.py:90 | a failure in a prefix of the steps is the failure of the whole list |
| Regrets.RegretCalculator.constructor | audition/regrets.py:31-42 | the calculator keeps the given distance table |
| Regrets.RegretCalculator.RegretsForRule | audition/regrets.py:44-92 | the loop's result is Regrets of the rule over the table's frame for the listed groups, the listed times, the metric and the parameter |
| MetricDirectionality.GreaterIsBetter | audition/metric_directionality.py:5-13 | a registered metric's own flag, and true for any other metric |
| MetricDirectionality.SqlRankOrder | audition/metric_directionality.py:16-20 | 'desc' exactly when greater is better and 'asc' exactly when it is not |
| MetricDirectionality.GreaterIsBetterAgreesWithUtils | audition/metric_directionality.py:5-13 | this lookup and the one in utils agree for every registry and metric |
| Utils.StrInSql | audition/utils.py:5-6 | the text is empty exactly for no values, otherwise starts and ends with a quote, and its length is the total of the value lengths plus 2 quotes per value plus n - 1 commas |
| Utils.StrInSqlAppend | audition/utils.py:6 | rendering two non-empty lists one after the other is rendering each and joining them with a comma |
| Utils.SplitAtQuote | audition/utils.py:6 | a split at the first quote leaves a remainder no longer than the input that is empty or starts with a quote |
| Utils.SplitAtQuoteOf | audition/utils.py:6 | a quote-free value followed by a quote splits at that quote |
| Utils.ParseQuotedOne | audition/utils.py:6 | reading back one quoted quote-free value gives that value |
| Utils.ParseQuotedCons | audition/utils.py:6 | reading back a quoted value, a comma and more text gives the value followed by what the rest reads as |
| Utils.StrInSqlRoundTrip | audition/utils.py:5-6 | for quote-free values, reading the rendered IN-list back gives the values in input order |
| Utils.QuoteIsNotEscaped | audition/utils.py:6 | embedded quotes are not escaped: one value containing `','` renders like two values |
| Utils.GreaterIsBetter | audition/utils.py:9-17 | a registered metric's own flag, and true for any other metric |
| Fixtures.HighestMetricValue2011 | tests/test_selection_rules.py:5-16 | on the test frame, group 1 is picked at 2011 for every tie break |
| Fixtures.HighestMetricValue2012 | tests/test_selection_rules.py:5-17 | on the test frame, group 2 is picked at 2012 for every tie break |
| Fixtures.HighestMetricValueNothingCurrent | audition/selection_rules.py:20-26 | at a time with no rows the rule fails with IndexError |
| Fixtures.HighestAverageValueExample | tests/test_selection_rules.py:20-31 | group 2 has the higher mean and is picked |
| Fixtures.HighestAverageValueNoMetricRows | audition/selection_rules.py:48-53 | with no rows of the metric the rule fails with ValueError |
| Fixtures.MostFrequentBestDistExample | tests/test_selection_rules.py:34-45 | within 0.01 of the best, group 2 is picked (two times out of three against one) |
| Fixtures.HighestAverageTwoMetricsEven | tests/test_selection_rules.py:49-60 | with weight 0.5 group 1 is picked |
| Fixtures.HighestAverageTwoMetricsRecallHeavy | tests/test_selection_rules.py:49-61 | with weight 0.1 group 2 is picked |
| Fixtures.HighestAverageTwoMetricsWeightRefused | audition/selection_rules.py:137-138 | a weight of 2 is refused with the ValueError message |
| Fixtures.RegretAtSpiky | audition/regrets.py:84-91 | the spiky group's regret at each time is its row's next-time distance |
| Fixtures.RegretsExample | tests/test_model_selector.py:304-382 | always picking the spiky group gives the regrets [0.19, 0.3, 0.12] |
| ThresholdingFixtures.TableFacts | tests/test_thresholding.py:41-81 | in the test table, group 1 passes both filters close to the best in 2014 only and at the minimum in both years; group 2 is close in both years and at the minimum in 2015 only; group 4 is at the minimum in 2015 only; group 5 passes nothing |
| ThresholdingFixtures.BlocksOutcomes | tests/test_thresholding.py:41-81 | in any table made of one block of rows per group, each group's outcomes are those of its own block |
| ThresholdingFixtures.CloseToBestExample | tests/test_thresholding.py:95-111 | close to the best are groups 1 and 2 in 2014 and group 2 alone in 2015 |
| ThresholdingFixtures.AboveMinExample | tests/test_thresholding.py:113-129 | at or above the minimum are group 1 in 2014 and groups 1, 2 and 4 in 2015 |
| ThresholdingFixtures.PassingRulesExample | tests/test_thresholding.py:131-138 | the passing rules over 2014 and 2015 leave group 1 alone |
| ThresholdingFixtures.UpdateFiltersExample | tests/test_thresholding.py:140-159 | a thresholder set up on the test table for groups 1, 2, 4 and 5 keeps only group 1 after updating to the test's two filters |

## Left out

- Database plumbing is not modelled: the engine, `execute`, `pd.read_sql`, the SQL text, and the models and model_groups joins (an evaluation row arrives already joined with its model group). `_create` is modelled as resetting the table to empty.
- DistanceFromBest.DistanceFromBestTable.Create and CreateAndPopulate succeed on a table that already exists and empty it. The source's `create table` raises an error there (audition/distance_from_best.py:14), because the database refuses to create an existing table. The model has no record of whether the table exists.
- An IN-list such as `model_group_id in (...)` is modelled as membership in the list. With an empty list the real SQL is a syntax error; in the model the query matches nothing.
- Thresholding.GroupsAsOf, Thresholding.PassingRules and Thresholding.ModelGroupThresholder.UpdateFilters require a non-empty filter list when there are train end times. With no filters the source joins zero selects into an empty query, which the database refuses; the model does not state that error.
- Thresholding.ModelGroupThresholder: the tracked ids are a `set`, as they are after the first `update_filters`. The initial list's order and repeats are not kept, whereas `model_group_ids` returns the initial list as given until then.
- `lowest_metric_variance` and `highest_avg_var_penalized` are not modelled. They need pandas' sample standard deviation (a square root, and NaN for one-row groups).
- Values are `real`. IEEE rounding and NaN are not modelled, so, for example, a NaN raw value is never the maximum.
- Train end times are integers. Only their order and equality are used.
- Random tie-breaking is the `tieBreak` argument. The random process itself is not modelled.
- DistanceFromBest.NextInGroup: two rows of one group at the same train end time are ordered by their position in the selected evaluations, because the SQL window leaves that order unspecified. DistanceFromBest.BatchNextTime states "next later time" only for a table with one row per group and time.
- The `model_type` column of the histogram output is not modelled. Nor are `plot_best_dist`, `plot_all_best_dist` or the plotting module.
- The distance table always treats the maximum as best, because `_populate` orders `DESC`. The lesser-is-better expectations in tests/test_distance_from_best.py:117-182 are for a later version and are not modelled.
- `logging.warning` calls are not modelled.
- Regrets.RegretCalculator.RegretsForRule: the user's rule receives only the frame; the rule's keyword arguments are applied to it beforehand. The deep copy is not modelled: a rule is a function and cannot modify the table.
- Regrets.FirstHighestMetricValue reads a frame's index label as its model group id. In the source, `as_dataframe` gives a default integer index, so the index label there is a row position.
- Utils.StrInSql renders its values as strings. The source formats ids and timestamps with `'{}'.format`, which is not modelled.
- Utils.StrInSqlRoundTrip requires quote-free values, because embedded quotes are not escaped (see Utils.QuoteIsNotEscaped).
- MetricDirectionality.SqlRankOrder is not used by `_populate`, which always ranks `DESC`. The model keeps that.
- The `SELECTION_RULES` registry in audition/regrets.py:25-27 holds only the local `highest_metric_value`, which is modelled as Regrets.FirstHighestMetricValue.
- ThresholdingFixtures: the test table is written as one block of rows per model group. Train end times are years. The thresholder's ids start as the set {1, 2, 4, 5}, not the test's list.
- Fixtures: the test frames are written as blocks of rows, by time or by group. This changes no outcome, because no scenario has a tie. Model group ids are written as integers, not the tests' strings. For selection rules, the tests' `dist_from_abs_worst` column is the raw value and `dist_from_best_case` is below_best.
- The test expectations of later APIs (`BoundSelectionRule`, `SelectionRulePicker`, `ModelSelector`) are not modelled, as this version of the code has no such APIs. The regrets tests of tests/test_regrets.py are not restated, because their table comes from tests/utils.py, which is not part of this model. Fixtures.RegretsExample restates the table of tests/test_model_selector.py:304-382 instead, which has the same expected regrets.
