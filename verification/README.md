# Retention and significance engine

A Dafny model of the analysis script `src/analyze.py`. The script reads an
event log of `user_id, timestamp, event, variant` rows. From it, it derives:

- each user's signup cohort;
- overall day-N retention;
- a per-variant D1 retention table for an A/B test;
- the lift of B over A and a chi-square p-value;
- D0–D7 retention curves, overall and per variant;
- a three-way decision string.

The script works on module-level globals (`df`, `signup`, `variants`). Here
they are explicit values derived from one parameter, `log: seq<Event>`.

Modules, in dependency order:

- `Events` (`events.dfy`): the event record, the `Signup | Active` kind and
  `Option` for missing values.
- `StringOrder` (`string_order.dfy`):
  - Python's `str` ordering as `StrLe`, proved total, antisymmetric and
    transitive;
  - `sorted(set(...))` as `SortedUnique`, built by insertion and proved
    strictly ascending and exactly the distinct inputs.
- `Cohort` (`cohort.dfy`):
  - the signup frame, and the signup users and labels;
  - each variant's cohort;
  - the left merge `df.merge(signup, on="user_id", how="left")`, modelled
    row for row as a many-to-many join;
  - the whole-day offset `days_since_signup`.
- `Retention` (`retention.dfy`):
  - distinct users active on exactly day N (`ActiveOn`);
  - `day_retention`, and a variant's rate on day N;
  - a reference definition of "retained" read straight off the log, with
    the lemma that the merged-frame count agrees with it.
- `AbTest` (`ab_test.dfy`):
  - the variant loop that builds the table `ab`, as a method proved equal to
    the table function;
  - the table's shape (one ascending row per signup label, with bounds);
  - lookup by label, the contingency table, and the lift/p-value step.
- `Curves` (`curves.dfy`):
  - the overall and per-cohort curves;
  - the nested loops filling `variant_curves`;
  - the loop adding one `retention_<v>` column per variant to `curve_df`,
    including pandas' replace-or-append column assignment.
- `Summary` (`summary.dfy`): the decision rule, and `Run`, which chains the
  sections from the merge to the decision.
- `Scenarios` (`scenarios.dfy`): two worked inputs. One has three users over
  A and B; the other has no signups.

Modelling choices:

- Timestamps are whole seconds. `(t - s).dt.days` is `(t - s) / 86400`.
  Dafny's `/` on `int` with a positive divisor rounds toward negative
  infinity, as a time delta's `.days` does.
- Rates and percentages are exact `real` quotients of integer counts.
- The chi-square test is the function parameter `chiSquareP`. The model
  states which table it is applied to, and nothing about its value.
- Several signup rows for one user need no precondition: the merge yields
  one row per matching signup row. Every bound holds in that case too,
  because all counts are of distinct user ids.

## Model

| member | source | states |
|---|---|---|
| StringOrder.StrLeTotal | src/analyze.py:43 | any two labels are comparable under Python's string order |
| StringOrder.StrLeAntisymmetric | src/analyze.py:43 | two labels each `<=` the other are equal |
| StringOrder.StrLeTransitive | src/analyze.py:43 | string `<=` is transitive |
| StringOrder.Insert | src/analyze.py:43 | inserting into the sorted distinct list adds exactly the new label |
| StringOrder.InsertAscending | src/analyze.py:43 | insertion keeps the list strictly ascending |
| StringOrder.SortedUnique | src/analyze.py:43 | `sorted(set(xs))` holds exactly the values of `xs` |
| StringOrder.SortedUniqueAscending | src/analyze.py:43 | `sorted(set(xs))` is strictly ascending, so it has no duplicates |
| Cohort.SignupRows | src/analyze.py:14 | the signup frame in log order; `SignupRowsMember` proves it holds exactly the log's `signup` rows |
| Cohort.SignupUsers | src/analyze.py:23 | the distinct signup user ids that `nunique()` counts; `RetainedAreSignups` and `CohortUsersFacts` bound retained users and cohorts by it |
| Cohort.CohortUsers | src/analyze.py:47-48 | the distinct users whose signup row carries the label; `CohortUsersFacts` proves it is within the signup users and empty exactly for an absent label |
| Cohort.SignupRowsMember | src/analyze.py:14 | the signup frame holds exactly the log's `signup` rows |
| Cohort.CohortUsersFacts | src/analyze.py:47-48 | a cohort is a subset of the signup users, and is empty exactly when no signup row carries the label |
| Cohort.DaysBetween | src/analyze.py:19 | the offset is the floor of the elapsed time in days: `86400*d <= t-s < 86400*(d+1)` |
| Cohort.Enriched.DaysSinceSignup | src/analyze.py:19 | the offset is present exactly when the merged signup time is present |
| Cohort.Matches | src/analyze.py:18 | the merge's rows for one event, one per same-user signup row; `MatchesMember` characterizes them |
| Cohort.JoinRow | src/analyze.py:18 | a left merge's rows for one event, with a missing-time row when nothing matches; `JoinRowUnanchored` states when that row appears |
| Cohort.Join | src/analyze.py:18 | the merged frame in left order; `JoinMember` proves every row comes from some left event's rows |
| Cohort.Enrich | src/analyze.py:18 | the merged frame `df`; `EnrichAnchored`, `EnrichUnanchored` and `EveryEventKept` characterize its rows with and without a signup time, and show no event is dropped |
| Cohort.MatchesMember | src/analyze.py:18 | the merge's rows for one event are exactly its pairings with same-user signup rows |
| Cohort.JoinMember | src/analyze.py:18 | a merged row comes from some event of the left frame |
| Cohort.EnrichAnchored | src/analyze.py:18-19 | a merged row with a signup time exists exactly for an event and a signup row of the same user |
| Cohort.NoMatchIffNoSignup | src/analyze.py:18 | an event matches no signup row exactly when its user has none |
| Cohort.JoinRowUnanchored | src/analyze.py:18 | the left merge emits a missing-time row for an event only when nothing matches |
| Cohort.EnrichUnanchored | src/analyze.py:18-19 | a merged row without a signup time exists exactly for an event whose user never signed up |
| Cohort.EveryEventKept | src/analyze.py:18 | the left merge drops no event |
| Retention.Rate | src/analyze.py:28 | `retained / total`, 0.0 without division when `total` is 0, and in [0,1] when `retained <= total` |
| Retention.ActiveOn | src/analyze.py:24-27 | the distinct users with an `active` row at offset exactly N; `ActiveOnCharacterized` proves it equals the reference reading off the log |
| Retention.VariantRetained | src/analyze.py:50-54 | the retained users restricted to a cohort (`isin`); `ExactDayOnly` excludes users without an exact-offset event, and `VariantRowFacts` bounds the count by the cohort size |
| Retention.ActiveOnCharacterized | src/analyze.py:24-27 | a user counts on day N exactly when one of their `active` events lies N whole days after one of their signups |
| Retention.RetainedAreSignups | src/analyze.py:18-28 | every user counted as retained has a signup row |
| Retention.DayRetention | src/analyze.py:21-28 | `day_retention` lies in [0,1], and is exactly 0.0 when there are no signups |
| Retention.VariantRate | src/analyze.py:103-108 | a cohort's day-N rate lies in [0,1], and is 0.0 for a label no signup carries |
| Retention.ExactDayOnly | src/analyze.py:24-27 | a user with no active event exactly N days after a signup is not counted on day N, overall or in any cohort |
| Retention.SameDayActivityCountsOnce | src/analyze.py:24-27 | one more active event by an already-counted user changes no retained set and no rate |
| AbTest.Variants | src/analyze.py:43 | `sorted(signup["variant"].unique())`; `VariantsSortedAndComplete` proves it is strictly ascending and holds exactly the signup labels |
| AbTest.VariantsSortedAndComplete | src/analyze.py:43 | `variants` is strictly ascending and holds exactly the signup labels |
| AbTest.Percent | src/analyze.py:56 | `retained / total * 100`, 0.0 for an empty cohort, and in [0,100] when `retained <= total` |
| AbTest.VariantRow | src/analyze.py:47-57 | one row `variant, total_users, retained_d1, pct` for a label; `VariantRowFacts` proves its bounds and its tie to the cohort's D1 rate |
| AbTest.VariantRowFacts | src/analyze.py:47-57 | a row has `retained_d1 <= total_users`, `total_users` 0 exactly for an absent label, and `pct` equal to 100 times the cohort's D1 rate, in [0,100] |
| AbTest.RowsForElements | src/analyze.py:44-57 | after visiting labels `vs`, row `i` of `rows` is the row of `vs[i]` |
| AbTest.AbTable | src/analyze.py:59 | `ab` has one row per entry of `variants`, row `i` being that label's row |
| AbTest.AbTableShape | src/analyze.py:43-59 | labels strictly ascending; one row per distinct signup label; bounds on every row; `pct` 0.0 when `total_users` is 0 |
| AbTest.ComputeAbTable | src/analyze.py:43-59 | the append loop produces exactly `AbTable(log)` |
| AbTest.Lookup | src/analyze.py:68-69 | a lookup finds a row exactly when some row carries the label, and returns a row with that label; `LookupFirst` shows it is the first one |
| AbTest.LookupFirst | src/analyze.py:68-69 | the row found is the first row carrying the label, as `iloc[0]` takes |
| AbTest.LookupInTable | src/analyze.py:67-69 | a label is found in `ab` exactly when a signup carries it, and the row found is that label's row |
| AbTest.ContingencyOf | src/analyze.py:74-77 | each contingency row is `[retained, total - retained]`, sums to the variant's total, and has non-negative cells when `retained <= total` |
| AbTest.CompareVariants | src/analyze.py:64-78 | lift and p are set exactly when both "A" and "B" rows exist; then lift is B's pct minus A's, and p is the test applied to their contingency table |
| Curves.OverallCurve | src/analyze.py:90-93 | 8 entries, entry 0 exactly 1.0, entry d the day-d retention, all in [0,1] |
| Curves.CohortCurve | src/analyze.py:97-110 | 8 entries, entry 0 exactly 1.0, entry d the cohort's day-d rate, all in [0,1] |
| Curves.CurveAgreesWithTable | src/analyze.py:56 | 100 times a cohort curve's day-1 entry equals that variant's table percentage |
| Curves.CohortCurveLoop | src/analyze.py:98-108 | the inner loop builds exactly the cohort curve |
| Curves.CohortCurveStep | src/analyze.py:102-108 | one pass of the inner loop extends the curve by that day's rate |
| Curves.VariantCurves | src/analyze.py:96-110 | `variant_curves` has exactly the given labels as keys, each mapped to its cohort's curve |
| Curves.RetentionColumnInjective | src/analyze.py:115 | distinct labels give distinct `retention_<v>` column names |
| Curves.SetColumn | src/analyze.py:115 | assigning a column leaves it in the frame and adds no other column |
| Curves.SetColumnKeeps | src/analyze.py:115 | assigning a column keeps every column of a different name |
| Curves.SetColumnAppends | src/analyze.py:115 | assigning a column of a new name appends it at the end |
| Curves.SetColumnDistinct | src/analyze.py:115 | assigning a column keeps column names distinct |
| Curves.SetColumnCovers | src/analyze.py:114-115 | after assigning label `v`'s column, the frame holds exactly the columns of the labels seen so far, with distinct names |
| Curves.CurveColumnsElements | src/analyze.py:114-115 | column `k` of the in-order layout is label `vs[k]`'s curve |
| Curves.ColumnsAfterStep | src/analyze.py:114-115 | one pass of the column loop preserves its invariant |
| Curves.CurveTable | src/analyze.py:113-115 | `curve_df` has the `day` and overall columns, distinct names, and exactly one column per label; with distinct labels, the columns are in label order |
| Summary.Decide | src/analyze.py:143-147 | "significant" exactly when p exists and p < 0.05; otherwise "lift" exactly when lift exists; otherwise the default |
| Summary.AbSection | src/analyze.py:43-78 | the table is `AbTable(log)`; lift and p exist exactly when "A" and "B" both have signups; then lift is `pct(B) - pct(A)` and the contingency cells are non-negative |
| Summary.CurveSection | src/analyze.py:90-115 | `curve_df` is days 0..7, the overall curve, and one `retention_<v>` column per sorted label holding its cohort curve |
| Summary.Run | src/analyze.py:14-147 | the whole report: user count, D1/D7 in [0,1], the table, lift and p with their presence condition, the curve frame, and the decision: "significant" exactly when p exists and p < 0.05, otherwise "lift" exactly when lift exists, and the default whenever A or B has no signups |
| Scenarios.ThreeUsersTable | src/analyze.py:43-70 | three users (A: 2 users, 1 back on day 1; B: 1 user, back on day 1) give rows `A,2,1,50` and `B,1,1,100`, and a lift of 50 |
| Scenarios.NoSignupsScenario | src/analyze.py:23-28 | a log without signups has day retention 0.0 and an empty table |

## Left out

- Reading `data/events.csv`, creating the output directory, and writing
  `ab_d1_retention.csv`, `retention_curve.csv` and `summary.txt`
  (src/analyze.py:6-11, 83-85, 117-118, 165-169) are file I/O.
  `pd.to_datetime` parsing is replaced by integer timestamps in seconds.
- `scipy.stats.chi2_contingency` (src/analyze.py:78) is a foreign
  floating-point statistics call. It is the parameter `chiSquareP`. Its
  error on a table with a zero expected frequency, and its NaN results, are
  not modelled.
- Percent: does not round to two decimals (`round(..., 2)`, src/analyze.py:56),
  because percentages are exact reals.
- CompareVariants: states the lift as the exact difference of the two
  percentages, without the `round(..., 2)` of src/analyze.py:70.
- Summary.Run: the report holds exact values where the script prints or
  writes rounded ones (src/analyze.py:37-38, 153-156).
- Matplotlib plotting (src/analyze.py:121-138) and all console output are
  rendering.
- The summary text template (src/analyze.py:149-163) only formats values
  the report already holds.
- `src/generate_data.py` generates random synthetic data. It is not part of
  this model.
- Pandas' row order inside the merged frame is not observable in any
  result. Every count is of distinct user ids, so the model keeps the left
  frame's order and does not claim more about it.
- Missing values in the `user_id` or `variant` columns of the input are not
  modelled: every event carries an integer id and a string label.
