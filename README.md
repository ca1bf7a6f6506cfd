# TechSafe threat-intelligence dashboard — a Dafny model

TechSafe has two parts: a risk-scoring routine and a Dash dashboard over one
merged table of threat-actor records. This project models the computing core
of both and proves properties of it:

- **Scoring** (`scoring.dfy`). `scale_data` scales a column by min-max. It is a
  column of exact reals, with NaN where pandas divides 0 by 0.
  `calculcate_risk_scores` combines the three scaled signals with the fixed
  weights 0.5 / 0.3 / 0.2. A `ThreatFrame` class is the data frame that the
  routine writes its derived columns into. The worked example with APT28,
  APT37 and APT38 is included.
- **Activity** (`activity.dfy`). The rows are grouped by (month, actor) and
  counted, then pivoted into a table with the ascending months as index and
  the ascending actors as columns, whose cells without rows are NaN.
  The pivot's columns give the timeline dropdown's actors.
- **Techniques** (`techniques.dfy`). The `technique` field is split on commas
  and exploded to one row per token. The (technique, actor) pairs are then
  cross-tabulated into a dense table.
- **Heatmap** (`heatmap.dfy`). The heatmap shows that table as a matrix. A
  nested loop adds one text annotation per cell.
- **Ranking** (`ranking.dfy`). This is the pie chart's top-actor selection.
  Rows are grouped by (year, actor). Each actor's groups are counted, which
  gives its number of distinct active years. `nlargest(5, …)` then keeps the
  top five.
- **Dropdowns** (`dropdowns.dfy`). These are the options of the year and
  threat dropdowns, and the year dropdown's initial value.
- **Dashboard** (`dashboard.dfy`). A `MergedFrame` class holds the loaded
  table and its derived `YearMonth` and `Year` columns. The heatmap and
  pie-chart callbacks are its methods.
- **Events** and **Common** (`events.dfy`, `common.dfy`). Events is the row
  type with its derived period columns. Common holds the generic pieces: a
  tally for `groupby(...).size()`, `unique()`, one sort into distinct ascending
  values under a strict total order (names, years and months), a filter for
  `dropna()`, flat-map for `explode`, and zero-filling for the dense crosstab.

Timestamps arrive already parsed. A timestamp that `pd.to_datetime(...,
errors='coerce')` could not parse is `None`, which is NaT in pandas. A missing
`technique` field is `None`.

What the code does, and the model with it:

- The crosstab counts each token exactly as `str.split(',')` yields it. Tokens
  are not trimmed, an empty token is kept, and a token repeated within one
  record counts once per occurrence.
- The crosstab is dense: a (technique, actor) pair that never occurs holds 0.
- A column without spread scales to NaN, and the risk scores built from it are
  NaN, not 0.
- When every row's `technique` field is missing, the split raises
  AttributeError and the heatmap callback produces no figure.
- The pie chart ranks actors by their number of distinct active years over all
  the data. `selected_year` appears only in the chart's title, although the
  dashboard's own text promises the top actors "for that specific year"
  (dashboard.py:53, 147).
- `pick_threat` is not used by the heatmap callback, although the dropdown
  invites the user to select a threat actor for it (dashboard.py:61).

The scoring routine as written cannot run. It calls an undefined `Scale`. It
also stores all three scaled columns under `scal_cve` and then reads
`scal_cwe` and `scal_ttp`, which it never writes. The model scores as
evidently intended: each signal is scaled from its own column with
`scale_data`. The statements as written are modelled separately; see
"## Findings".

## Model

| member | source | states |
|---|---|---|
| Scoring.ScaleValue | Scoring_Algorithm.py:11 | the formula `(v - min) / (max - min)` for one value; its bounds, endpoints and monotonicity are the three lemmas below |
| Scoring.MinOf | Scoring_Algorithm.py:11 | `column.min()` is an element of the column, and no element is below it |
| Scoring.MaxOf | Scoring_Algorithm.py:11 | `column.max()` is an element of the column, and no element is above it |
| Scoring.ScaleValueBounds | Scoring_Algorithm.py:11 | a value between the minimum and maximum scales into [0, 1] |
| Scoring.ScaleValueEndpoints | Scoring_Algorithm.py:11 | a value scales to 0 exactly when it is the minimum, and to 1 exactly when it is the maximum |
| Scoring.ScaleValueMonotone | Scoring_Algorithm.py:11 | scaling preserves and reflects order |
| Scoring.ScaleData | Scoring_Algorithm.py:10-11 | the scaled column has one cell per input row |
| Scoring.ScaleDataAt | Scoring_Algorithm.py:10-11 | with spread, row i is `(col[i] - min) / (max - min)` |
| Scoring.ScaleInUnitInterval | Scoring_Algorithm.py:10-11 | with spread, every scaled cell is a number in [0, 1] |
| Scoring.ScaleEndpoints | Scoring_Algorithm.py:10-11 | a record scales to 0 iff it is the column minimum, and to 1 iff it is the maximum |
| Scoring.ScaleMonotone | Scoring_Algorithm.py:10-11 | the scaled column orders the records as the raw column does, in both directions |
| Scoring.ScaleDegenerate | Scoring_Algorithm.py:10-11 | a non-empty column whose values are all equal scales to NaN in every row (0/0) |
| Scoring.ScaleNaN | Scoring_Algorithm.py:10-11 | a scaled cell is NaN exactly when the column has no spread |
| Scoring.WeightsAreConvex | Scoring_Algorithm.py:16-18 | the weights 0.5, 0.3 and 0.2 are non-negative and sum to 1 |
| Scoring.Weighted | Scoring_Algorithm.py:26-28 | weighting keeps one cell per row (row values are stated by RiskScoreColumnAt) |
| Scoring.AddColumns | Scoring_Algorithm.py:31 | the row-wise sum keeps one cell per row (row values are stated by RiskScoreColumnAt) |
| Scoring.RiskScoreColumn | Scoring_Algorithm.py:26-31 | the `risk_score` column has one cell per record |
| Scoring.RiskScoreColumnAt | Scoring_Algorithm.py:26-31 | row i is `0.5·cve + 0.3·cwe + 0.2·ttp` of row i's scaled cells, or NaN if any of them is NaN |
| Scoring.RiskTable | Scoring_Algorithm.py:32 | the result has one row per record and keeps the records' names in order |
| Scoring.RiskTableRow | Scoring_Algorithm.py:14-32 | row i pairs record i's name with the weighted sum of its own scaled signals when all three columns have spread, and NaN otherwise |
| Scoring.ScaledColumnsAsWritten | Scoring_Algorithm.py:21-23 | the three scaling statements as written, with `Scale` read as `scale_data`: each assigns `scal_cve`; what that leaves is stated by ScaledColumnsAsWrittenMissCweTtp |
| Scoring.ScaledColumnsAsWrittenMissCweTtp | Scoring_Algorithm.py:21-23 | the scaling statements as written leave only `scal_cve`; `scal_cwe` and `scal_ttp` are never set |
| Scoring.RiskScoreInUnitInterval | Scoring_Algorithm.py:14-32 | when every signal has spread, every risk score is a number in [0, 1] |
| Scoring.RiskScoreMonotone | Scoring_Algorithm.py:14-32 | a record at least as severe as another on all three signals gets a score at least as high |
| Scoring.ThreatFrame.constructor | Scoring_Algorithm.py:42 | the frame holds exactly the four input columns and no derived column |
| Scoring.ThreatFrame.CalculateRiskScores | Scoring_Algorithm.py:14-32 | adds the scaled and weighted columns and `risk_score`, changes nothing else in the frame, and returns the (name, score) table |
| Scoring.ExampleCveExtremes | Scoring_Algorithm.py:37 | the example's CVE column runs from 5.0 to 9.8 |
| Scoring.ExampleCweExtremes | Scoring_Algorithm.py:38 | the example's CWE column runs from 1 to 3 |
| Scoring.ExampleTtpExtremes | Scoring_Algorithm.py:39 | the example's TTP column runs from 5 to 12 |
| Scoring.ExampleRanking | Scoring_Algorithm.py:35-44 | APT28 scores 1, APT37 scores 1667/3360 (strictly between 0 and 1), and APT38 scores 0 |
| Scoring.ExampleUsage | Scoring_Algorithm.py:35-44 | building and scoring the example frame yields the ranking APT28 > APT37 > APT38 |
| Events.MonthOf | dashboard.py:23 | `dt.to_period('M')`: the month of the row's timestamp, NaT without one; PeriodColumnsAgree states how it relates to `Year` |
| Events.YearOf | dashboard.py:141 | `dt.year`: the year of the row's timestamp, NaN without one |
| Events.MonthOrder | dashboard.py:27 | periods ordered by year and then month form a strict total order, the order of the pivot's index |
| Events.PeriodColumnsAgree | dashboard.py:22-23 | `YearMonth` and `Year` are missing in the same rows and agree on the year |
| Events.DatedNameColumn | dashboard.py:26 | a name occurs in it iff some row of that actor has a timestamp |
| Events.DatedNames | dashboard.py:26-28 | the actors with a timestamped row, each once, in ascending order |
| Common.Tally | dashboard.py:26 | `groupby(...).size()` over a key column (also at lines 142 and 144); its contents are stated by TallyCounts and TallyTotal |
| Common.TallyCounts | dashboard.py:26 | `groupby(...).size()`: a key has a group iff it occurs, and its size is its number of occurrences (at least 1) |
| Common.TallyTotal | dashboard.py:26 | the group sizes add up to the number of grouped rows |
| Common.ZeroFill | dashboard.py:93 | the table gets a cell for every label pair, keeping the counted cells and filling the others with 0 |
| Common.ZeroFillTotal | dashboard.py:93 | zero-filling does not change the total |
| Common.FlatMapAppend | dashboard.py:92 | exploding a concatenation is the concatenation of the explodes |
| Common.Unique | dashboard.py:64 | `unique()`: the same values, each once, in order of first appearance |
| Common.NameOrder | dashboard.py:28 | Python's order on `str` (code point by code point) is a strict total order |
| Common.Insert | dashboard.py:28 | inserting a value into a strictly ascending list keeps it strictly ascending and adds just that value |
| Common.SortedDistinct | dashboard.py:27-28 | the distinct values, strictly ascending under a given strict total order, exactly the values of the input: group keys, pivot index and columns, crosstab labels and `sorted(unique())` |
| Common.FilterMap | dashboard.py:49 | the present values of a derived column in row order (`dropna()`): a value occurs iff some row yields it |
| Activity.DatedCount | dashboard.py:22 | at most as many timestamped rows as rows |
| Activity.ActivityKeys | dashboard.py:26 | one group key per timestamped row |
| Activity.ActivityKeysOcc | dashboard.py:26 | a (month, actor) key occurs as often as that actor has rows in that month |
| Activity.ActivityKeysAppend | dashboard.py:26 | the keys of concatenated rows are the concatenated keys |
| Activity.ActivityCounts | dashboard.py:26 | a (month, actor) bucket is present iff it has rows, and holds that number (at least 1) |
| Activity.ActivityTotal | dashboard.py:26 | the bucket counts add up to the number of timestamped rows |
| Activity.UnparsedRowIgnored | dashboard.py:22-26 | a row whose timestamp is NaT changes no count |
| Activity.ActivityPivotCell | dashboard.py:27 | the value a pivot cell shows: NaN iff that actor has no rows that month, and otherwise the count |
| Activity.DatedRowCounted | dashboard.py:26 | every timestamped row makes its own bucket non-empty |
| Activity.CountedRowExists | dashboard.py:26 | a non-empty bucket holds a row of that actor in that month |
| Activity.UniqueActors | dashboard.py:27-28 | the pivot's columns, ascending: exactly the actors with some bucket, which are exactly the actors with a timestamped row |
| Activity.ActivityMonths | dashboard.py:27 | the pivot's index, ascending by period: exactly the months in which some row has a timestamp |
| Activity.ActivityMonthsAreBucketMonths | dashboard.py:26-27 | a month is in the pivot's index iff some (month, actor) bucket has rows |
| Activity.PivotGrid | dashboard.py:27 | the pivot's cells are exactly the (index month, column actor) pairs |
| Activity.ActivityPivot | dashboard.py:27 | `activity_pivot`: a cell for every index month and column actor, NaN where the actor has no row that month and the count otherwise |
| Techniques.Split | dashboard.py:91 | `str.split(',')` always yields at least one piece |
| Techniques.SplitPiecesCommaFree | dashboard.py:91 | no piece contains a comma |
| Techniques.JoinSplit | dashboard.py:91 | joining the pieces with commas gives back the field |
| Techniques.SplitJoin | dashboard.py:91 | splitting comma-free pieces joined by commas gives back the pieces |
| Techniques.SplitLength | dashboard.py:91 | a field with k commas splits into k + 1 pieces |
| Techniques.SplitPrefix | dashboard.py:91 | a comma-free prefix merges into the first piece |
| Techniques.Tag | dashboard.py:92 | exploding a row yields one pair per token |
| Techniques.RowPairs | dashboard.py:91-92 | one row's (technique, name) pairs: one per token of its field and none when the field is missing; a pair occurs as often as its token does in the row's field, for the row's actor only |
| Techniques.ExplodedPairs | dashboard.py:90-92 | split plus explode over all rows; its length and contents are stated by ExplodedPairsLength, ExplodedPairsOcc and ExplodedPairsAppend |
| Techniques.TagOcc | dashboard.py:92 | a pair occurs as often as its token does, for the row's actor only |
| Techniques.ExplodedPairsLength | dashboard.py:92 | the explode yields one row per token over all rows with a field |
| Techniques.ExplodedPairsOcc | dashboard.py:92 | a (technique, actor) pair occurs as often as the token occurs in that actor's fields |
| Techniques.ExplodedPairsAppend | dashboard.py:92 | the explode of concatenated rows is the concatenation of the explodes |
| Techniques.LabelGridHoldsPairs | dashboard.py:93 | the label grid is row labels × column labels and contains every observed pair |
| Techniques.CrossTabulate | dashboard.py:93 | `pd.crosstab`: a cell for every (row label, column label), holding how often that pair occurs |
| Techniques.CrossTabulateTotal | dashboard.py:93 | the cells add up to the number of exploded rows |
| Techniques.TechniqueRows | dashboard.py:93 | `heatmap_data.index`: ascending, exactly the techniques that occur |
| Techniques.ActorOrder | dashboard.py:93 | `heatmap_data.columns`: ascending, exactly the actors with a technique field |
| Techniques.TechniqueIndexOccurs | dashboard.py:93 | a token is a row label iff some actor uses it |
| Techniques.ActorColumnsOccur | dashboard.py:93 | an actor is a column label iff it uses some token |
| Techniques.NoTechniqueText | dashboard.py:91 | the case in which the split raises: the frame has rows and none of them has a `technique` value |
| Techniques.Crosstab | dashboard.py:90-93 | `heatmap_data`: the dense technique-by-actor table, each cell the token's number of occurrences in that actor's fields |
| Techniques.CrosstabTotal | dashboard.py:90-93 | the cells add up to the total number of tokens |
| Techniques.MissingTechniqueNoPairs | dashboard.py:91-93 | a row with a missing field contributes no (technique, name) pair that crosstab counts |
| Techniques.MissingTechniqueIgnored | dashboard.py:90-93 | removing a row with a missing field leaves the table unchanged |
| Techniques.RepeatedTokenCountsTwice | dashboard.py:91-93 | a field `t,t` puts 2 in cell (t, actor) |
| Heatmap.Values | dashboard.py:96 | `heatmap_data.values`: one matrix row per technique and one column per actor, each entry the table's cell |
| Heatmap.GridLength | dashboard.py:103-115 | one annotation per cell |
| Heatmap.GridCells | dashboard.py:103-115 | an annotation is produced iff it labels some cell (actor x, technique y) with that cell's count |
| Heatmap.GridEntries | dashboard.py:103-115 | every annotation names a row and a column label and carries the table's count for them |
| Heatmap.Annotate | dashboard.py:103-115 | the nested loop produces the row-by-row annotation list |
| Heatmap.CrosstabCovers | dashboard.py:93-98 | the table has a cell for each of its index × column labels |
| Heatmap.HeatmapMatrix | dashboard.py:93-98 | each matrix entry is how often that technique occurs in that actor's fields |
| Heatmap.HeatmapAnnotations | dashboard.py:103-115 | one annotation per cell, each naming an actor and a technique of the table and showing the token's count for that actor |
| Heatmap.HeatmapCellsAnnotated | dashboard.py:103-115 | every cell of the table has its annotation, with its count |
| Ranking.YearlyGroups | dashboard.py:142 | the (Year, name) groups: a pair is a group iff some row of that actor has a timestamp in that year |
| Ranking.GroupCountIsDistinctYears | dashboard.py:142-144 | an actor's number of (Year, name) groups is the number of distinct years it has rows in |
| Ranking.ActorCounts | dashboard.py:144 | `groupby('name').size().reset_index`: one entry per timestamped actor, ascending by name, its `Counts` the number of distinct years it is active |
| Ranking.RanksBeforeTransitive | dashboard.py:144 | the ranking order is transitive |
| Ranking.RanksBeforeTotal | dashboard.py:144 | any two different actors are ordered |
| Ranking.RankedCons | dashboard.py:144 | putting an entry that ranks first in front of a ranked list keeps it ranked |
| Ranking.HeadRanksFirst | dashboard.py:144 | the head of a ranked list ranks before all the rest |
| Ranking.InsertEntry | dashboard.py:144 | insertion keeps the list ranked and adds exactly the new entry |
| Ranking.Rank | dashboard.py:144 | the entries are sorted into ranking order, as a permutation |
| Ranking.Largest | dashboard.py:144 | `nlargest(k)`: the first min(k, n) entries, still ranked; any entry left out ranks below every kept one |
| Ranking.LargestOmits | dashboard.py:144 | an entry whose actor is not kept ranks below every kept entry |
| Ranking.RankedActors | dashboard.py:141-144 | every timestamped actor exactly once, ranked, each with its number of distinct years |
| Ranking.TopActors | dashboard.py:140-144 | `top_actors`: min(5, actors) entries, with counts non-increasing and ties by ascending name, each counting distinct years; an omitted actor ranks below every kept one, and with at most five actors all are kept |
| Dropdowns.YearOrder | dashboard.py:49 | the numeric order of years is a strict total order |
| Dropdowns.YearOptions | dashboard.py:49 | the year options, strictly ascending: exactly the years of timestamped rows |
| Dropdowns.DefaultYear | dashboard.py:50 | the initial year: absent iff no row has a timestamp; otherwise a year of some row and no later than any row's year |
| Dropdowns.NameColumn | dashboard.py:64 | the `name` column, one entry per row |
| Dropdowns.ThreatOptions | dashboard.py:64 | the threat options: every actor of any row exactly once, in order of first appearance |
| Dashboard.MonthColumn | dashboard.py:23 | `YearMonth` is the month of each row's timestamp, or NaT |
| Dashboard.YearColumnOf | dashboard.py:141 | `Year` is the year of each row's timestamp, or NaN |
| Dashboard.MergedFrame.constructor | dashboard.py:20-23 | the frame holds the rows and their `YearMonth` column, and no `Year` column yet |
| Dashboard.MergedFrame.UpdateHeatmap | dashboard.py:89-132 | no figure iff the split raises (the frame has rows and none has a `technique` value); otherwise the figure's x and y labels are the table's columns and index, z is its matrix, and the annotations are those of the nested loop |
| Dashboard.MergedFrame.UpdatePieChart | dashboard.py:140-148 | writes the `Year` column, leaves the rows and `YearMonth` untouched, and charts `TopActors` with the top-5 title and the selected year |

## Findings

| source | as written | input that shows it | evidently intended | confidence | as-written member | corrected member |
|---|---|---|---|---|---|---|
| Scoring_Algorithm.py:21-23 | all three statements assign `scal_cve` from `CVE Severity` (through an undefined `Scale`) | any frame, e.g. the example at lines 35-40: afterwards only `scal_cve` exists, and line 27 reads the unset `scal_cwe` | `scal_cve`, `scal_cwe` and `scal_ttp` are each scaled with `scale_data` from their own column | high; not executed | Scoring.ScaledColumnsAsWritten (exhibited by Scoring.ScaledColumnsAsWrittenMissCweTtp) | Scoring.ThreatFrame.CalculateRiskScores |

## Left out

- The Dash application, the layout, Plotly figure styling (colours, sizes, hole, fonts, tick angles), the callback wiring and the `plot_activity` callback are presentation; they compute nothing beyond what is modelled.
- Loading the CSV, the existence check on its path, and `print` are I/O.
- `pd.to_datetime` parsing is not modelled. Timestamps arrive parsed, and a value that fails to parse is `None` (NaT).
- Floating point is not modelled. Scores are exact reals, so IEEE rounding is not captured. NaN can arise only from 0/0 in scaling; NaN input values are not represented.
- The name error of the undefined `Scale` is not modelled. The scoring model reads it as `scale_data` (see "## Findings").
- `str(value)` rendering of annotation text is not modelled; an annotation carries the count itself.
- Dropdowns.DefaultYear: on data without any timestamp the source raises IndexError (`[0]` of an empty list); the model returns `None` instead.
- Ranking.TopActors: ties in `nlargest` are broken by ascending name, which relies on `groupby('name')` returning names sorted and on `nlargest` keeping the first of equal values; the name order is code-point order on strings, not a locale collation.
- Dashboard.MergedFrame.UpdateHeatmap: `pick_threat` is accepted and ignored, as in the source; the figure is returned as a value, not wrapped in a `dcc.Graph`; the AttributeError of the split on a `technique` column without any text is modelled as `None`, without the exception's message.
- Techniques.Crosstab: is the table for the frames on which the split succeeds; on a non-empty frame whose `technique` values are all missing, `str.split` at line 91 raises AttributeError and no table is built, which the model states in `UpdateHeatmap` (`NoTechniqueText`), not in `Crosstab`, where the result is then the empty table. A `technique` column that `read_csv` reads as numbers (all values numeric) raises the same way and is not modelled.
- A missing `name` is not modelled: every row has a name. pandas drops rows with a NaN name from the group-bys and the crosstab (dashboard.py:26, 93, 142, 144), but `unique()` at line 64 would offer NaN as a threat option.
- Dashboard.MergedFrame.UpdatePieChart: the title is modelled by its two parameters (`top_n`, `selected_year`), not as formatted text.
