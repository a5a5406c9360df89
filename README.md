# Campaign scorecard report — a Dafny model

The scorecard is a form-driven tool. A user scores fixed pre-campaign and
post-campaign checklists on a 0/3/5 scale, with a free-text comment per metric.
The tool then exports a spreadsheet report. This project models the report
table that the "Generate Report" button builds, the session-state
initialisation that precedes it, and the constant data both rely on:

- `metrics.dfy` (module `Metrics`): the two metric catalogs and the score
  options as constants. A catalog is an insertion-ordered dictionary from
  category to metric list, modelled as `seq<(string, seq<string>)>` in the
  order the literal is written. The module also holds the composite store key
  `pre_<category>_<metric>` / `post_<category>_<metric>`, the flattening of a
  catalog into its (category, metric) entries, and the lemmas on entry order
  and key uniqueness.
- `export.dfy` (module `Export`): the report rows. A cell is text or an
  integer (`Cell = S(string) | I(int)`). `ReportRows` specifies the whole
  table block by block. `BuildReport` and `AppendMetricRows` build it the way
  the source does, by appending inside a nested category/metric loop, and are
  proved equal to `ReportRows`. The lemmas cover the row count, the row width,
  the fixed rows, catalog order, the defaults for unset entries, and a
  read-back round trip.
- `session.dfy` (module `Session`): the session's three stores (`pre_scores`,
  `post_scores`, `comments`) as optional map fields of a class. `Init` creates
  the missing ones, and `GenerateReport` runs the builder on the stores with
  the application's catalogs.

A store key is the phase tag, `_`, the category, `_` and the metric. Such keys
can only be told apart when no category name contains `_`. The model states
this as part of `WellFormed`, and `ShownCatalogsWellFormed` proves it for both
shipped catalogs. A metric name may contain `_`. Only the category is split
off at the first separator.

The two summary percentages come in as already formatted text. The report
appends `%` to each. The dates come in as already formatted text too.

## Model

| member | source | states |
|---|---|---|
| Metrics.Entries | streamlit_app.py:157-158 | flattening a catalog yields exactly as many (category, metric) entries as the catalog has metrics |
| Metrics.EntriesAppend | streamlit_app.py:157-158 | the entries of two catalogs laid end to end are the first one's entries followed by the second one's; the metric counts add up |
| Metrics.EntriesAt | streamlit_app.py:157-158 | metric j of category i is the entry at position (metrics of the first i categories) + j |
| Metrics.EntryOrigin | streamlit_app.py:157-158 | every entry position belongs to some metric j of some category i |
| Metrics.EntryPositionsOrdered | streamlit_app.py:157-158 | positions follow category order first, then metric order; distinct (i, j) slots land at distinct positions |
| Metrics.ShownCatalogSizes | streamlit_app.py:29-119 | the pre-campaign catalog has 29 metrics and the post-campaign catalog 18 |
| Metrics.ShownCatalogsWellFormed | streamlit_app.py:29-119 | in both catalogs the categories are distinct and contain no `_`, and no category lists a metric twice |
| Metrics.PrePostKeysDiffer | streamlit_app.py:159-173 | a `pre_` key never equals a `post_` key, whatever the category and metric |
| Metrics.SplitAtSeparator | streamlit_app.py:159 | `a + "_" + b == a' + "_" + b'` with `_` in neither a nor a' forces a == a' and b == b' |
| Metrics.KeyInjective | streamlit_app.py:159 | for categories without `_`, two keys are equal exactly when phase, category and metric are all equal |
| Metrics.EntriesDistinct | streamlit_app.py:157-158 | a well-formed catalog lists no (category, metric) pair twice |
| Metrics.KeysDistinct | streamlit_app.py:157-159 | in a well-formed catalog no two entries of one phase share a store key |
| Metrics.ShownKeysDistinct | streamlit_app.py:29-119 | with the shipped catalogs every metric of a phase has a key of its own |
| Export.AppendMetricRows | streamlit_app.py:157-165 | the nested loop appends exactly the table rows of the catalog's entries, in entry order, after the rows already present |
| Export.BuildReport | streamlit_app.py:141-185 | the appended rows are exactly the specified report: information block, pre-campaign table, separator, post-campaign table, summary |
| Export.ReportShape | streamlit_app.py:144-185 | the report has 18 + (pre metrics) + (post metrics) rows and every row has four cells |
| Export.ShownReportLength | streamlit_app.py:141-185 | with the shipped catalogs the report has 65 rows |
| Export.FixedRows | streamlit_app.py:144-185 | the information block is rows 0-8; title and column header precede each table; a blank row, the post title and the header follow the pre table; a blank row, "Score Summary" and the two percentage rows follow the post table |
| Export.PreRowAt | streamlit_app.py:157-165 | metric j of pre category i is exported at row 11 + its catalog position, with the stored pre score (0 if unset) and the stored comment ("" if unset) |
| Export.PostRowAt | streamlit_app.py:171-179 | metric j of post category i is exported at row 14 + (pre metrics) + its catalog position, with the stored post score (0 if unset) and the stored comment ("" if unset) |
| Export.PreTableCovered | streamlit_app.py:157-165 | every row of the pre-campaign table sits at the catalog position of some pre metric and holds that metric's row |
| Export.PostTableCovered | streamlit_app.py:171-179 | every row of the post-campaign table sits at the catalog position of some post metric and holds that metric's row |
| Export.CommentsDoNotCollide | streamlit_app.py:159-178 | recording a post comment leaves every exported pre row unchanged, and a pre comment every post row |
| Export.ExportedScoresAreOptions | streamlit_app.py:127-131 | when every stored score is a selector option, every exported score is a selector option, the default 0 included |
| Export.MetricRowsReread | streamlit_app.py:157-165 | reading a well-formed catalog's table back by key gives each metric its stored score and comment, or 0 and "" |
| Export.ReportRoundTrip | streamlit_app.py:157-179 | reading the exported pre and post tables back by key gives, for every catalog metric, the stored score and comment, or 0 and "" when unset |
| Session.SessionState.constructor | streamlit_app.py:3-8 | a new session holds none of the three stores |
| Session.SessionState.Init | streamlit_app.py:3-8 | every absent store becomes an empty map; an existing store is kept as it is; on an initialised session nothing changes (idempotence) |
| Session.SessionState.GenerateReport | streamlit_app.py:141-185 | the report of an initialised session is the specified report of its stores over the shipped catalogs, 65 rows long |

## Left out

- Streamlit widgets and layout (text inputs, date pickers, buttons, columns, markdown containers, the download button) are UI. The form's values enter the model as a `CampaignInfo` value.
- The date formatting with `strftime` is not modelled. The dates are opaque, already formatted strings.
- The spreadsheet writing (DataFrame, Excel writer, bold and shaded first row) and the read-back of the written file are foreign library calls and file I/O. `Export.Reread` stands in for a reader of the produced table. It is specification only.
- The timestamped file name depends on the clock and is not modelled.
- The two percentages come in as formatted strings. Their computation is not present in `streamlit_app.py`, and they are floats formatted to one decimal.
- The scoring aggregates (category averages, phase totals and maxima, pre/post deltas, top-three insights) and the category and campaign-type filters are not modelled. Their code is elided from `streamlit_app.py` (its comments at lines 22-23 and 133 say so), so is not part of this model.
- The metric definitions dictionary is empty and has no behaviour.
- Session-state entries other than the three stores are not modelled. Neither are values of another type stored under their names.
