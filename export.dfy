/**
 The report table that the "Generate Report" button writes to the spreadsheet:
 an ordered list of four-cell rows holding the campaign information, one
 pre-campaign row per catalog metric, one post-campaign row per catalog metric,
 and the score summary.
 */
module Export {
  import opened Metrics

  /** A spreadsheet cell: text, or the integer score of a metric. */
  datatype Cell = S(text: string) | I(number: int)

  type Row = seq<Cell>

  /** The campaign form's fields; the dates arrive already formatted as text. */
  datatype CampaignInfo = CampaignInfo(
    name: string,
    campaignDate: string,
    startDate: string,
    endDate: string,
    client: string,
    country: string,
    cities: string)

  /** The session's three stores; `comments` is shared by both phases. */
  datatype Stores = Stores(
    preScores: map<string, int>,
    postScores: map<string, int>,
    comments: map<string, string>)

  /** Dictionary lookup with a default for a missing key. */
  function Get<V>(m: map<string, V>, key: string, default: V): V
  {
    if key in m then m[key] else default
  }

  /** A row with a caption, a value and two empty cells. */
  function Line(caption: string, value: string): Row
  {
    [S(caption), S(value), S(""), S("")]
  }

  const BlankRow: Row := Line("", "")

  const ColumnHeader: Row := [S("Category"), S("Metric"), S("Score"), S("Comments")]

  /** The table row of one (category, metric) entry of the given phase. */
  function MetricRow(p: Phase, e: (string, string), scores: map<string, int>, comments: map<string, string>): Row
  {
    var key := Key(p, e.0, e.1);
    [S(e.0), S(e.1), I(Get(scores, key, 0)), S(Get(comments, key, ""))]
  }

  /** One table row per entry, in entry order. */
  function MetricRows(p: Phase, es: seq<(string, string)>, scores: map<string, int>, comments: map<string, string>): seq<Row>
  {
    seq(|es|, k requires 0 <= k < |es| => MetricRow(p, es[k], scores, comments))
  }

  /** The campaign-information block, closed by a blank row. */
  function InfoRows(info: CampaignInfo): seq<Row>
  {
    [ Line("Campaign Information", ""),
      Line("Campaign Name", info.name),
      Line("Campaign Date", info.campaignDate),
      Line("Start Date", info.startDate),
      Line("End Date", info.endDate),
      Line("Client Name", info.client),
      Line("Country", info.country),
      Line("Cities", info.cities),
      BlankRow ]
  }

  /** The whole report, block by block. */
  function ReportRows(info: CampaignInfo, pre: Catalog, post: Catalog, st: Stores,
                      prePercent: string, postPercent: string): seq<Row>
  {
    InfoRows(info)
    + [Line("Pre-Campaign Scorecard", ""), ColumnHeader]
    + MetricRows(Pre, Entries(pre), st.preScores, st.comments)
    + [BlankRow, Line("Post-Campaign Scorecard", ""), ColumnHeader]
    + MetricRows(Post, Entries(post), st.postScores, st.comments)
    + [BlankRow, Line("Score Summary", ""),
       Line("Pre-Campaign Score", prePercent + "%"),
       Line("Post-Campaign Score", postPercent + "%")]
  }

  /** Index of the first pre-campaign data row. */
  const PreStart: nat := 11

  /** Index of the first post-campaign data row. */
  function PostStart(pre: Catalog): nat
  {
    14 + MetricCount(pre)
  }

  // ---------------------------------------------------------------------------
  // The builder, as the report is assembled: appending row by row

  /** Appends one row per metric of `c`, category by category, metric by metric. */
  method AppendMetricRows(data: seq<Row>, p: Phase, c: Catalog,
                          scores: map<string, int>, comments: map<string, string>)
    returns (out: seq<Row>)
    ensures out == data + MetricRows(p, Entries(c), scores, comments)
  {
    out := data;
    for i := 0 to |c|
      invariant out == data + MetricRows(p, Entries(c[..i]), scores, comments)
    {
      var category, metrics := c[i].0, c[i].1;
      ghost var done := Entries(c[..i]);
      for j := 0 to |metrics|
        invariant out == data + MetricRows(p, done + Pairs(category, metrics[..j]), scores, comments)
      {
        var key := Key(p, category, metrics[j]);
        var score := if key in scores then scores[key] else 0;
        var comment := if key in comments then comments[key] else "";
        ghost var before := done + Pairs(category, metrics[..j]);
        out := out + [[S(category), S(metrics[j]), I(score), S(comment)]];
        assert out == data + MetricRows(p, done + Pairs(category, metrics[..j + 1]), scores, comments) by {
          var e := (category, metrics[j]);
          assert MetricRows(p, [e], scores, comments) == [MetricRow(p, e, scores, comments)];
          assert Pairs(category, metrics[..j + 1]) == Pairs(category, metrics[..j]) + [e];
          assert done + Pairs(category, metrics[..j + 1]) == before + [e];
          MetricRowsAppend(p, before, [e], scores, comments);
        }
      }
      assert metrics[..|metrics|] == metrics;
      EntriesSnoc(c, i);
    }
    assert c[..|c|] == c;
  }

  lemma MetricRowsAppend(p: Phase, es: seq<(string, string)>, es': seq<(string, string)>,
                          scores: map<string, int>, comments: map<string, string>)
    ensures MetricRows(p, es + es', scores, comments) == MetricRows(p, es, scores, comments) + MetricRows(p, es', scores, comments)
  {
  }

  /** Builds the report rows from the form, the catalogs and the stores. */
  method BuildReport(info: CampaignInfo, pre: Catalog, post: Catalog, st: Stores,
                     prePercent: string, postPercent: string)
    returns (data: seq<Row>)
    ensures data == ReportRows(info, pre, post, st, prePercent, postPercent)
  {
    data := [];
    data := data + [Line("Campaign Information", "")];
    data := data + [Line("Campaign Name", info.name)];
    data := data + [Line("Campaign Date", info.campaignDate)];
    data := data + [Line("Start Date", info.startDate)];
    data := data + [Line("End Date", info.endDate)];
    data := data + [Line("Client Name", info.client)];
    data := data + [Line("Country", info.country)];
    data := data + [Line("Cities", info.cities)];
    data := data + [BlankRow];
    assert data == InfoRows(info);

    data := data + [Line("Pre-Campaign Scorecard", "")];
    data := data + [ColumnHeader];
    data := AppendMetricRows(data, Pre, pre, st.preScores, st.comments);

    data := data + [BlankRow];
    data := data + [Line("Post-Campaign Scorecard", "")];
    data := data + [ColumnHeader];
    data := AppendMetricRows(data, Post, post, st.postScores, st.comments);

    data := data + [BlankRow];
    data := data + [Line("Score Summary", "")];
    data := data + [Line("Pre-Campaign Score", prePercent + "%")];
    data := data + [Line("Post-Campaign Score", postPercent + "%")];
  }

  // ---------------------------------------------------------------------------
  // Properties of the report

  /** The report has 18 fixed rows plus one per catalog metric; every row has four cells. */
  lemma ReportShape(info: CampaignInfo, pre: Catalog, post: Catalog, st: Stores,
                    prePercent: string, postPercent: string)
    ensures var r := ReportRows(info, pre, post, st, prePercent, postPercent);
      && |r| == 18 + MetricCount(pre) + MetricCount(post)
      && forall k :: 0 <= k < |r| ==> |r[k]| == 4
  {
  }

  /** With the application's catalogs (29 and 18 metrics) the report has 65 rows. */
  lemma ShownReportLength(info: CampaignInfo, st: Stores, prePercent: string, postPercent: string)
    ensures |ReportRows(info, PreMetrics, PostMetrics, st, prePercent, postPercent)| == 65
  {
    ReportShape(info, PreMetrics, PostMetrics, st, prePercent, postPercent);
    ShownCatalogSizes();
  }

  /** Fixed rows sit at fixed offsets around the two tables. */
  lemma FixedRows(info: CampaignInfo, pre: Catalog, post: Catalog, st: Stores,
                  prePercent: string, postPercent: string)
    ensures var r := ReportRows(info, pre, post, st, prePercent, postPercent);
      var n, m := MetricCount(pre), MetricCount(post);
      && |r| == 18 + n + m
      && r[..9] == InfoRows(info)
      && r[9] == Line("Pre-Campaign Scorecard", "")
      && r[10] == ColumnHeader
      && r[11 + n] == BlankRow
      && r[12 + n] == Line("Post-Campaign Scorecard", "")
      && r[13 + n] == ColumnHeader
      && r[14 + n + m] == BlankRow
      && r[15 + n + m] == Line("Score Summary", "")
      && r[16 + n + m] == Line("Pre-Campaign Score", prePercent + "%")
      && r[17 + n + m] == Line("Post-Campaign Score", postPercent + "%")
  {
    ReportShape(info, pre, post, st, prePercent, postPercent);
  }

  /**
   Metric `j` of pre-campaign category `i` is exported at its catalog position in
   the pre-campaign table, with the stored score (0 when unset) and the stored
   comment ("" when unset).
   */
  lemma PreRowAt(info: CampaignInfo, pre: Catalog, post: Catalog, st: Stores,
                 prePercent: string, postPercent: string, i: nat, j: nat)
    requires i < |pre| && j < |pre[i].1|
    ensures var r := ReportRows(info, pre, post, st, prePercent, postPercent);
      var category, metric := pre[i].0, pre[i].1[j];
      var key := Key(Pre, category, metric);
      && PreStart + Position(pre, i, j) < PreStart + MetricCount(pre)
      && r[PreStart + Position(pre, i, j)] ==
           [S(category), S(metric),
            I(if key in st.preScores then st.preScores[key] else 0),
            S(if key in st.comments then st.comments[key] else "")]
  {
    EntriesAt(pre, i, j);
  }

  /** The post-campaign counterpart of PreRowAt. */
  lemma PostRowAt(info: CampaignInfo, pre: Catalog, post: Catalog, st: Stores,
                  prePercent: string, postPercent: string, i: nat, j: nat)
    requires i < |post| && j < |post[i].1|
    ensures var r := ReportRows(info, pre, post, st, prePercent, postPercent);
      var category, metric := post[i].0, post[i].1[j];
      var key := Key(Post, category, metric);
      && PostStart(pre) + Position(post, i, j) < PostStart(pre) + MetricCount(post)
      && r[PostStart(pre) + Position(post, i, j)] ==
           [S(category), S(metric),
            I(if key in st.postScores then st.postScores[key] else 0),
            S(if key in st.comments then st.comments[key] else "")]
  {
    EntriesAt(post, i, j);
  }

  /** Every row of the pre-campaign table is the row of some pre-campaign catalog metric. */
  lemma PreTableCovered(info: CampaignInfo, pre: Catalog, post: Catalog, st: Stores,
                        prePercent: string, postPercent: string, k: nat)
    requires PreStart <= k < PreStart + MetricCount(pre)
    ensures exists i, j :: 0 <= i < |pre| && 0 <= j < |pre[i].1| && k == PreStart + Position(pre, i, j) &&
              ReportRows(info, pre, post, st, prePercent, postPercent)[k] ==
              MetricRow(Pre, (pre[i].0, pre[i].1[j]), st.preScores, st.comments)
  {
    EntryOrigin(pre, k - PreStart);
    var i, j :| 0 <= i < |pre| && 0 <= j < |pre[i].1| && k - PreStart == Position(pre, i, j);
    PreRowAt(info, pre, post, st, prePercent, postPercent, i, j);
    assert ReportRows(info, pre, post, st, prePercent, postPercent)[k] ==
           MetricRow(Pre, (pre[i].0, pre[i].1[j]), st.preScores, st.comments);
  }

  /** Every row of the post-campaign table is the row of some post-campaign catalog metric. */
  lemma PostTableCovered(info: CampaignInfo, pre: Catalog, post: Catalog, st: Stores,
                         prePercent: string, postPercent: string, k: nat)
    requires PostStart(pre) <= k < PostStart(pre) + MetricCount(post)
    ensures exists i, j :: 0 <= i < |post| && 0 <= j < |post[i].1| && k == PostStart(pre) + Position(post, i, j) &&
              ReportRows(info, pre, post, st, prePercent, postPercent)[k] ==
              MetricRow(Post, (post[i].0, post[i].1[j]), st.postScores, st.comments)
  {
    EntryOrigin(post, k - PostStart(pre));
    var i, j :| 0 <= i < |post| && 0 <= j < |post[i].1| && k - PostStart(pre) == Position(post, i, j);
    PostRowAt(info, pre, post, st, prePercent, postPercent, i, j);
    assert ReportRows(info, pre, post, st, prePercent, postPercent)[k] ==
           MetricRow(Post, (post[i].0, post[i].1[j]), st.postScores, st.comments);
  }

  /**
   A post-campaign comment and a pre-campaign comment never share a key, so
   recording one leaves the other phase's exported row unchanged.
   */
  lemma CommentsDoNotCollide(e: (string, string), e': (string, string), text: string,
                             scores: map<string, int>, comments: map<string, string>)
    ensures MetricRow(Pre, e, scores, comments[Key(Post, e'.0, e'.1) := text]) == MetricRow(Pre, e, scores, comments)
    ensures MetricRow(Post, e', scores, comments[Key(Pre, e.0, e.1) := text]) == MetricRow(Post, e', scores, comments)
  {
    PrePostKeysDiffer(e.0, e.1, e'.0, e'.1);
  }

  /** Scores drawn from the selector's options export as option values; so does the default. */
  lemma ExportedScoresAreOptions(info: CampaignInfo, pre: Catalog, post: Catalog, st: Stores,
                                 prePercent: string, postPercent: string)
    requires forall key :: key in st.preScores ==> st.preScores[key] in ScoreOptions
    requires forall key :: key in st.postScores ==> st.postScores[key] in ScoreOptions
    ensures var r := ReportRows(info, pre, post, st, prePercent, postPercent);
      && (forall k :: PreStart <= k < PreStart + MetricCount(pre) ==> r[k][2].I? && r[k][2].number in ScoreOptions)
      && (forall k :: PostStart(pre) <= k < PostStart(pre) + MetricCount(post) ==> r[k][2].I? && r[k][2].number in ScoreOptions)
  {
    assert 0 in ScoreOptions;
  }

  // ---------------------------------------------------------------------------
  // Reading a table back

  ghost predicate IsDataRow(r: Row)
  {
    |r| == 4 && r[0].S? && r[1].S? && r[2].I? && r[3].S?
  }

  /**
   Reads a table of data rows back into a map from store key to (score,
   comment); a later row with the same key overrides an earlier one.
   */
  ghost function Reread(p: Phase, rows: seq<Row>): map<string, (int, string)>
  {
    if rows == [] then map[]
    else
      var last := rows[|rows| - 1];
      var m := Reread(p, rows[..|rows| - 1]);
      if IsDataRow(last) then m[Key(p, last[0].text, last[1].text) := (last[2].number, last[3].text)] else m
  }

  /** A row whose key no later row repeats is what the read-back holds for that key. */
  lemma {:induction false} RereadAt(p: Phase, rows: seq<Row>, k: nat)
    requires k < |rows| && IsDataRow(rows[k])
    requires forall k' :: k < k' < |rows| && IsDataRow(rows[k']) ==>
               Key(p, rows[k'][0].text, rows[k'][1].text) != Key(p, rows[k][0].text, rows[k][1].text)
    ensures var key := Key(p, rows[k][0].text, rows[k][1].text);
      key in Reread(p, rows) && Reread(p, rows)[key] == (rows[k][2].number, rows[k][3].text)
  {
    if k < |rows| - 1 {
      var front := rows[..|rows| - 1];
      assert front[k] == rows[k];
      forall k' | k < k' < |front| && IsDataRow(front[k'])
        ensures Key(p, front[k'][0].text, front[k'][1].text) != Key(p, front[k][0].text, front[k][1].text)
      {
        assert front[k'] == rows[k'];
      }
      RereadAt(p, front, k);
    }
  }

  /** A table of metric rows read back by key yields each entry's stored values. */
  lemma MetricRowsReread(p: Phase, c: Catalog, scores: map<string, int>, comments: map<string, string>, i: nat, j: nat)
    requires WellFormed(c)
    requires i < |c| && j < |c[i].1|
    ensures var key := Key(p, c[i].0, c[i].1[j]);
      var back := Reread(p, MetricRows(p, Entries(c), scores, comments));
      && key in back
      && back[key] == (if key in scores then scores[key] else 0, if key in comments then comments[key] else "")
  {
    var rows := MetricRows(p, Entries(c), scores, comments);
    var es := Entries(c);
    EntriesAt(c, i, j);
    KeysDistinct(p, c);
    var k := Position(c, i, j);
    forall k' | k < k' < |rows| && IsDataRow(rows[k'])
      ensures Key(p, rows[k'][0].text, rows[k'][1].text) != Key(p, rows[k][0].text, rows[k][1].text)
    {
      assert Key(p, es[k].0, es[k].1) != Key(p, es[k'].0, es[k'].1);
    }
    RereadAt(p, rows, k);
  }

  /**
   Round trip: reading the exported pre- and post-campaign tables back by key
   reproduces, for every catalog metric, the stored score and comment, or 0 and
   "" when none was stored.
   */
  lemma ReportRoundTrip(info: CampaignInfo, pre: Catalog, post: Catalog, st: Stores,
                        prePercent: string, postPercent: string)
    requires WellFormed(pre) && WellFormed(post)
    ensures var r := ReportRows(info, pre, post, st, prePercent, postPercent);
      var preBack := Reread(Pre, r[PreStart..PreStart + MetricCount(pre)]);
      var postBack := Reread(Post, r[PostStart(pre)..PostStart(pre) + MetricCount(post)]);
      && (forall i, j :: 0 <= i < |pre| && 0 <= j < |pre[i].1| ==>
            var key := Key(Pre, pre[i].0, pre[i].1[j]);
            key in preBack && preBack[key] == (Get(st.preScores, key, 0), Get(st.comments, key, "")))
      && (forall i, j :: 0 <= i < |post| && 0 <= j < |post[i].1| ==>
            var key := Key(Post, post[i].0, post[i].1[j]);
            key in postBack && postBack[key] == (Get(st.postScores, key, 0), Get(st.comments, key, "")))
  {
    var r := ReportRows(info, pre, post, st, prePercent, postPercent);
    assert r[PreStart..PreStart + MetricCount(pre)] == MetricRows(Pre, Entries(pre), st.preScores, st.comments);
    assert r[PostStart(pre)..PostStart(pre) + MetricCount(post)] == MetricRows(Post, Entries(post), st.postScores, st.comments);
    forall i, j | 0 <= i < |pre| && 0 <= j < |pre[i].1|
      ensures var key := Key(Pre, pre[i].0, pre[i].1[j]);
        var back := Reread(Pre, MetricRows(Pre, Entries(pre), st.preScores, st.comments));
        key in back && back[key] == (Get(st.preScores, key, 0), Get(st.comments, key, ""))
    {
      MetricRowsReread(Pre, pre, st.preScores, st.comments, i, j);
    }
    forall i, j | 0 <= i < |post| && 0 <= j < |post[i].1|
      ensures var key := Key(Post, post[i].0, post[i].1[j]);
        var back := Reread(Post, MetricRows(Post, Entries(post), st.postScores, st.comments));
        key in back && back[key] == (Get(st.postScores, key, 0), Get(st.comments, key, ""))
    {
      MetricRowsReread(Post, post, st.postScores, st.comments, i, j);
    }
  }
}
