/**
 The metric catalogs of the campaign scorecard and the composite keys under
 which the session stores a score or a comment for one catalog metric.

 A catalog is an insertion-ordered dictionary from a category name to the
 list of its metric names; it is modelled as a sequence of pairs, in the
 order the dictionary literal is written.
 */
module Metrics {

  /** The two evaluation stages; each store key starts with the stage's tag. */
  datatype Phase = Pre | Post

  type Catalog = seq<(string, seq<string>)>

  function Tag(p: Phase): string
  {
    match p
    case Pre => "pre"
    case Post => "post"
  }

  /** The store key `<tag>_<category>_<metric>`. */
  function Key(p: Phase, category: string, metric: string): string
  {
    Tag(p) + "_" + category + "_" + metric
  }

  /** The (category, metric) pairs of one category, in metric order. */
  function Pairs(category: string, metrics: seq<string>): seq<(string, string)>
  {
    seq(|metrics|, k requires 0 <= k < |metrics| => (category, metrics[k]))
  }

  /** Every (category, metric) of a catalog: category order first, then metric order. */
  function Entries(c: Catalog): (es: seq<(string, string)>)
    ensures |es| == MetricCount(c)
  {
    if c == [] then [] else Pairs(c[0].0, c[0].1) + Entries(c[1..])
  }

  /** The number of metrics of a catalog: the sum of its category list lengths. */
  function MetricCount(c: Catalog): nat
  {
    if c == [] then 0 else |c[0].1| + MetricCount(c[1..])
  }

  /** Position of metric `j` of category `i` among the catalog's entries. */
  function Position(c: Catalog, i: nat, j: nat): nat
    requires i <= |c|
  {
    MetricCount(c[..i]) + j
  }

  /** Category names are distinct: they are the keys of a dictionary. */
  ghost predicate CategoriesDistinct(c: Catalog)
  {
    forall i, j :: 0 <= i < j < |c| ==> c[i].0 != c[j].0
  }

  /** No category name contains the key separator `_`. */
  ghost predicate CategoriesUnseparated(c: Catalog)
  {
    forall i :: 0 <= i < |c| ==> '_' !in c[i].0
  }

  /** No metric is listed twice within one category. */
  ghost predicate MetricsDistinct(c: Catalog)
  {
    forall i, j, k :: 0 <= i < |c| && 0 <= j < k < |c[i].1| ==> c[i].1[j] != c[i].1[k]
  }

  /** What the key scheme needs of a catalog so that each key names one metric. */
  ghost predicate WellFormed(c: Catalog)
  {
    CategoriesDistinct(c) && CategoriesUnseparated(c) && MetricsDistinct(c)
  }

  // ---------------------------------------------------------------------------
  // The catalogs and score options of the application

  const PreMetrics: Catalog := [
    ("Creative Readiness", [
      "Assets received on time",
      "Storyboard approvals met deadlines",
      "Creative meets format & resolution"]),
    ("Production Timeline", [
      "Workback schedule followed",
      "Vendor deadlines met",
      "Final creative delivered on time"]),
    ("Placement & Inventory", [
      "Billboard locations confirmed",
      "Placement visibility",
      "Competitive share of voice"]),
    ("Budget & Media", [
      "Budget fully utilized",
      "Number of spots booked vs planned"]),
    ("Target Audience", [
      "Demographic match",
      "Estimated reach meets expectations"]),
    ("Approval & Compliance", [
      "Legal/brand compliance approved",
      "Vendor tests & pre-launch checks done"]),
    ("Moderation Guidelines", [
      "Pre-Defined Moderation Guidelines",
      "Approval Checklist"]),
    ("Moderation Script", [
      "Pre-Moderation Review Process",
      "Compliance Script Execution"]),
    ("Moderation Workback Schedule", [
      "Content Submission Date",
      "Moderation Review Deadline"]),
    ("Influencer Assets", [
      "Influencer Content Submission",
      "Influencer Content Approval"]),
    ("Clients Approvals", [
      "Client Content Submission",
      "Client Content Approval"]),
    ("Creators Approvals", [
      "Creator Content Submission",
      "Creator Content Approval"]),
    ("TikTok Approvals", [
      "TikTok Platform Compliance",
      "TikTok Ad Moderation Passed"])
  ]

  const PostMetrics: Catalog := [
    ("Impressions & Reach", [
      "Actual impressions vs target",
      "Audience engagement rate",
      "Share of voice achieved"]),
    ("Engagement & Awareness", [
      "Social media mentions increased",
      "Hashtag usage met expectations",
      "Earned media coverage"]),
    ("Brand Sentiment", [
      "Positive sentiment shift",
      "UGC growth",
      "Influencer engagement"]),
    ("Conversion & ROI", [
      "Website traffic increased",
      "Sales lift / conversion growth",
      "Cost per engagement met target"]),
    ("Photography & Visibility", [
      "High-quality images captured",
      "Splash video created",
      "Social media features"]),
    ("Campaign Learnings", [
      "Key wins identified",
      "Areas for improvement noted",
      "Optimization recommendations made"])
  ]

  /** The score selector's options: value to label. */
  const ScoreOptions: map<int, string> := map[
    0 := "0 - No/Poor",
    3 := "3 - Partial/Medium",
    5 := "5 - Yes/Excellent"
  ]

  lemma ShownCatalogSizes()
    ensures MetricCount(PreMetrics) == 29 && MetricCount(PostMetrics) == 18
  {
    ShownPreSize();
    ShownPostSize();
  }

  lemma ShownPreSize()
    ensures MetricCount(PreMetrics) == 29
  {
  }

  lemma ShownPostSize()
    ensures MetricCount(PostMetrics) == 18
  {
  }

  /** Both catalogs of the application satisfy what the key scheme needs. */
  lemma ShownCatalogsWellFormed()
    ensures WellFormed(PreMetrics) && WellFormed(PostMetrics)
  {
    ShownCategoriesDistinct();
    ShownCategoriesUnseparated();
    ShownMetricsDistinct();
  }

  lemma ShownCategoriesDistinct()
    ensures CategoriesDistinct(PreMetrics) && CategoriesDistinct(PostMetrics)
  {
  }

  lemma ShownCategoriesUnseparated()
    ensures CategoriesUnseparated(PreMetrics) && CategoriesUnseparated(PostMetrics)
  {
    PreCategoriesUnseparated();
    PostCategoriesUnseparated();
  }

  lemma PreCategoriesUnseparated()
    ensures CategoriesUnseparated(PreMetrics)
  {
  }

  lemma PostCategoriesUnseparated()
    ensures CategoriesUnseparated(PostMetrics)
  {
  }

  lemma ShownMetricsDistinct()
    ensures MetricsDistinct(PreMetrics) && MetricsDistinct(PostMetrics)
  {
  }

  // ---------------------------------------------------------------------------
  // Entries: length, splitting, and where each (category, metric) lands

  lemma {:induction false} EntriesAppend(a: Catalog, b: Catalog)
    ensures Entries(a + b) == Entries(a) + Entries(b)
    ensures MetricCount(a + b) == MetricCount(a) + MetricCount(b)
  {
    if a == [] {
      assert a + b == b;
    } else {
      assert (a + b)[1..] == a[1..] + b;
      EntriesAppend(a[1..], b);
    }
  }

  /** The entries of the first `i + 1` categories extend those of the first `i`. */
  lemma EntriesSnoc(c: Catalog, i: nat)
    requires i < |c|
    ensures Entries(c[..i + 1]) == Entries(c[..i]) + Pairs(c[i].0, c[i].1)
  {
    assert c[..i + 1] == c[..i] + [c[i]];
    EntriesAppend(c[..i], [c[i]]);
    assert [c[i]][1..] == [];
  }

  /** Metric `j` of category `i` is the entry at `Position(c, i, j)`. */
  lemma EntriesAt(c: Catalog, i: nat, j: nat)
    requires i < |c| && j < |c[i].1|
    ensures Position(c, i, j) < |Entries(c)|
    ensures Entries(c)[Position(c, i, j)] == (c[i].0, c[i].1[j])
  {
    assert c == c[..i] + ([c[i]] + c[i + 1..]);
    EntriesAppend(c[..i], [c[i]] + c[i + 1..]);
    EntriesAppend([c[i]], c[i + 1..]);
    assert Entries([c[i]]) == Pairs(c[i].0, c[i].1) by {
      assert [c[i]][1..] == [];
    }
  }

  /** Every entry comes from some metric of some category. */
  lemma {:induction false} EntryOrigin(c: Catalog, k: nat)
    requires k < |Entries(c)|
    ensures exists i, j :: 0 <= i < |c| && 0 <= j < |c[i].1| && k == Position(c, i, j)
  {
    assert c != [];
    if k < |c[0].1| {
      assert c[..0] == [];
      assert k == Position(c, 0, k);
    } else {
      EntryOrigin(c[1..], k - |c[0].1|);
      var i, j :| 0 <= i < |c[1..]| && 0 <= j < |c[1..][i].1| && k - |c[0].1| == Position(c[1..], i, j);
      assert c[..i + 1] == [c[0]] + c[1..][..i];
      EntriesAppend([c[0]], c[1..][..i]);
      assert [c[0]][1..] == [];
      assert k == Position(c, i + 1, j);
    }
  }

  /**
   Positions follow catalog order: category order first, then metric order, so
   distinct (category, metric) slots land at distinct positions.
   */
  lemma EntryPositionsOrdered(c: Catalog, i: nat, j: nat, i': nat, j': nat)
    requires i < |c| && j < |c[i].1| && i' < |c| && j' < |c[i'].1|
    requires i < i' || (i == i' && j < j')
    ensures Position(c, i, j) < Position(c, i', j')
  {
    if i < i' {
      assert c[..i'] == c[..i] + c[i..i'];
      EntriesAppend(c[..i], c[i..i']);
      assert c[i..i'][0] == c[i];
    }
  }

  // ---------------------------------------------------------------------------
  // Keys

  /** A pre-campaign key never equals a post-campaign key. */
  lemma PrePostKeysDiffer(category: string, metric: string, category': string, metric': string)
    ensures Key(Pre, category, metric) != Key(Post, category', metric')
  {
    assert Key(Pre, category, metric)[1] == 'r';
    assert Key(Post, category', metric')[1] == 'o';
  }

  /** Index of the first `_` in `s`, or `|s|` when there is none. */
  function SeparatorIndex(s: string): nat
  {
    if s == [] then 0 else if s[0] == '_' then 0 else 1 + SeparatorIndex(s[1..])
  }

  lemma {:induction false} SeparatorIndexAfter(a: string, b: string)
    requires '_' !in a
    ensures SeparatorIndex(a + "_" + b) == |a|
  {
    if a != [] {
      assert (a + "_" + b)[1..] == a[1..] + "_" + b;
      SeparatorIndexAfter(a[1..], b);
    }
  }

  /** Splitting at the first separator: a prefix free of `_` is recovered. */
  lemma SplitAtSeparator(a: string, b: string, a': string, b': string)
    requires '_' !in a && '_' !in a'
    requires a + "_" + b == a' + "_" + b'
    ensures a == a' && b == b'
  {
    var s := a + "_" + b;
    SeparatorIndexAfter(a, b);
    SeparatorIndexAfter(a', b');
    assert a == s[..|a|] == a';
    assert b == s[|a| + 1..] == b';
  }

  /** Keys of categories free of `_` determine their phase, category and metric. */
  lemma KeyInjective(p: Phase, category: string, metric: string, p': Phase, category': string, metric': string)
    requires '_' !in category && '_' !in category'
    ensures Key(p, category, metric) == Key(p', category', metric') <==>
            p == p' && category == category' && metric == metric'
  {
    if Key(p, category, metric) == Key(p', category', metric') {
      assert '_' !in Tag(p) && '_' !in Tag(p');
      assert Key(p, category, metric) == Tag(p) + "_" + (category + "_" + metric);
      assert Key(p', category', metric') == Tag(p') + "_" + (category' + "_" + metric');
      SplitAtSeparator(Tag(p), category + "_" + metric, Tag(p'), category' + "_" + metric');
      SplitAtSeparator(category, metric, category', metric');
      assert p == (if Tag(p) == "pre" then Pre else Post);
      assert p' == (if Tag(p') == "pre" then Pre else Post);
    }
  }

  lemma {:induction false} EntryCategory(c: Catalog, k: nat)
    requires k < |Entries(c)|
    ensures exists i :: 0 <= i < |c| && Entries(c)[k].0 == c[i].0
  {
    EntryOrigin(c, k);
    var i, j :| 0 <= i < |c| && 0 <= j < |c[i].1| && k == Position(c, i, j);
    EntriesAt(c, i, j);
  }

  /** In a well-formed catalog no (category, metric) pair is listed twice. */
  lemma {:induction false} EntriesDistinct(c: Catalog)
    requires WellFormed(c)
    ensures forall a, b :: 0 <= a < b < |Entries(c)| ==> Entries(c)[a] != Entries(c)[b]
  {
    if c != [] {
      var head := Pairs(c[0].0, c[0].1);
      var rest := Entries(c[1..]);
      assert WellFormed(c[1..]) by {
        forall i, j, k | 0 <= i < |c[1..]| && 0 <= j < k < |c[1..][i].1|
          ensures c[1..][i].1[j] != c[1..][i].1[k]
        {
          assert c[1..][i] == c[i + 1];
        }
      }
      EntriesDistinct(c[1..]);
      forall a, b | 0 <= a < b < |Entries(c)| ensures Entries(c)[a] != Entries(c)[b] {
        if b < |head| {
          assert c[0].1[a] != c[0].1[b];
        } else if a < |head| {
          EntryCategory(c[1..], b - |head|);
          var i :| 0 <= i < |c[1..]| && rest[b - |head|].0 == c[1..][i].0;
          assert c[1..][i].0 == c[i + 1].0 != c[0].0;
        }
      }
    }
  }

  /** In a well-formed catalog no two entries of one phase share a store key. */
  lemma KeysDistinct(p: Phase, c: Catalog)
    requires WellFormed(c)
    ensures forall a, b :: 0 <= a < b < |Entries(c)| ==>
              Key(p, Entries(c)[a].0, Entries(c)[a].1) != Key(p, Entries(c)[b].0, Entries(c)[b].1)
  {
    EntriesDistinct(c);
    forall a, b | 0 <= a < b < |Entries(c)|
      ensures Key(p, Entries(c)[a].0, Entries(c)[a].1) != Key(p, Entries(c)[b].0, Entries(c)[b].1)
    {
      EntryCategory(c, a);
      EntryCategory(c, b);
      KeyInjective(p, Entries(c)[a].0, Entries(c)[a].1, p, Entries(c)[b].0, Entries(c)[b].1);
    }
  }

  /** With the application's catalogs every metric of a phase has a key of its own. */
  lemma ShownKeysDistinct()
    ensures forall a, b :: 0 <= a < b < |Entries(PreMetrics)| ==>
              Key(Pre, Entries(PreMetrics)[a].0, Entries(PreMetrics)[a].1) !=
              Key(Pre, Entries(PreMetrics)[b].0, Entries(PreMetrics)[b].1)
    ensures forall a, b :: 0 <= a < b < |Entries(PostMetrics)| ==>
              Key(Post, Entries(PostMetrics)[a].0, Entries(PostMetrics)[a].1) !=
              Key(Post, Entries(PostMetrics)[b].0, Entries(PostMetrics)[b].1)
  {
    ShownCatalogsWellFormed();
    KeysDistinct(Pre, PreMetrics);
    KeysDistinct(Post, PostMetrics);
  }
}
