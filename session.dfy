/**
 The per-session state the scorecard keeps between interactions: the
 pre-campaign scores, the post-campaign scores and the comments shared by both
 phases, each absent until the page first initialises it.
 */
module Session {
  import opened Metrics
  import opened Export

  datatype Option<T> = None | Some(value: T)

  class SessionState {
    var preScores: Option<map<string, int>>
    var postScores: Option<map<string, int>>
    var comments: Option<map<string, string>>

    /** A new session holds none of the three stores. */
    constructor ()
      ensures preScores == None && postScores == None && comments == None
    {
      preScores := None;
      postScores := None;
      comments := None;
    }

    predicate Initialized()
      reads this
    {
      preScores.Some? && postScores.Some? && comments.Some?
    }

    /**
     Creates each store that is absent as an empty map and leaves each store
     that exists as it is; on an initialised session it changes nothing.
     */
    method Init()
      modifies this
      ensures Initialized()
      ensures preScores == if old(preScores).Some? then old(preScores) else Some(map[])
      ensures postScores == if old(postScores).Some? then old(postScores) else Some(map[])
      ensures comments == if old(comments).Some? then old(comments) else Some(map[])
      ensures old(Initialized()) ==>
                preScores == old(preScores) && postScores == old(postScores) && comments == old(comments)
    {
      if preScores.None? {
        preScores := Some(map[]);
      }
      if postScores.None? {
        postScores := Some(map[]);
      }
      if comments.None? {
        comments := Some(map[]);
      }
    }

    /** The three stores of an initialised session. */
    function Stored(): Stores
      reads this
      requires Initialized()
    {
      Stores(preScores.value, postScores.value, comments.value)
    }

    /**
     The report of the session's stores over the application's catalogs: 65 rows,
     exactly the report the builder specifies.
     */
    method GenerateReport(info: CampaignInfo, prePercent: string, postPercent: string)
      returns (data: seq<Row>)
      requires Initialized()
      ensures data == ReportRows(info, PreMetrics, PostMetrics, Stored(), prePercent, postPercent)
      ensures |data| == 65
    {
      data := BuildReport(info, PreMetrics, PostMetrics, Stored(), prePercent, postPercent);
      ShownReportLength(info, Stored(), prePercent, postPercent);
    }
  }
}
