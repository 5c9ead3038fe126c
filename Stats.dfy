/** `RAG_STATS` of server.js: a counter of searches and the most recent
    search records, newest first and at most fifty, updated by every
    successful `/rag/search` and cleared by `/rag/stats/reset`. */
module Stats {
  import opened Scoring
  import opened Snippets
  import opened Search

  /** How many records `recent` keeps. */
  const MaxRecent: nat := 50

  /** One entry of `recent`. The time stamp and the user agent come from the
      clock and the request headers and are taken as given strings. */
  datatype StatsRecord = StatsRecord(ts: string, query: string, topK: real, hitCount: nat, ua: string)

  /** `recent.unshift(rec)` followed by `if (recent.length > 50) recent.length = 50`. */
  function Prepend(rec: StatsRecord, recent: seq<StatsRecord>): seq<StatsRecord>
  {
    var r := [rec] + recent;
    if |r| > MaxRecent then r[..MaxRecent] else r
  }

  /** The new record comes first, the previous ones follow in their old order,
      and only the oldest beyond the fiftieth are dropped. */
  lemma PrependSpec(rec: StatsRecord, recent: seq<StatsRecord>)
    ensures var r := Prepend(rec, recent);
      && |r| == Min(MaxRecent, |recent| + 1)
      && r[0] == rec
      && forall i :: 1 <= i < |r| ==> r[i] == recent[i - 1]
  {
  }

  /** The statistics record: the fields the handlers update in place. */
  class RagStats {
    var total: nat
    var recent: seq<StatsRecord>

    ghost predicate Valid()
      reads this
    {
      |recent| <= MaxRecent
    }

    /** `{ total: 0, recent: [] }`. */
    constructor ()
      ensures Valid() && total == 0 && recent == []
    {
      total := 0;
      recent := [];
    }

    /** Counts one search and records it. */
    method Record(rec: StatsRecord)
      requires Valid()
      modifies this
      ensures Valid()
      ensures total == old(total) + 1
      ensures recent == Prepend(rec, old(recent))
    {
      total := total + 1;
      recent := [rec] + recent;
      if |recent| > MaxRecent {
        recent := recent[..MaxRecent];
      }
    }

    /** `/rag/stats/reset`. */
    method Reset()
      modifies this
      ensures Valid() && total == 0 && recent == []
    {
      total := 0;
      recent := [];
    }
  }

  /** The whole `/rag/search` handler: the response, and the statistics
      updated only when the search succeeds. */
  method HandleSearchRequest(stats: RagStats, kb: seq<Document>, query: string,
                             topK: Option<JsNumber>, ts: string, ua: string)
    returns (resp: Response)
    requires stats.Valid()
    modifies stats
    ensures stats.Valid()
    ensures resp == HandleSearch(kb, query, topK)
    ensures resp.Error? ==> stats.total == old(stats.total) && stats.recent == old(stats.recent)
    ensures resp.Found? ==>
      && stats.total == old(stats.total) + 1
      && stats.recent == Prepend(StatsRecord(ts, resp.query, resp.topK, |resp.results|, ua), old(stats.recent))
  {
    resp := HandleSearch(kb, query, topK);
    if resp.Error? {
      return;
    }
    stats.Record(StatsRecord(ts, resp.query, resp.topK, |resp.results|, ua));
  }
}
