/**
 * The session query log: the entries `_log_query` appends and the per-type
 * summary `get_session_summary` computes from them.
 */
module Journal {
  import opened Wrappers

  datatype QueryType = ConceptQuery | FloorQuery | TagQuery | RelatedQuery

  const ALL_TYPES: set<QueryType> := {ConceptQuery, FloorQuery, TagQuery, RelatedQuery}

  /** The `query_type` string the log stores for each kind of query. */
  function TypeName(t: QueryType): (name: string)
  {
    match t
    case ConceptQuery => "concept"
    case FloorQuery => "floor"
    case TagQuery => "tag"
    case RelatedQuery => "related_concepts"
  }

  /** Different kinds of query are logged under different names. */
  lemma TypeNamesDistinct(s: QueryType, t: QueryType)
    ensures TypeName(s) == TypeName(t) ==> s == t
  {
  }

  /** One log entry `{timestamp, query_type, query, results_count}`, the timestamp in ISO form. */
  datatype LogEntry = LogEntry(timestamp: string, queryType: QueryType, query: string, resultsCount: nat)

  /** `{session_start, total_queries, by_type}`; `sessionStart` is `None` where the key is absent. */
  datatype SessionSummary = SessionSummary(
    sessionStart: Option<string>,
    totalQueries: nat,
    byType: map<QueryType, nat>)

  /** Number of entries of one kind. */
  function CountOf(history: seq<LogEntry>, t: QueryType): nat
    decreases |history|
  {
    if history == [] then 0
    else CountOf(history[..|history| - 1], t) + (if history[|history| - 1].queryType == t then 1 else 0)
  }

  /** The per-type counts, with a key for exactly the kinds that occur. */
  function ByType(history: seq<LogEntry>): map<QueryType, nat> {
    map t | t in ALL_TYPES && CountOf(history, t) > 0 :: CountOf(history, t)
  }

  /** The summary of a history: the bare 0 / `{}` form when it is empty. */
  function Summarize(history: seq<LogEntry>, sessionStart: string): SessionSummary {
    if history == [] then SessionSummary(None, 0, map[])
    else SessionSummary(Some(sessionStart), |history|, ByType(history))
  }

  /** `by_type.get(t, 0)`. */
  function CountIn(byType: map<QueryType, nat>, t: QueryType): nat {
    if t in byType then byType[t] else 0
  }

  /** The counts of a `by_type` map, added up. */
  function SumCounts(byType: map<QueryType, nat>): nat {
    CountIn(byType, ConceptQuery) + CountIn(byType, FloorQuery) + CountIn(byType, TagQuery) + CountIn(byType, RelatedQuery)
  }

  /** Every entry is of exactly one kind, so the four counts add up to the length. */
  lemma {:induction false} CountsSumToLength(history: seq<LogEntry>)
    ensures CountOf(history, ConceptQuery) + CountOf(history, FloorQuery)
          + CountOf(history, TagQuery) + CountOf(history, RelatedQuery) == |history|
    decreases |history|
  {
    if history != [] {
      CountsSumToLength(history[..|history| - 1]);
    }
  }

  /**
   * An empty history is summarised as 0 queries, no kinds and no session
   * start. Otherwise the total is the number of entries, the session start is
   * there, every count present is positive and the counts add up to the total.
   */
  lemma SummaryTotals(history: seq<LogEntry>, sessionStart: string)
    ensures var s := Summarize(history, sessionStart);
      && (history == [] ==> s == SessionSummary(None, 0, map[]))
      && (history != [] ==> s.sessionStart == Some(sessionStart) && s.totalQueries == |history|)
      && (forall t :: t in s.byType ==> s.byType[t] > 0)
      && SumCounts(s.byType) == s.totalQueries
  {
    CountsSumToLength(history);
  }

  /** Appending one entry raises the count of its own kind by one and no other. */
  lemma CountAppend(history: seq<LogEntry>, e: LogEntry, t: QueryType)
    ensures CountOf(history + [e], t) == CountOf(history, t) + (if e.queryType == t then 1 else 0)
  {
    assert (history + [e])[..|history|] == history;
  }

  /** Counting one more entry: its kind's count goes up by one, a new kind enters with count 1. */
  lemma ByTypeAppend(history: seq<LogEntry>, e: LogEntry)
    ensures ByType(history + [e]) == ByType(history)[e.queryType := CountIn(ByType(history), e.queryType) + 1]
  {
    forall t ensures CountOf(history + [e], t) == CountOf(history, t) + (if e.queryType == t then 1 else 0) {
      CountAppend(history, e, t);
    }
  }
}
