/** `BigQueryClient` of processing/src/bigquery.py: the request guards and the
    row mapping around the warehouse client.

    The client is a parameter. `insertRows(rows)` is the reply of
    `insert_rows_json` on the sentiment table; `query(request)` is the result of
    running the SQL of a request, as the rows BigQuery returns in its own order.
    Each operation returns the call it made, if any, with its result. */
module BigQuery {
  import opened Dynamic
  import opened Seqs
  import opened Schema

  /** `insert_rows_json` returns a list of row errors or raises `GoogleAPIError`. */
  datatype InsertReply = RowErrors(errors: seq<string>) | InsertFailed

  /** The outcome of an insert operation and the rows it sent, if it sent any. */
  datatype Loaded = Loaded(success: bool, inserted: Option<seq<Dict>>)

  /** `insert_data`: a non-list or empty argument, or one with no row that
      passes the schema check, is a failure without a call; otherwise the
      passing rows are sent in one call, which succeeds exactly when it reports
      no errors. */
  function InsertData(insertRows: seq<Dict> -> InsertReply, data: Batch<Dict>): (r: Loaded)
    ensures data.NotAList? || data.items == [] ==> r == Loaded(false, None)
    ensures data.Items? && (forall k :: 0 <= k < |data.items| ==> !SchemaCompatible(data.items[k]))
      ==> r == Loaded(false, None)
    ensures r.inserted.Some? <==>
      data.Items? && exists k :: 0 <= k < |data.items| && SchemaCompatible(data.items[k])
    ensures r.inserted.Some? ==>
      && r.inserted.value != []
      && IsSubsequence(r.inserted.value, data.items)
      && (forall row :: row in r.inserted.value <==> row in data.items && SchemaCompatible(row))
      && (forall row :: multiset(r.inserted.value)[row] == if SchemaCompatible(row) then multiset(data.items)[row] else 0)
    ensures r.inserted.Some? ==> r.inserted.value == Filter(SchemaCompatible, data.items)
    ensures r.success <==> r.inserted.Some? && insertRows(r.inserted.value) == RowErrors([])
  {
    if data.NotAList? || data.items == [] then Loaded(false, None)
    else
      var valid := Filter(SchemaCompatible, data.items);
      FilterEmpty(SchemaCompatible, data.items);
      FilterIsSubsequence(SchemaCompatible, data.items);
      forall row ensures row in valid <==> row in data.items && SchemaCompatible(row) {
        FilterMembership(SchemaCompatible, data.items, row);
      }
      forall row ensures multiset(valid)[row] == if SchemaCompatible(row) then multiset(data.items)[row] else 0 {
        FilterMultiset(SchemaCompatible, data.items, row);
      }
      if valid == [] then Loaded(false, None)
      else
        match insertRows(valid)
        case RowErrors(errors) => Loaded(errors == [], Some(valid))
        case InsertFailed => Loaded(false, Some(valid))
  }

  /** A row as the store returns it. `ticker`, `sentiment_score`, `timestamp` and
      `data_point_count` are REQUIRED columns; `source` is NULLABLE. The
      timestamp is the epoch second of a TIMESTAMP, which carries microseconds. */
  datatype StoreRow = StoreRow(ticker: string, score: real, seconds: real, count: int, source: Option<string>)

  /** The two queries the client issues. */
  datatype QueryRequest =
    | RangeQuery(ticker: string, start: int, end: int)
    | LatestQuery(ticker: string)

  datatype QueryReply = Rows(rows: seq<StoreRow>) | QueryFailed

  /** The dictionary a result row becomes: `int(row["timestamp"].timestamp())`
      truncates the fraction, and a NULL source stays `None`. */
  function MapRow(row: StoreRow): (d: Dict)
    ensures d.Keys == SchemaFields
    ensures d["ticker"] == VStr(row.ticker) && d["sentiment_score"] == VReal(row.score)
    ensures d["data_point_count"] == VInt(row.count)
    ensures d["timestamp"] == VInt(Trunc(row.seconds))
    ensures d["timestamp"].VInt? && row.seconds >= 0.0 ==>
      d["timestamp"].i as real <= row.seconds < d["timestamp"].i as real + 1.0
    ensures d["timestamp"].VInt? && (row.seconds == row.seconds.Floor as real ==> d["timestamp"].i == row.seconds.Floor)
    ensures d["source"] == (if row.source.Some? then VStr(row.source.value) else VNone)
  {
    map["ticker" := VStr(row.ticker), "sentiment_score" := VReal(row.score),
        "timestamp" := VInt(Trunc(row.seconds)), "data_point_count" := VInt(row.count),
        "source" := if row.source.Some? then VStr(row.source.value) else VNone]
  }

  function MapRows(rows: seq<StoreRow>): (ds: seq<Dict>)
    ensures |ds| == |rows|
    ensures forall k :: 0 <= k < |rows| ==> ds[k] == MapRow(rows[k])
  {
    if rows == [] then [] else [MapRow(rows[0])] + MapRows(rows[1..])
  }

  /** A row read back passes the schema check (and could be inserted again)
      exactly when its ticker is at most five characters, its score in range,
      its count non-negative and its source not NULL. */
  lemma MappedRowSchema(row: StoreRow)
    ensures SchemaCompatible(MapRow(row)) <==>
      |row.ticker| <= 5 && -1.0 <= row.score <= 1.0 && row.count >= 0 && row.source.Some?
  {
    var d := MapRow(row);
    SchemaIsColumnwise(d);
    if |row.ticker| <= 5 && -1.0 <= row.score <= 1.0 && row.count >= 0 && row.source.Some? {
      forall k | k in d ensures ColumnAccepts(k, d[k]) {
      }
    } else if !(|row.ticker| <= 5) {
      assert !ColumnAccepts("ticker", d["ticker"]);
    } else if !(-1.0 <= row.score <= 1.0) {
      assert !ColumnAccepts("sentiment_score", d["sentiment_score"]);
    } else if row.count < 0 {
      assert !ColumnAccepts("data_point_count", d["data_point_count"]);
    } else {
      assert !ColumnAccepts("source", d["source"]);
    }
  }

  datatype Queried = Queried(results: seq<Dict>, issued: Option<QueryRequest>)

  /** `query_data`: an empty ticker or an empty or inverted window returns no
      rows without a query; otherwise the store's rows, in the store's order
      (requested ascending by timestamp), each mapped field by field; a failed
      query returns no rows. */
  function QueryData(query: QueryRequest -> QueryReply, ticker: string, start: int, end: int): (r: Queried)
    ensures r.issued.None? <==> ticker == "" || start >= end
    ensures r.issued.None? ==> r.results == []
    ensures r.issued.Some? ==> r.issued.value == RangeQuery(ticker, start, end)
    ensures r.issued.Some? && query(r.issued.value).Rows? ==>
      var rows := query(r.issued.value).rows;
      |r.results| == |rows| && forall k :: 0 <= k < |rows| ==> r.results[k] == MapRow(rows[k])
    ensures r.issued.Some? && query(r.issued.value).QueryFailed? ==> r.results == []
  {
    if ticker == "" || start >= end then Queried([], None)
    else
      var request := RangeQuery(ticker, start, end);
      match query(request)
      case Rows(rows) => Queried(MapRows(rows), Some(request))
      case QueryFailed => Queried([], Some(request))
  }

  datatype Latest = Latest(record: Option<Dict>, issued: Option<QueryRequest>)

  /** `get_latest_record`: `None` without a query for an empty ticker; `None` for
      no rows or a failed query; otherwise the first row (the store orders them
      newest first and keeps one), mapped as `query_data` maps rows. */
  function GetLatestRecord(query: QueryRequest -> QueryReply, ticker: string): (r: Latest)
    ensures r.issued.None? <==> ticker == ""
    ensures r.issued.Some? ==> r.issued.value == LatestQuery(ticker)
    ensures r.record.Some? <==> r.issued.Some? && query(r.issued.value).Rows? && query(r.issued.value).rows != []
    ensures r.record.Some? ==> r.record.value == MapRow(query(r.issued.value).rows[0])
  {
    if ticker == "" then Latest(None, None)
    else
      var request := LatestQuery(ticker);
      match query(request)
      case Rows(rows) => Latest(if rows == [] then None else Some(MapRow(rows[0])), Some(request))
      case QueryFailed => Latest(None, Some(request))
  }

  /** Given the same store answer, the latest record is the head of what
      `query_data` would return for those rows, so both read rows the same way. */
  lemma {:induction false} LatestIsHeadOfQuery(query: QueryRequest -> QueryReply, ticker: string, start: int, end: int)
    requires ticker != "" && start < end
    requires query(LatestQuery(ticker)) == query(RangeQuery(ticker, start, end))
    ensures var q := QueryData(query, ticker, start, end);
      GetLatestRecord(query, ticker).record == (if q.results == [] then None else Some(q.results[0]))
  {
  }
}
