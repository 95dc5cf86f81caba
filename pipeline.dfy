/** `SentimentPipeline` of processing/src/pipeline.py: one extract, transform and
    load round.

    The storage and warehouse clients are parameters: `listBlobs(prefix)` is the
    listing of the raw-data bucket, `download(name)` the parsed JSON content of a
    blob, and `insertRows(rows)` the reply of `insert_rows_json` on the sentiment
    table. Each operation returns the calls it made alongside its result. */
module Pipeline {
  import opened Dynamic
  import opened Seqs
  import opened Models
  import opened Schema
  import Sentiment
  import opened BigQuery

  datatype ListReply = Blobs(names: seq<string>) | ListFailed
  /** The decoded content of a blob: a list, or a string or object (`NotAList`),
      all of which have a length; `null`, a number or a boolean, which have none;
      or a storage or decoding failure. */
  datatype DownloadReply = Json(content: Batch<Dict>) | JsonWithoutLength | DownloadFailed | InvalidJson

  /** The latest name under Python's string order: an element that no other
      element exceeds. */
  function MaxName(names: seq<string>): (m: string)
    requires names != []
    ensures m in names
    ensures forall k :: 0 <= k < |names| ==> StrLe(names[k], m)
    decreases |names|
  {
    if |names| == 1 then StrLeReflexive(names[0]); names[0]
    else
      var rest := MaxName(names[..|names| - 1]);
      var last := names[|names| - 1];
      if StrLe(last, rest) then rest
      else
        StrLeTotal(last, rest);
        StrLeReflexive(last);
        forall k | 0 <= k < |names| - 1 ensures StrLe(names[k], last) {
          assert names[k] == names[..|names| - 1][k];
          StrLeTransitive(names[k], rest, last);
        }
        last
  }

  /** The maximum is determined by the set of names alone. */
  lemma {:induction false} MaxNameUnique(names: seq<string>, m: string)
    requires names != [] && m in names
    requires forall k :: 0 <= k < |names| ==> StrLe(names[k], m)
    ensures MaxName(names) == m
  {
    var n := MaxName(names);
    var i :| 0 <= i < |names| && names[i] == m;
    var j :| 0 <= j < |names| && names[j] == n;
    StrLeAntisymmetric(n, m);
  }

  /** What `extract_from_gcs` returns and the blob it downloaded, if any.
      `None` as the data stands for the `TypeError` that `len` raises on
      content without a length: it is neither a storage nor a decoding error,
      so it leaves the method. */
  datatype Extracted = Extracted(data: Option<Batch<Dict>>, downloaded: Option<string>)

  /** `extract_from_gcs`: the content of the blob with the greatest name under
      the prefix; an empty listing, a storage error or undecodable JSON yields
      an empty list, and content without a length raises. */
  function ExtractFromGcs(listBlobs: string -> ListReply, download: string -> DownloadReply, prefix: string): (r: Extracted)
    ensures r.downloaded.Some? <==> listBlobs(prefix).Blobs? && listBlobs(prefix).names != []
    ensures r.downloaded.Some? ==>
      var names := listBlobs(prefix).names;
      && r.downloaded.value in names
      && (forall k :: 0 <= k < |names| ==> StrLe(names[k], r.downloaded.value))
    ensures r.data.None? <==> r.downloaded.Some? && download(r.downloaded.value).JsonWithoutLength?
    ensures r.downloaded.Some? && download(r.downloaded.value).Json? ==>
      r.data == Some(download(r.downloaded.value).content)
    ensures r.downloaded.None? || download(r.downloaded.value).DownloadFailed? || download(r.downloaded.value).InvalidJson?
      ==> r.data == Some(Items([]))
  {
    match listBlobs(prefix)
    case ListFailed => Extracted(Some(Items([])), None)
    case Blobs(names) =>
      if names == [] then Extracted(Some(Items([])), None)
      else
        var latest := MaxName(names);
        match download(latest)
        case Json(content) => Extracted(Some(content), Some(latest))
        case JsonWithoutLength => Extracted(None, Some(latest))
        case _ => Extracted(Some(Items([])), Some(latest))
  }

  /** `datetime.utcfromtimestamp` accepts seconds from 0001-01-01T00:00:00 to
      9999-12-31T23:59:59 and raises outside that range. */
  const MinDatetimeSecond := -62135596800
  const MaxDatetimeSecond := 253402300799

  predicate InDatetimeRange(seconds: int)
  {
    MinDatetimeSecond <= seconds <= MaxDatetimeSecond
  }

  /** The row `transform` builds from one score: the epoch second becomes a
      `datetime` and the source is `"X"`. */
  function ScoreRow(s: SentimentScore): (d: Dict)
    requires IsInt(s.timestamp)
    ensures d.Keys == SchemaFields
    ensures d["ticker"] == s.ticker && d["sentiment_score"] == s.sentimentScore && d["data_point_count"] == s.dataPointCount
    ensures d["timestamp"] == VDateTime(IntOf(s.timestamp)) && d["source"] == VStr("X")
    ensures !SchemaCompatible(d)
  {
    map["ticker" := s.ticker, "sentiment_score" := s.sentimentScore,
        "timestamp" := VDateTime(IntOf(s.timestamp)),
        "data_point_count" := s.dataPointCount, "source" := VStr("X")]
  }

  function ScoreRows(scores: seq<SentimentScore>): (rows: seq<Dict>)
    requires forall k :: 0 <= k < |scores| ==> IsInt(scores[k].timestamp)
    ensures |rows| == |scores|
    ensures forall k :: 0 <= k < |rows| ==> rows[k] == ScoreRow(scores[k])
  {
    if scores == [] then [] else [ScoreRow(scores[0])] + ScoreRows(scores[1..])
  }

  /** `transform`: the batch analyzer's scores as table rows, in order. `None`
      stands for the error `utcfromtimestamp` raises on a second out of range. */
  function Transform(polarity: Sentiment.Polarity, fromIso: Sentiment.IsoReader, raw: Batch<Dict>): (r: Option<seq<Dict>>)
    ensures var scores := Sentiment.BatchScores(polarity, fromIso, raw);
      && (r.Some? <==> forall k :: 0 <= k < |scores| ==> InDatetimeRange(IntOf(scores[k].timestamp)))
      && (r.Some? ==> |r.value| == |scores|)
      && (r.Some? ==> forall k :: 0 <= k < |scores| ==> r.value[k] == ScoreRow(scores[k]))
  {
    var scores := Sentiment.BatchScores(polarity, fromIso, raw);
    if raw.Items? && raw.items == [] then Some([])
    else if exists k :: 0 <= k < |scores| && !InDatetimeRange(IntOf(scores[k].timestamp)) then None
    else Some(ScoreRows(scores))
  }

  /** `transform([])` returns `[]` before the analyzer is reached: the result
      is the same for every scorer and every ISO reader. */
  lemma TransformEmpty(polarity: Sentiment.Polarity, fromIso: Sentiment.IsoReader)
    ensures Transform(polarity, fromIso, Items([])) == Some([])
  {
  }

  /** Every row `transform` produces carries a `datetime` timestamp, which the
      schema check rejects. */
  lemma TransformRowsRejected(polarity: Sentiment.Polarity, fromIso: Sentiment.IsoReader, raw: Batch<Dict>)
    requires Transform(polarity, fromIso, raw).Some?
    ensures forall k :: 0 <= k < |Transform(polarity, fromIso, raw).value| ==>
      !SchemaCompatible(Transform(polarity, fromIso, raw).value[k])
  {
  }

  /** `load_to_bigquery`: nothing to load is a failure without a call; otherwise
      the rows that pass the schema check are sent in one call, and the load
      succeeds exactly when that call reports no errors. */
  function LoadToBigQuery(insertRows: seq<Dict> -> InsertReply, data: seq<Dict>): (r: Loaded)
    ensures data == [] ==> r == Loaded(false, None)
    ensures data != [] ==> r.inserted.Some?
    ensures r.inserted.Some? ==>
      && IsSubsequence(r.inserted.value, data)
      && (forall row :: row in r.inserted.value <==> row in data && SchemaCompatible(row))
      && (forall row :: multiset(r.inserted.value)[row] == if SchemaCompatible(row) then multiset(data)[row] else 0)
    ensures r.inserted.Some? ==> r.inserted.value == Filter(SchemaCompatible, data)
    ensures r.success <==> r.inserted.Some? && insertRows(r.inserted.value) == RowErrors([])
  {
    if data == [] then Loaded(false, None)
    else
      var valid := Filter(SchemaCompatible, data);
      FilterIsSubsequence(SchemaCompatible, data);
      forall row ensures row in valid <==> row in data && SchemaCompatible(row) {
        FilterMembership(SchemaCompatible, data, row);
      }
      forall row ensures multiset(valid)[row] == if SchemaCompatible(row) then multiset(data)[row] else 0 {
        FilterMultiset(SchemaCompatible, data, row);
      }
      match insertRows(valid)
      case RowErrors(errors) => Loaded(errors == [], Some(valid))
      case InsertFailed => Loaded(false, Some(valid))
  }

  /** The pipeline's loader and the client's `insert_data` agree on every
      non-empty list except one with no schema-valid row: there the client
      fails without a call, while the loader sends an empty list and reports
      whatever the store answers. */
  lemma {:induction false} LoaderVersusInsertData(insertRows: seq<Dict> -> InsertReply, data: seq<Dict>)
    requires data != []
    ensures (exists k :: 0 <= k < |data| && SchemaCompatible(data[k])) ==>
      LoadToBigQuery(insertRows, data) == InsertData(insertRows, Items(data))
    ensures (forall k :: 0 <= k < |data| ==> !SchemaCompatible(data[k])) ==>
      && InsertData(insertRows, Items(data)) == Loaded(false, None)
      && LoadToBigQuery(insertRows, data) == Loaded(insertRows([]) == RowErrors([]), Some([]))
  {
    FilterEmpty(SchemaCompatible, data);
  }

  /** One round of `run`: extract, transform, load. `None` in `rows` stands for
      a round the loop's exception handler ends in the extract or the
      transform, and `None` in `loaded` for one that never reaches the load. */
  datatype Round = Round(extracted: Extracted, rows: Option<seq<Dict>>, loaded: Option<Loaded>)

  function RunRound(listBlobs: string -> ListReply, download: string -> DownloadReply,
                    insertRows: seq<Dict> -> InsertReply,
                    polarity: Sentiment.Polarity, fromIso: Sentiment.IsoReader): (r: Round)
    ensures r.extracted == ExtractFromGcs(listBlobs, download, "tweets")
    ensures r.extracted.data.None? ==> r.rows.None?
    ensures r.extracted.data.Some? ==> r.rows == Transform(polarity, fromIso, r.extracted.data.value)
    ensures r.loaded.Some? <==> r.rows.Some?
    ensures r.loaded.Some? ==> r.loaded.value == LoadToBigQuery(insertRows, r.rows.value)
  {
    var extracted := ExtractFromGcs(listBlobs, download, "tweets");
    var rows := if extracted.data.Some? then Transform(polarity, fromIso, extracted.data.value) else None;
    Round(extracted, rows, if rows.Some? then Some(LoadToBigQuery(insertRows, rows.value)) else None)
  }

  /** Whatever the round extracts, it never inserts a row: either nothing is
      scored and nothing is sent, or every row is filtered out before the call. */
  lemma {:induction false} RoundInsertsNothing(listBlobs: string -> ListReply, download: string -> DownloadReply,
                                               insertRows: seq<Dict> -> InsertReply,
                                               polarity: Sentiment.Polarity, fromIso: Sentiment.IsoReader)
    ensures var r := RunRound(listBlobs, download, insertRows, polarity, fromIso);
      r.loaded.Some? && r.loaded.value.inserted.Some? ==> r.loaded.value.inserted.value == []
  {
    var r := RunRound(listBlobs, download, insertRows, polarity, fromIso);
    if r.loaded.Some? && r.loaded.value.inserted.Some? {
      var rows := r.rows.value;
      TransformRowsRejected(polarity, fromIso, r.extracted.data.value);
      FilterEmpty(SchemaCompatible, rows);
    }
  }

  /** Raw records as the fetcher writes them (keyed `created_at`, with no
      `timestamp`) produce no rows, so the load reports failure without a call. */
  lemma FetchedRecordsNeverLoad(insertRows: seq<Dict> -> InsertReply,
                                polarity: Sentiment.Polarity, fromIso: Sentiment.IsoReader, raw: seq<Dict>)
    requires forall k :: 0 <= k < |raw| ==> "timestamp" !in raw[k]
    ensures Transform(polarity, fromIso, Items(raw)) == Some([])
    ensures LoadToBigQuery(insertRows, Transform(polarity, fromIso, Items(raw)).value) == Loaded(false, None)
  {
    Sentiment.CreatedAtIsIgnored(polarity, fromIso, raw);
  }
}
