# Stock sentiment pipeline: a Dafny model

This project models the data path of a real-time stock-sentiment system.

- The **ingestion fetcher** pulls posts about a list of tickers. It finds the ticker in each post (`$AAPL`), writes the batch to a bucket as a JSON blob named after the current UTC time, and runs one query per ticker on every pass.
- The **processing pipeline** reads the newest blob and scores every post with a polarity scorer. It turns the scores into table rows, filters them against the table schema and inserts them into the warehouse.
- The **warehouse client** guards its inserts and range or latest-record queries, and maps the rows it reads back.
- The **API service** answers a unary "current sentiment" lookup and a historical stream of time-bucketed aggregates.
- The **`SentimentScore` record** and the **schema check** are shared by all of these.

Python's dynamic values are modelled explicitly (`Dynamic.Value`, dictionaries as `map<string, Value>`). This includes:

- truthiness;
- `bool` counting as `int`;
- `str.isalnum` restricted to ASCII;
- Python's string order;
- `int()` truncation of a float.

Every external service is a function parameter. For the blob store (`downloaded`), the warehouse (`inserted`, `issued`, `queried`), the X API (`queries`) and the upload (`blob`), each operation returns the calls it made alongside its result, so "no call was made" to these is a statement about the model's result. TextBlob's polarity, `datetime.fromisoformat` and the clock are pure parameters whose calls are not recorded; for them, "not called" is stated as "the result does not depend on the parameter" (`Pipeline.TransformEmpty`).

One concrete ISO 8601 reader (`IsoTime.ParseIsoUtc`) is proved to invert the formatter the fetcher uses. The reader is built on proleptic Gregorian calendar arithmetic.

Modules and files:

| file | module | models |
|---|---|---|
| dynamic.dfy | Dynamic | Python values, truthiness, character classes, `int()`, string order |
| seqs.dfy | Seqs | list comprehension with a filter, subsequences |
| models.dfy | Models | `SentimentScore`: `__init__`, `__post_init__`, `is_valid`, `from_dict`, `to_dict` |
| schema.dfy | Schema | `validate_schema_compatibility` |
| iso_time.dfy | IsoTime | calendar, `replace("Z", "+00:00")`, ISO formatting and reading |
| sentiment.dfy | Sentiment | `analyze_text`, `analyze_batch` |
| bigquery.dfy | BigQuery | `insert_data`, `query_data`, `get_latest_record` |
| pipeline.dfy | Pipeline | `extract_from_gcs`, `transform`, `load_to_bigquery`, one round of `run` |
| service.dfy | Service | `get_stock_sentiment`, `stream_stock_sentiment` |
| fetcher.dfy | Fetcher | `_extract_ticker`, the raw record, `upload_to_gcs`, one pass of `run` |

## Behaviour of the code as written

The model follows the code. Proving contracts about it brings out these properties of the system as it stands.

- **Fetched posts are never scored.** The fetcher writes each post's time under `created_at` (ingestion/src/fetcher.py:103-110). The batch analyzer reads only `timestamp` (processing/src/sentiment.py:86), finds `None` and skips the item. As a result, every fetched post is dropped (`Fetcher.FetchedTweetsScoreNothing`, `Pipeline.FetchedRecordsNeverLoad`).
- **Transformed rows never pass the schema check.** `transform` stores a `datetime` in the `timestamp` column (processing/src/pipeline.py:102), and the schema check accepts only numbers there (api/src/data/schema.py:101-103). So any non-empty load sends an empty list to the warehouse (`Pipeline.TransformRowsRejected`, `Pipeline.RoundInsertsNothing`).
- **`load_to_bigquery` and `insert_data` differ on one case.** When no row passes the check, `load_to_bigquery` still calls the warehouse, with `[]`. `insert_data` returns `False` without a call (`Pipeline.LoaderVersusInsertData`).
- **Unknown tokens silently default.** An unknown timeframe or interval token becomes one hour (`"1 HOUR"`, 3600 s) instead of being rejected; the model follows the code.
- **No timeframe ever reads as `"1h"`.** The service's tests expect that text in the no-data message, but the code can only produce `"1 HOUR"`, `"24 HOUR"` or `"7 DAY"` (`Service.TimeframeText`).
- **Content without a length stops the pipeline round.** A blob whose JSON is `null`, a number or a boolean makes `len(data)` raise `TypeError` (processing/src/pipeline.py:73). The handlers catch only storage and decoding errors, so the round ends there (`Pipeline.ExtractFromGcs`, `Pipeline.RunRound`).
- **The lookup raises on its own query's output.** The unary query selects `UNIX_SECONDS(timestamp)`, an integer. The lookup then calls `.timestamp()` on that value, which raises `AttributeError`. That error is not a `GoogleAPIError`, so it leaves the method (`Service.IntegerTimestampRaises`). The model lets the warehouse return either a `datetime` or an integer, and states both outcomes.
- **Every unary response has an `"error"` key.** It holds `None` when data was found. `to_dict` always includes the field (`Service.ResponseAlwaysHasError`).
- **`__post_init__` never runs.** The record's handwritten `__init__` replaces the generated one, and only the generated one calls `__post_init__`. Only the ticker is therefore checked (`Models.ConstructorSkipsRangeChecks`). `__post_init__` is modelled on its own as written; there the last failing check decides the message, not the first (`Models.PostInitLastFailureWins`).
- **The example timestamp is a year off.** The test data describe epoch second 1711540800 as 2025-03-27 12:00:00 UTC. It is 2024-03-27; the 2025 date is 1743076800 (`IsoTime.ExampleTimestamps`).
- **Missing imports.** processing/src/sentiment.py uses `List` and `datetime` without importing them. The model gives the logic the module evidently intends.

## Model

| member | source | states |
|---|---|---|
| Dynamic.Truthy | api/src/data/models.py:35 | Python truthiness: empty strings, zero, `False` and `None` are false, a `datetime` is true |
| Dynamic.ValidTicker | api/src/data/models.py:35-37 | a good ticker is non-empty, ASCII alphanumeric and at most five characters |
| Dynamic.StrLe | processing/src/pipeline.py:71 | Python's `<=` on strings: code-point lexicographic, a prefix first; its order properties are `Dynamic.StrLeTotal`, `Dynamic.StrLeAntisymmetric` and `Dynamic.StrLeTransitive` |
| Dynamic.StrLeReflexive | processing/src/pipeline.py:71 | every string is `<=` itself |
| Dynamic.StrLeTotal | processing/src/pipeline.py:71 | any two strings are comparable |
| Dynamic.StrLeAntisymmetric | processing/src/pipeline.py:71 | two strings each `<=` the other are equal |
| Dynamic.StrLeTransitive | processing/src/pipeline.py:71 | `<=` on strings is transitive |
| Dynamic.Trunc | processing/src/bigquery.py:129 | `int()` of a float truncates toward zero: the result is within one of the argument, below it for positive and above it for negative arguments |
| Seqs.Filter | processing/src/pipeline.py:168 | a filtering comprehension keeps only elements satisfying the predicate and never grows the list |
| Seqs.FilterMembership | processing/src/pipeline.py:168 | an element is in the filtered list exactly when it is in the input and satisfies the predicate |
| Seqs.FilterIsSubsequence | processing/src/pipeline.py:168 | the filtered rows keep their input order (they form a subsequence) |
| Seqs.FilterMultiset | processing/src/pipeline.py:168 | a passing element is kept as many times as it occurs in the input; a failing one not at all |
| Seqs.FilterEmpty | processing/src/bigquery.py:64-70 | the filtered list is empty exactly when no element satisfies the predicate |
| Models.NewScore | api/src/data/models.py:29-37 | with a `str` ticker the fields are stored as passed; the error is replaced by the ticker message exactly when the ticker is empty, not alphanumeric or longer than 5; the record is valid iff the ticker is good and no error was passed |
| Models.MakeScore | api/src/data/models.py:29-37 | the constructor raises `AttributeError` exactly for a truthy non-string ticker; otherwise the fields are kept, a good string ticker keeps the passed error, any other ticker gets the ticker message, and the record is valid iff the ticker is a good string and no error was passed |
| Models.IsValid | api/src/data/models.py:59-62 | a record is valid exactly when no error is recorded |
| Models.PostInitResult | api/src/data/models.py:44-57 | `__post_init__` raises exactly for a non-number score; otherwise only the error changes, to the count message when the count fails, else the timestamp message when that fails, else the score message when that fails, else the ticker message when that fails, and is kept when every check passes |
| Models.PostInit | api/src/data/models.py:44-57 | the check-by-check method computes `PostInitResult` and changes nothing but the error |
| Models.PostInitValidIff | api/src/data/models.py:44-57 | from no error, `__post_init__` leaves a valid record exactly when every field constraint holds |
| Models.PostInitLastFailureWins | api/src/data/models.py:44-57 | with every field wrong the count message (the last check) is left, not the ticker message |
| Models.PostInitSkipsAlnum | api/src/data/models.py:35-47 | `__post_init__` accepts a ticker with `_` that `__init__` rejects |
| Models.ToDict | api/src/data/models.py:83-90 | the dictionary has exactly the five field keys, each holding its field |
| Models.FromDict | api/src/data/models.py:75-81 | `from_dict` raises exactly for a truthy non-string ticker; otherwise each field is the dictionary's entry or its default, and the error is the dictionary's error entry (`None` when missing) under a good string ticker, the ticker message under any other ticker, including a missing one |
| Models.FromDictDefaults | api/src/data/models.py:75-81 | each missing key separately defaults: the ticker to `""` (and the ticker message), the score to `0.0`, the timestamp and count to `0`, the error to `None`, which a good ticker keeps |
| Models.FromDictRaises | api/src/data/models.py:75-81 | `from_dict` raises exactly when the ticker entry is truthy and not a string |
| Models.DictRoundTrip | api/src/data/models.py:75-90 | a five-key dictionary with a good ticker survives `to_dict(from_dict(d))` |
| Models.RecordRoundTrip | api/src/data/models.py:75-90 | every constructed record survives `from_dict(to_dict(s))` |
| Models.InvalidTickerExample | api/src/data/models.py:112-119 | the module's example record with ticker `INVALID_TICKER` is invalid |
| Models.ConstructorSkipsRangeChecks | api/src/data/models.py:29-37 | a score of 2.0 with negative timestamp and count is valid under the handwritten constructor |
| Schema.SchemaCompatible | api/src/data/schema.py:75-111 | the guard chain in the source's order: required keys, ticker, score, timestamp, count, optional source; its meaning is stated by `Schema.SchemaIsColumnwise` |
| Schema.SchemaIsColumnwise | api/src/data/schema.py:75-111 | the ordered guard chain accepts a row exactly when the four required keys are present and every entry satisfies its column's rule |
| Schema.MissingFieldRejected | api/src/data/schema.py:85-92 | a row lacking a required key is rejected |
| Schema.SingleFieldChange | api/src/data/schema.py:94-111 | changing one entry of an accepted row keeps it accepted iff the new value satisfies that column's rule |
| Schema.ExtraKeysIgnored | api/src/data/schema.py:85-111 | keys outside the five columns never change the verdict |
| Schema.ColumnEdgeCases | api/src/data/schema.py:95-109 | boundary scores and a boolean count pass; a `datetime` or string timestamp, a `None` source and a six-character ticker fail |
| Schema.ExampleRows | api/src/data/schema.py:124-139 | the module's valid example row passes and its invalid one fails |
| IsoTime.ReplaceZ | processing/src/sentiment.py:91 | `replace("Z", "+00:00")` leaves no `Z` and is the identity on strings without one |
| IsoTime.FormatIsoUtc | ingestion/src/fetcher.py:107 | `isoformat()` of an aware UTC time: 25 characters ending in `+00:00` |
| IsoTime.ParseIsoUtc | processing/src/sentiment.py:91 | a `fromisoformat` reading of the explicit-UTC form; its meaning is stated by `IsoTime.FormatThenParse` and `IsoTime.ParseThenFormat` |
| IsoTime.FormatThenParse | processing/src/sentiment.py:91 | reading back an explicit-UTC ISO string of a valid time gives that time's epoch second |
| IsoTime.ParseThenFormat | processing/src/sentiment.py:91 | every string the reader accepts is exactly the formatted form of its fields |
| IsoTime.YearLength | processing/src/sentiment.py:91 | consecutive years start 366 days apart in leap years and 365 otherwise |
| IsoTime.NextDayIsOneDayLater | processing/src/sentiment.py:91 | the calendar's successor date has the next day number, across month and year ends |
| IsoTime.EpochOrder | processing/src/pipeline.py:70-71 | comparing times field by field (year first) agrees with comparing their epoch seconds |
| IsoTime.EpochOrigin | processing/src/sentiment.py:91 | 1970-01-01T00:00:00 is second 0 |
| IsoTime.ExampleTimestamps | processing/tests/test_pipeline.py:28 | `2025-03-27T12:00:00Z` reads as 1743076800 and `2024-03-27T12:00:00Z` as 1711540800 |
| Sentiment.AnalyzeText | processing/src/sentiment.py:25-66 | a score is produced iff the text is a non-empty string, the ticker a valid one and the scorer succeeds; it is then a valid one-point record with the scorer's polarity |
| Sentiment.ItemTimestamp | processing/src/sentiment.py:86-97 | an `int` (or `bool`) timestamp is kept; a string is replaced by the reader's second after `Z` becomes `+00:00`, or skips the item when the reader fails; a missing key or any other value skips the item |
| Sentiment.ItemScore | processing/src/sentiment.py:84-101 | an item with a usable timestamp is scored by `analyze_text` on its text and ticker (defaulting to `""`) at that timestamp; an item without one is skipped; a score is valid, one data point, integer timestamp |
| Sentiment.ScoreItems | processing/src/sentiment.py:82-104 | the batch result is no longer than the input and every element is valid with one data point and an integer timestamp |
| Sentiment.BatchScores | processing/src/sentiment.py:78-104 | what the batch returns: nothing for an empty list or a non-list, the in-order item scores otherwise |
| Sentiment.AnalyzeBatch | processing/src/sentiment.py:68-104 | the loop returns exactly the specified batch scores (none for an empty list or a non-list) |
| Sentiment.ScoreItemsAppend | processing/src/sentiment.py:82-104 | scoring a concatenation is the concatenation of the scorings |
| Sentiment.BadItemIsolated | processing/src/sentiment.py:82-104 | an item that yields no score leaves every other item's score untouched |
| Sentiment.Survivors | processing/src/sentiment.py:82-104 | the surviving positions are in range and strictly increasing |
| Sentiment.ScoreItemsAreSurvivors | processing/src/sentiment.py:82-104 | the k-th output is the score of the k-th surviving item, and an item survives iff it yields a score |
| Sentiment.CreatedAtIsIgnored | processing/src/sentiment.py:84-97 | items without a `timestamp` key yield no scores at all |
| Sentiment.SingleIsoItem | processing/src/sentiment.py:84-101 | a single item with text, valid ticker and an accepted ISO string is scored once at the reader's second |
| BigQuery.InsertData | processing/src/bigquery.py:46-82 | no call for a non-list, empty list or no passing row; otherwise one call with the filtered list: the passing rows in input order, each as many times as it occurs; success iff no errors are reported |
| BigQuery.MapRow | processing/src/bigquery.py:125-133 | a read-back row has the five schema keys, the stored values, the stored second truncated toward zero (within one second of it, and equal for whole seconds), and `None` for a NULL source |
| BigQuery.MapRows | processing/src/bigquery.py:125-134 | rows are mapped one for one, in the store's order |
| BigQuery.MappedRowSchema | processing/src/bigquery.py:125-133 | a read-back row passes the schema check iff its ticker has at most 5 characters, its score is in range, its count is non-negative and its source is not NULL |
| BigQuery.QueryData | processing/src/bigquery.py:84-139 | no query iff the ticker is empty or the window is empty or inverted; otherwise the request is for that window and the result is the mapped rows, or `[]` on failure |
| BigQuery.GetLatestRecord | processing/src/bigquery.py:141-188 | no query iff the ticker is empty; a record iff the query returns rows, and then the first row mapped |
| BigQuery.LatestIsHeadOfQuery | processing/src/bigquery.py:171-183 | on the same store answer the latest record is the head of `query_data`'s result |
| Pipeline.MaxName | processing/src/pipeline.py:70-71 | the chosen name is in the listing and no name exceeds it in Python's string order |
| Pipeline.MaxNameUnique | processing/src/pipeline.py:70-71 | any listed name that no other name exceeds is the one chosen |
| Pipeline.ExtractFromGcs | processing/src/pipeline.py:51-80 | a blob is downloaded iff the listing is non-empty, and it is the greatest name; the result is its content, `[]` on an empty listing, a storage error or undecodable JSON, and a raised `TypeError` exactly for content without a length |
| Pipeline.ScoreRow | processing/src/pipeline.py:98-105 | the row of one score has the five schema columns, carries the score's ticker, score and count, and fails the schema check |
| Pipeline.ScoreRows | processing/src/pipeline.py:98-107 | one row per score, in order |
| Pipeline.Transform | processing/src/pipeline.py:82-109 | the rows are the batch scores one for one with `datetime` timestamps and source `X`; the transform fails iff some second is outside `datetime`'s range |
| Pipeline.TransformEmpty | processing/src/pipeline.py:91-93 | an empty list transforms to no rows, whatever the scorer and the ISO reader are |
| Pipeline.TransformRowsRejected | processing/src/pipeline.py:98-109 | every transformed row fails the schema check |
| Pipeline.LoadToBigQuery | processing/src/pipeline.py:150-183 | no call for an empty list; otherwise one call with the filtered list: the passing rows in input order, each as many times as it occurs; success iff no errors are reported |
| Pipeline.LoaderVersusInsertData | processing/src/pipeline.py:163-174 | the loader equals `insert_data` when some row passes; when none does, `insert_data` makes no call and the loader sends `[]` |
| Pipeline.RunRound | processing/src/pipeline.py:193-203 | a round extracts under `tweets`; if the extract raised it ends there, otherwise it transforms what it extracted and loads exactly when the transform did not raise |
| Pipeline.RoundInsertsNothing | processing/src/pipeline.py:193-203 | whatever the storage returns, a round never sends a non-empty list to the warehouse |
| Pipeline.FetchedRecordsNeverLoad | processing/src/pipeline.py:92-109 | records without `timestamp` transform to no rows, and the load fails without a call |
| Service.TimeframeText | api/src/service.py:55-61 | each known timeframe has its own interval text; an unknown one reads as one hour |
| Service.IntervalSeconds | api/src/service.py:126-131 | each known interval has its own width; an unknown one reads as 3600 seconds |
| Service.ErrorResponse | api/src/service.py:99 | an error response is a dictionary with the single key `error` holding the message |
| Service.GetStockSentiment | api/src/service.py:37-99 | an invalid ticker gets the validation error with no query; a failure gets the internal-error message; no rows gets a no-data record; a row gets its truncated values, or an `AttributeError` when its timestamp is an integer |
| Service.ResponseAlwaysHasError | api/src/service.py:80-99 | every response has an `error` key, `None` exactly when data was found |
| Service.ResponseReadsBack | api/src/service.py:80-96 | a data or no-data response reads back through `from_dict` as a record for the ticker, valid iff data was found |
| Service.IntegerTimestampRaises | api/src/service.py:80-89 | a row whose timestamp is an integer, as the query produces, makes the lookup raise |
| Service.DataMessages | api/src/service.py:156-162 | one data message per row, in order, tagged with the requested ticker |
| Service.StreamRequestOf | api/src/service.py:117-151 | a query is issued iff the ticker is valid and start precedes end, with the interval's width |
| Service.StreamMessages | api/src/service.py:117-165 | everything the stream yields: one error for a rejected request, else the data messages followed by the query's error, if any |
| Service.StreamStockSentiment | api/src/service.py:101-165 | the generator yields exactly the specified messages and issues exactly the specified request |
| Service.RejectedStream | api/src/service.py:117-124 | a rejected request yields a single error message, ticker check first, and no query |
| Service.ErrorIsLast | api/src/service.py:153-165 | at most one error is yielded and only as the last message; everything before it is data for the ticker |
| Service.StreamFollowsRows | api/src/service.py:153-165 | a valid request yields the rows one for one in order, then an error exactly when the query failed |
| Service.NoDataAsymmetry | api/src/service.py:90-96 | on an empty answer the lookup returns a no-data record while the stream yields nothing |
| Fetcher.UpperRun | ingestion/src/fetcher.py:130 | the run at a position consists of capitals and is maximal |
| Fetcher.MatchesAt | ingestion/src/fetcher.py:130 | `\$[A-Z]{1,5}\b` matches at a position: a `$`, a maximal run of one to five capitals, then the end or a non-word character |
| Fetcher.FirstMatch | ingestion/src/fetcher.py:130 | the search position is a match with no match before it, or there is no match at all |
| Fetcher.ExtractTicker | ingestion/src/fetcher.py:118-131 | the result is empty or 1 to 5 capitals; empty iff the pattern matches nowhere; otherwise it is the text after a matching `$` |
| Fetcher.TickerOccurs | ingestion/src/fetcher.py:130-131 | a found ticker follows a `$` in the text and ends at a word boundary |
| Fetcher.TickerIsLeftmost | ingestion/src/fetcher.py:130 | if any position matches, a ticker is found, at the leftmost match |
| Fetcher.FirstDollarTicker | ingestion/src/fetcher.py:130-131 | the capitals after the first `$`, followed by a non-word character or the end, are the ticker |
| Fetcher.ExtractTickerFindsAapl | ingestion/tests/test_fetcher.py:102-108 | `"Loving $AAPL today!"` gives `AAPL` |
| Fetcher.NoDollarNoTicker | ingestion/src/fetcher.py:130-131 | text without `$` gives no ticker |
| Fetcher.ExtractTickerFindsNone | ingestion/tests/test_fetcher.py:110-116 | `"Loving tech today!"` gives no ticker |
| Fetcher.ExtractTickerRejects | ingestion/src/fetcher.py:130 | six capitals, or capitals glued to a word character, give no ticker |
| Fetcher.TweetRecord | ingestion/src/fetcher.py:103-110 | the raw record has exactly five keys and no `timestamp`: the tweet's id and text, its creation time in ISO form, the author's name or `unknown`, and the extracted ticker |
| Fetcher.CreatedAtReadsBack | ingestion/src/fetcher.py:107 | the ISO creation time the fetcher writes reads back, after the `Z` replacement, as the tweet's epoch second |
| Fetcher.FetchedTweetsScoreNothing | ingestion/src/fetcher.py:103-110 | the batch analyzer scores none of the fetcher's records |
| Fetcher.Stamp | ingestion/src/fetcher.py:148 | the `strftime` stamp of a time is 19 characters long |
| Fetcher.BlobName | ingestion/src/fetcher.py:149 | a blob name is exactly the prefix, `/`, the time's 19-character stamp (`Fetcher.Stamp`) and `.json` |
| Fetcher.UploadToGcs | ingestion/src/fetcher.py:133-159 | no blob for empty data; otherwise the blob named after the clock, and a `gs://` URI iff the upload succeeds |
| Fetcher.StampOrder | ingestion/src/fetcher.py:148 | the `strftime` stamps compare as the times' fields do |
| Fetcher.BlobNameOrder | ingestion/src/fetcher.py:148-149 | blob names under one prefix compare exactly as their upload times |
| Fetcher.ExtractPicksLatestUpload | ingestion/src/fetcher.py:148-149 | among blobs all named by the uploader, the pipeline's greatest name is the most recent upload |
| Fetcher.TweetQuery | ingestion/src/fetcher.py:172 | the query is the ticker, ` $`, the ticker again, and then exactly ` -filter:retweets -filter:replies lang:en` |
| Fetcher.PassUploads | ingestion/src/fetcher.py:170-175 | what one pass uploads: each non-empty fetch, in ticker order |
| Fetcher.IngestPass | ingestion/src/fetcher.py:170-175 | one query per ticker in order, and the specified uploads |
| Fetcher.PassUploadsNonEmpty | ingestion/src/fetcher.py:170-175 | no empty batch is uploaded, and there is at most one upload per ticker |

## Left out

- Network and cloud clients: the X API, the blob store, the warehouse and TextBlob are parameters and are not modelled. So are their authentication, retries, timeouts and the gRPC transport.
- SQL semantics: grouping by `FLOOR(UNIX_SECONDS(timestamp) / interval)`, averaging and ordering are the warehouse's business. The warehouse is a parameter returning rows, so bucket contents and ordering are not proved. The unary query names parameters it never binds (only the ticker is bound). `query_data` and `get_latest_record` apply `TIMESTAMP_SECONDS` to a `TIMESTAMP` column. Whether BigQuery accepts these queries is what the parameters' answers stand for.
- The `while True` loops and `time.sleep` of both `run` methods are not modelled. One round or pass is (`Pipeline.RunRound`, `Fetcher.IngestPass`).
- `fetch_tweets`' API call, its rate-limit waiting and the query/field selection sent to the API are left out. The record it builds from each post is modelled (`Fetcher.TweetRecord`).
- Metrics (Prometheus counters) and logging.
- Cancellation of a stream by a client disconnect after some messages: the model yields the whole sequence.
- The HTTP/gRPC server, settings, the storage helper module and the load-test script are not part of this model.
- `json.loads` and `json.dumps` are folded into the download parameter's reply (content, or an invalid-JSON failure) and into the upload parameter.
- List items are taken to be dictionaries, as the batch analyzer's parameter annotation declares (processing/src/sentiment.py:68). A blob whose list holds other values is not modelled.
- The ticker pattern's `[A-Z]` and `\b`, and `str.isalnum`, are taken to be ASCII: a word character is an ASCII letter, digit or `_`, and an alphanumeric ticker is ASCII letters and digits. Python's `\b` and `isalnum` on `str` also accept other Unicode letters and digits.
- The missing `List` and `datetime` imports of processing/src/sentiment.py are dropped: as written, the annotation at processing/src/sentiment.py:68 raises `NameError` when the module loads, so the processing side never runs. The model gives the logic the module evidently intends, not the import failure.
- The creation time of a post is modelled without microseconds. `isoformat` would append them if the API returned any.
- Floating point: scores are `real`. `float()` of a warehouse value is taken to be exact.
- Fetcher.Stamp: uses four-digit zero-padded years. The C library's `%Y` does not pad years below 1000, so blob names for those years are not modelled faithfully.
- IsoTime.ParseIsoUtc: accepts only the explicit-UTC form `YYYY-MM-DDTHH:MM:SS+00:00`. The batch analyzer takes any `fromisoformat` reader as a parameter, so the other forms are covered only abstractly.
- Sentiment.AnalyzeText: uses a polarity parameter that returns any real. TextBlob's guarantee that polarity lies in [-1, 1] is not assumed, matching the code, which does not check it.
- The protocol buffer enums' numeric codes are abstracted into named constructors plus an `Other` case carrying any other code.
