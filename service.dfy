/** `SentimentService` of api/src/service.py: the unary sentiment lookup and the
    historical stream.

    The warehouse is a parameter: `aggregate(ticker)` is the result of the unary
    query (which binds the ticker only), and `history(request)` the rows the
    streaming query yields before it ends or fails. */
module Service {
  import opened Dynamic
  import opened Models

  const InvalidTickerMessage := "Ticker must be a valid alphanumeric string (max 5 characters)"
  const InvalidRangeMessage := "Start time must be less than end time"
  const InternalErrorPrefix := "Internal server error: "

  /** The `Timeframe` enum of the service's protocol; any other code is
      representable on the wire. */
  datatype Timeframe = Timeframe1H | Timeframe1D | Timeframe1W | OtherTimeframe(code: int)

  /** The `Interval` enum of the service's protocol. */
  datatype Interval = Interval1M | Interval1H | Interval1D | OtherInterval(code: int)

  /** The interval text of a timeframe; an unknown code silently reads as one hour. */
  function TimeframeText(tf: Timeframe): (text: string)
    ensures text in {"1 HOUR", "24 HOUR", "7 DAY"}
    ensures text == "1 HOUR" <==> tf == Timeframe1H || tf.OtherTimeframe?
    ensures tf == Timeframe1D <==> text == "24 HOUR"
    ensures tf == Timeframe1W <==> text == "7 DAY"
  {
    match tf
    case Timeframe1H => "1 HOUR"
    case Timeframe1D => "24 HOUR"
    case Timeframe1W => "7 DAY"
    case OtherTimeframe(_) => "1 HOUR"
  }

  /** The bucket width of an interval in seconds; an unknown code silently reads
      as one hour. */
  function IntervalSeconds(iv: Interval): (seconds: int)
    ensures seconds in {60, 3600, 86400}
    ensures seconds == 3600 <==> iv == Interval1H || iv.OtherInterval?
    ensures iv == Interval1M <==> seconds == 60
    ensures iv == Interval1D <==> seconds == 86400
  {
    match iv
    case Interval1M => 60
    case Interval1H => 3600
    case Interval1D => 86400
    case OtherInterval(_) => 3600
  }

  /** The `timestamp` column of an aggregate row: a `datetime` (its epoch second,
      with a fraction) or an integer, which is what `UNIX_SECONDS` produces. */
  datatype RowTime = TimeValue(seconds: real) | IntValue(n: int)

  datatype AggregateRow = AggregateRow(score: real, timestamp: RowTime, count: int)

  /** The unary query's outcome: its rows, or a `GoogleAPIError` and its text. */
  datatype AggregateReply = AggregateRows(rows: seq<AggregateRow>) | AggregateFailed(message: string)

  /** A response of the unary call and whether a query was issued. A response
      of `Raise` is an exception that leaves the method. */
  datatype Unary = Unary(response: Outcome<Dict>, queried: bool)

  function ErrorResponse(message: string): (d: Dict)
    ensures d.Keys == {"error"} && d["error"] == VStr(message)
  {
    map["error" := VStr(message)]
  }

  function NoDataMessage(ticker: string, tf: Timeframe): string
  {
    "No data available for " + ticker + " in the last " + TimeframeText(tf)
  }

  /** `get_stock_sentiment`. */
  function GetStockSentiment(aggregate: string -> AggregateReply, ticker: string, tf: Timeframe): (r: Unary)
    ensures !ValidTicker(ticker) ==> r == Unary(Ok(ErrorResponse(InvalidTickerMessage)), false)
    ensures ValidTicker(ticker) ==> r.queried
    ensures ValidTicker(ticker) && aggregate(ticker).AggregateFailed? ==>
      r.response == Ok(ErrorResponse(InternalErrorPrefix + aggregate(ticker).message))
    ensures ValidTicker(ticker) && aggregate(ticker) == AggregateRows([]) ==>
      r.response == Ok(ToDict(SentimentScore(VStr(ticker), VReal(0.0), VInt(0), VInt(0), VStr(NoDataMessage(ticker, tf)))))
    ensures ValidTicker(ticker) && aggregate(ticker).AggregateRows? && aggregate(ticker).rows != [] ==>
      var row := aggregate(ticker).rows[0];
      r.response == (if row.timestamp.TimeValue?
                     then Ok(ToDict(SentimentScore(VStr(ticker), VReal(row.score), VInt(Trunc(row.timestamp.seconds)),
                                                   VInt(row.count), VNone)))
                     else Raise(AttributeError))
  {
    if !ValidTicker(ticker) then Unary(Ok(ErrorResponse(InvalidTickerMessage)), false)
    else
      var response :=
        match aggregate(ticker)
        case AggregateFailed(message) => Ok(ErrorResponse(InternalErrorPrefix + message))
        case AggregateRows(rows) =>
          if rows == [] then
            Ok(ToDict(MakeScore(VStr(ticker), VReal(0.0), VInt(0), VInt(0), VStr(NoDataMessage(ticker, tf))).value))
          else
            var row := rows[0];
            match row.timestamp
            case IntValue(_) => Raise(AttributeError)
            case TimeValue(seconds) =>
              Ok(ToDict(MakeScore(VStr(ticker), VReal(row.score), VInt(Trunc(seconds)), VInt(row.count), VNone).value));
      Unary(response, true)
  }

  /** Every response the lookup returns has an `"error"` key: `None` exactly when
      data was found, a message otherwise. */
  lemma {:induction false} ResponseAlwaysHasError(aggregate: string -> AggregateReply, ticker: string, tf: Timeframe)
    requires GetStockSentiment(aggregate, ticker, tf).response.Ok?
    ensures var body := GetStockSentiment(aggregate, ticker, tf).response.value;
      "error" in body && (body["error"] == VNone <==>
        ValidTicker(ticker) && aggregate(ticker).AggregateRows? && aggregate(ticker).rows != [])
  {
    var body := GetStockSentiment(aggregate, ticker, tf).response.value;
    if ValidTicker(ticker) && aggregate(ticker) == AggregateRows([]) {
      assert body["error"] == VStr(NoDataMessage(ticker, tf));
    }
  }

  /** A data response reads back, through `from_dict`, as the valid record it was
      built from; a no-data response reads back as an invalid one. */
  lemma {:induction false} ResponseReadsBack(aggregate: string -> AggregateReply, ticker: string, tf: Timeframe)
    requires ValidTicker(ticker) && aggregate(ticker).AggregateRows?
    requires GetStockSentiment(aggregate, ticker, tf).response.Ok?
    ensures var body := GetStockSentiment(aggregate, ticker, tf).response.value;
      && FromDict(body).Ok?
      && FromDict(body).value.ticker == VStr(ticker)
      && (IsValid(FromDict(body).value) <==> aggregate(ticker).rows != [])
  {
    var body := GetStockSentiment(aggregate, ticker, tf).response.value;
    var rows := aggregate(ticker).rows;
    if rows == [] {
      RecordRoundTrip(VStr(ticker), VReal(0.0), VInt(0), VInt(0), VStr(NoDataMessage(ticker, tf)));
    } else {
      var row := rows[0];
      RecordRoundTrip(VStr(ticker), VReal(row.score), VInt(Trunc(row.timestamp.seconds)), VInt(row.count), VNone);
    }
  }

  /** The unary query selects `UNIX_SECONDS(timestamp)`, an integer; on such a
      row the lookup raises instead of answering. */
  lemma IntegerTimestampRaises(aggregate: string -> AggregateReply, ticker: string, tf: Timeframe, row: AggregateRow, more: seq<AggregateRow>)
    requires ValidTicker(ticker) && row.timestamp.IntValue?
    requires aggregate(ticker) == AggregateRows([row] + more)
    ensures GetStockSentiment(aggregate, ticker, tf).response == Raise(AttributeError)
  {
  }

  /** The request the stream sends to the warehouse. */
  datatype StreamRequest = StreamRequest(ticker: string, start: int, end: int, intervalSeconds: int)

  datatype StreamRow = StreamRow(score: real, timestamp: int, count: int)

  /** The rows the streaming query yields, and the error that ends it, if any. */
  datatype StreamReply = StreamReply(rows: seq<StreamRow>, failure: Option<string>)

  /** One yielded dictionary: a data point, tagged with the requested ticker, or
      an error. */
  datatype Message =
    | DataMessage(ticker: string, score: real, timestamp: int, count: int)
    | ErrorMessage(text: string)

  function DataMessages(ticker: string, rows: seq<StreamRow>): (ms: seq<Message>)
    ensures |ms| == |rows|
    ensures forall k :: 0 <= k < |rows| ==>
      ms[k] == DataMessage(ticker, rows[k].score, rows[k].timestamp, rows[k].count)
  {
    if rows == [] then [] else DataMessages(ticker, rows[..|rows| - 1]) + [DataMessage(ticker, rows[|rows| - 1].score,
      rows[|rows| - 1].timestamp, rows[|rows| - 1].count)]
  }

  /** The request a valid call sends, if any. */
  function StreamRequestOf(ticker: string, start: int, end: int, iv: Interval): (q: Option<StreamRequest>)
    ensures q.Some? <==> ValidTicker(ticker) && start < end
    ensures q.Some? ==> q.value == StreamRequest(ticker, start, end, IntervalSeconds(iv))
  {
    if !ValidTicker(ticker) || start >= end then None
    else Some(StreamRequest(ticker, start, end, IntervalSeconds(iv)))
  }

  /** Everything the stream yields. */
  function StreamMessages(history: StreamRequest -> StreamReply, ticker: string, start: int, end: int, iv: Interval): seq<Message>
  {
    if !ValidTicker(ticker) then [ErrorMessage(InvalidTickerMessage)]
    else if start >= end then [ErrorMessage(InvalidRangeMessage)]
    else
      var reply := history(StreamRequest(ticker, start, end, IntervalSeconds(iv)));
      DataMessages(ticker, reply.rows)
        + (if reply.failure.Some? then [ErrorMessage(InternalErrorPrefix + reply.failure.value)] else [])
  }

  /** `stream_stock_sentiment`: the guards, then one message per row as the
      query yields them, then the error that ended the query, if any. */
  method StreamStockSentiment(history: StreamRequest -> StreamReply, ticker: string, start: int, end: int, iv: Interval)
    returns (messages: seq<Message>, issued: Option<StreamRequest>)
    ensures messages == StreamMessages(history, ticker, start, end, iv)
    ensures issued == StreamRequestOf(ticker, start, end, iv)
  {
    if !ValidTicker(ticker) {
      return [ErrorMessage(InvalidTickerMessage)], None;
    }
    if start >= end {
      return [ErrorMessage(InvalidRangeMessage)], None;
    }
    var request := StreamRequest(ticker, start, end, IntervalSeconds(iv));
    issued := Some(request);
    var reply := history(request);
    var rows := reply.rows;
    messages := [];
    for i := 0 to |rows|
      invariant messages == DataMessages(ticker, rows[..i])
    {
      assert rows[..i + 1][..i] == rows[..i];
      messages := messages + [DataMessage(ticker, rows[i].score, rows[i].timestamp, rows[i].count)];
    }
    assert rows[..|rows|] == rows;
    if reply.failure.Some? {
      messages := messages + [ErrorMessage(InternalErrorPrefix + reply.failure.value)];
    }
  }

  /** A rejected request yields exactly one error message and issues no query. */
  lemma RejectedStream(history: StreamRequest -> StreamReply, ticker: string, start: int, end: int, iv: Interval)
    requires !ValidTicker(ticker) || start >= end
    ensures StreamRequestOf(ticker, start, end, iv).None?
    ensures |StreamMessages(history, ticker, start, end, iv)| == 1
    ensures StreamMessages(history, ticker, start, end, iv)[0].ErrorMessage?
    ensures StreamMessages(history, ticker, start, end, iv)[0].text ==
      if !ValidTicker(ticker) then InvalidTickerMessage else InvalidRangeMessage
  {
  }

  /** At most one error is yielded, and it is the last message: every message
      before it is a data point tagged with the requested ticker. */
  lemma {:induction false} ErrorIsLast(history: StreamRequest -> StreamReply, ticker: string, start: int, end: int, iv: Interval)
    ensures var ms := StreamMessages(history, ticker, start, end, iv);
      forall k :: 0 <= k < |ms| - 1 ==> ms[k].DataMessage? && ms[k].ticker == ticker
    ensures var ms := StreamMessages(history, ticker, start, end, iv);
      forall k :: 0 <= k < |ms| && ms[k].ErrorMessage? ==> k == |ms| - 1
  {
    var ms := StreamMessages(history, ticker, start, end, iv);
    if ValidTicker(ticker) && start < end {
      var reply := history(StreamRequest(ticker, start, end, IntervalSeconds(iv)));
      var data := DataMessages(ticker, reply.rows);
      forall k | 0 <= k < |ms| - 1 ensures ms[k].DataMessage? && ms[k].ticker == ticker {
        assert ms[k] == data[k];
      }
      forall k | 0 <= k < |ms| && ms[k].ErrorMessage? ensures k == |ms| - 1 {
        if k < |data| {
          assert ms[k] == data[k];
        }
      }
    }
  }

  /** A valid request yields the store's rows one for one, in the store's order,
      followed by an error exactly when the query failed. */
  lemma {:induction false} StreamFollowsRows(history: StreamRequest -> StreamReply, ticker: string, start: int, end: int, iv: Interval)
    requires ValidTicker(ticker) && start < end
    ensures var reply := history(StreamRequest(ticker, start, end, IntervalSeconds(iv)));
      var ms := StreamMessages(history, ticker, start, end, iv);
      && |ms| == |reply.rows| + (if reply.failure.Some? then 1 else 0)
      && (forall k :: 0 <= k < |reply.rows| ==>
            ms[k] == DataMessage(ticker, reply.rows[k].score, reply.rows[k].timestamp, reply.rows[k].count))
      && (reply.failure.Some? ==> ms[|ms| - 1] == ErrorMessage(InternalErrorPrefix + reply.failure.value))
  {
    var reply := history(StreamRequest(ticker, start, end, IntervalSeconds(iv)));
    var ms := StreamMessages(history, ticker, start, end, iv);
    var data := DataMessages(ticker, reply.rows);
    forall k | 0 <= k < |reply.rows|
      ensures ms[k] == DataMessage(ticker, reply.rows[k].score, reply.rows[k].timestamp, reply.rows[k].count)
    {
      assert ms[k] == data[k];
    }
  }

  /** The two calls disagree on an empty answer: the lookup returns a no-data
      record, the stream yields nothing at all. */
  lemma NoDataAsymmetry(aggregate: string -> AggregateReply, history: StreamRequest -> StreamReply,
                        ticker: string, tf: Timeframe, start: int, end: int, iv: Interval)
    requires ValidTicker(ticker) && start < end
    requires aggregate(ticker) == AggregateRows([])
    requires history(StreamRequest(ticker, start, end, IntervalSeconds(iv))) == StreamReply([], None)
    ensures GetStockSentiment(aggregate, ticker, tf).response.value["error"] == VStr(NoDataMessage(ticker, tf))
    ensures StreamMessages(history, ticker, start, end, iv) == []
  {
  }
}
