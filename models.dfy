/** The `SentimentScore` record of api/src/data/models.py.

    Python stores whatever the caller passes, so every field is a `Value`. The
    handwritten `__init__` (`MakeScore`) is what runs: it checks the ticker only.
    The dataclass's `__post_init__`, which would check every field, is called only
    by a generated `__init__`, which the handwritten one replaces; `PostInit`
    models it as the standalone validation it would be. */
module Models {
  import opened Dynamic

  const TickerError := "Ticker must be a non-empty string (max 5 characters)"
  const ScoreError := "Sentiment score must be between -1.0 and 1.0"
  const TimestampError := "Timestamp must be a non-negative integer"
  const CountError := "Data point count must be a non-negative integer"

  datatype SentimentScore = SentimentScore(
    ticker: Value,
    sentimentScore: Value,
    timestamp: Value,
    dataPointCount: Value,
    error: Value)

  /** Python exceptions that the record's code can raise. */
  datatype Exception = AttributeError | TypeError

  datatype Outcome<T> = Ok(value: T) | Raise(exception: Exception)

  /** `is_valid`: no error is recorded. */
  predicate IsValid(s: SentimentScore)
  {
    s.error == VNone
  }

  /** `__init__` with a `str` ticker: the four fields and the error are stored as
      passed, then a bad ticker overwrites the error. */
  function NewScore(ticker: string, score: Value, timestamp: Value, count: Value, error: Value): (s: SentimentScore)
    ensures s.ticker == VStr(ticker) && s.sentimentScore == score
    ensures s.timestamp == timestamp && s.dataPointCount == count
    ensures s.error == (if ValidTicker(ticker) then error else VStr(TickerError))
    ensures IsValid(s) <==> ValidTicker(ticker) && error == VNone
  {
    var stored := SentimentScore(VStr(ticker), score, timestamp, count, error);
    if !ValidTicker(ticker) then stored.(error := VStr(TickerError)) else stored
  }

  /** `SentimentScore(ticker, sentiment_score, timestamp, data_point_count, error)`.
      A falsy ticker sets the error without looking further; a truthy ticker that
      is not a `str` has no `isalnum` and raises `AttributeError`. */
  function MakeScore(ticker: Value, score: Value, timestamp: Value, count: Value, error: Value): (r: Outcome<SentimentScore>)
    ensures r.Raise? <==> Truthy(ticker) && !ticker.VStr?
    ensures r.Ok? ==> r.value.ticker == ticker && r.value.sentimentScore == score
    ensures r.Ok? ==> r.value.timestamp == timestamp && r.value.dataPointCount == count
    ensures r.Ok? ==> (IsValid(r.value) <==> ticker.VStr? && ValidTicker(ticker.s) && error == VNone)
    ensures r.Ok? && !(ticker.VStr? && ValidTicker(ticker.s)) ==> r.value.error == VStr(TickerError)
    ensures r.Ok? && ticker.VStr? && ValidTicker(ticker.s) ==> r.value.error == error
  {
    if !Truthy(ticker) then Ok(SentimentScore(ticker, score, timestamp, count, VStr(TickerError)))
    else if ticker.VStr? then Ok(NewScore(ticker.s, score, timestamp, count, error))
    else Raise(AttributeError)
  }

  /** The four checks of `__post_init__`, each as the condition under which it
      overwrites the error. The ticker check tests emptiness, type and length,
      but not `isalnum`. */
  predicate PostInitTickerFails(s: SentimentScore)
  {
    !Truthy(s.ticker) || !s.ticker.VStr? || |s.ticker.s| > 5
  }

  predicate PostInitScoreFails(s: SentimentScore)
    requires IsNumber(s.sentimentScore)
  {
    !(-1.0 <= RealOf(s.sentimentScore) <= 1.0)
  }

  predicate PostInitTimestampFails(s: SentimentScore)
  {
    !IsInt(s.timestamp) || IntOf(s.timestamp) < 0
  }

  predicate PostInitCountFails(s: SentimentScore)
  {
    !IsInt(s.dataPointCount) || IntOf(s.dataPointCount) < 0
  }

  /** What `__post_init__` leaves behind: the LAST failing check decides the
      message, since each one overwrites the error; with no failure the error
      passed in is kept. Comparing a non-number score with `-1.0` raises. */
  function PostInitResult(s: SentimentScore): (r: Outcome<SentimentScore>)
    ensures r.Raise? <==> !IsNumber(s.sentimentScore)
    ensures r.Ok? ==> r.value.(error := s.error) == s
    ensures r.Ok? && PostInitCountFails(s) ==> r.value.error == VStr(CountError)
    ensures r.Ok? && !PostInitCountFails(s) && PostInitTimestampFails(s) ==> r.value.error == VStr(TimestampError)
    ensures r.Ok? && !PostInitCountFails(s) && !PostInitTimestampFails(s) && PostInitScoreFails(s)
      ==> r.value.error == VStr(ScoreError)
    ensures r.Ok? && !PostInitCountFails(s) && !PostInitTimestampFails(s) && !PostInitScoreFails(s) && PostInitTickerFails(s)
      ==> r.value.error == VStr(TickerError)
    ensures r.Ok? && !PostInitCountFails(s) && !PostInitTimestampFails(s) && !PostInitScoreFails(s) && !PostInitTickerFails(s)
      ==> r.value.error == s.error
  {
    if !IsNumber(s.sentimentScore) then Raise(TypeError)
    else
      var error :=
        if PostInitCountFails(s) then VStr(CountError)
        else if PostInitTimestampFails(s) then VStr(TimestampError)
        else if PostInitScoreFails(s) then VStr(ScoreError)
        else if PostInitTickerFails(s) then VStr(TickerError)
        else s.error;
      Ok(s.(error := error))
  }

  /** `__post_init__`, reassigning the error check by check. */
  method PostInit(s: SentimentScore) returns (r: Outcome<SentimentScore>)
    ensures r == PostInitResult(s)
    ensures r.Ok? ==> r.value.(error := s.error) == s
  {
    var error := s.error;
    if !Truthy(s.ticker) || !s.ticker.VStr? || |s.ticker.s| > 5 {
      error := VStr(TickerError);
    }
    if !IsNumber(s.sentimentScore) {
      return Raise(TypeError);
    }
    if !(-1.0 <= RealOf(s.sentimentScore) <= 1.0) {
      error := VStr(ScoreError);
    }
    if !IsInt(s.timestamp) || IntOf(s.timestamp) < 0 {
      error := VStr(TimestampError);
    }
    if !IsInt(s.dataPointCount) || IntOf(s.dataPointCount) < 0 {
      error := VStr(CountError);
    }
    r := Ok(s.(error := error));
  }

  /** Started from no error, `__post_init__` leaves no error exactly when every
      field constraint holds. */
  lemma PostInitValidIff(s: SentimentScore)
    requires s.error == VNone && IsNumber(s.sentimentScore)
    ensures PostInitResult(s).Ok?
    ensures IsValid(PostInitResult(s).value) <==>
      && s.ticker.VStr? && s.ticker.s != "" && |s.ticker.s| <= 5
      && -1.0 <= RealOf(s.sentimentScore) <= 1.0
      && IsInt(s.timestamp) && IntOf(s.timestamp) >= 0
      && IsInt(s.dataPointCount) && IntOf(s.dataPointCount) >= 0
  {
  }

  /** A record with every field wrong reports the count error, the last check,
      not the ticker error a first-failure rule would give. */
  lemma PostInitLastFailureWins()
    ensures PostInitResult(SentimentScore(VStr("INVALID_TICKER"), VReal(2.0), VInt(-1), VInt(-10), VNone))
         == Ok(SentimentScore(VStr("INVALID_TICKER"), VReal(2.0), VInt(-1), VInt(-10), VStr(CountError)))
  {
  }

  /** `__post_init__` accepts a ticker `__init__` rejects: it does not test `isalnum`. */
  lemma PostInitSkipsAlnum()
    ensures MakeScore(VStr("A_B"), VReal(0.5), VInt(0), VInt(1), VNone).value.error == VStr(TickerError)
    ensures PostInitResult(SentimentScore(VStr("A_B"), VReal(0.5), VInt(0), VInt(1), VNone)).value.error == VNone
  {
    assert !IsAsciiAlnum("A_B"[1]);
  }

  /** The keys `asdict` produces. */
  const ScoreKeys: set<string> := {"ticker", "sentiment_score", "timestamp", "data_point_count", "error"}

  /** `to_dict` (`asdict`): one entry per field. */
  function ToDict(s: SentimentScore): (d: Dict)
    ensures d.Keys == ScoreKeys
    ensures d["ticker"] == s.ticker && d["sentiment_score"] == s.sentimentScore
    ensures d["timestamp"] == s.timestamp && d["data_point_count"] == s.dataPointCount
    ensures d["error"] == s.error
  {
    map["ticker" := s.ticker, "sentiment_score" := s.sentimentScore, "timestamp" := s.timestamp,
        "data_point_count" := s.dataPointCount, "error" := s.error]
  }

  /** `from_dict`: the constructor applied to the dictionary's entries, a missing
      key standing for `""`, `0.0`, `0`, `0` and `None`. */
  function FromDict(d: Dict): (r: Outcome<SentimentScore>)
    ensures r.Raise? <==> "ticker" in d && Truthy(d["ticker"]) && !d["ticker"].VStr?
    ensures r.Ok? ==> r.value.ticker == (if "ticker" in d then d["ticker"] else VStr(""))
    ensures r.Ok? ==> r.value.sentimentScore == (if "sentiment_score" in d then d["sentiment_score"] else VReal(0.0))
    ensures r.Ok? ==> r.value.timestamp == (if "timestamp" in d then d["timestamp"] else VInt(0))
    ensures r.Ok? ==> r.value.dataPointCount == (if "data_point_count" in d then d["data_point_count"] else VInt(0))
    ensures r.Ok? ==>
      r.value.error == (if r.value.ticker.VStr? && ValidTicker(r.value.ticker.s)
                        then (if "error" in d then d["error"] else VNone)
                        else VStr(TickerError))
  {
    MakeScore(
      Get(d, "ticker", VStr("")),
      Get(d, "sentiment_score", VReal(0.0)),
      Get(d, "timestamp", VInt(0)),
      Get(d, "data_point_count", VInt(0)),
      Get(d, "error", VNone))
  }

  /** The defaults of `from_dict`, one key at a time: a missing ticker is `""`,
      which makes the record invalid; a missing score, timestamp or count is
      `0.0`, `0` or `0`; a missing error is `None`, kept under a good ticker. */
  lemma FromDictDefaults(d: Dict)
    ensures "ticker" !in d ==>
      FromDict(d).Ok? && FromDict(d).value.ticker == VStr("") && FromDict(d).value.error == VStr(TickerError)
    ensures "sentiment_score" !in d && FromDict(d).Ok? ==> FromDict(d).value.sentimentScore == VReal(0.0)
    ensures "timestamp" !in d && FromDict(d).Ok? ==> FromDict(d).value.timestamp == VInt(0)
    ensures "data_point_count" !in d && FromDict(d).Ok? ==> FromDict(d).value.dataPointCount == VInt(0)
    ensures "error" !in d && FromDict(d).Ok? && !IsValid(FromDict(d).value) ==> FromDict(d).value.error == VStr(TickerError)
    ensures "error" !in d && "ticker" in d && d["ticker"].VStr? && ValidTicker(d["ticker"].s) ==>
      FromDict(d).Ok? && IsValid(FromDict(d).value)
  {
  }

  /** `from_dict` fails exactly when the ticker entry is truthy and not a `str`. */
  lemma FromDictRaises(d: Dict)
    ensures FromDict(d).Raise? <==> "ticker" in d && Truthy(d["ticker"]) && !d["ticker"].VStr?
  {
  }

  /** A dictionary with exactly the five keys and a valid ticker survives
      `to_dict(from_dict(d))` unchanged. */
  lemma DictRoundTrip(d: Dict)
    requires d.Keys == ScoreKeys
    requires d["ticker"].VStr? && ValidTicker(d["ticker"].s)
    ensures FromDict(d).Ok? && ToDict(FromDict(d).value) == d
  {
    var e := ToDict(FromDict(d).value);
    assert e.Keys == d.Keys;
    forall k | k in d ensures e[k] == d[k] {
    }
  }

  /** Every record the constructor produces survives `from_dict(to_dict(s))`. */
  lemma {:induction false} RecordRoundTrip(ticker: Value, score: Value, timestamp: Value, count: Value, error: Value)
    requires MakeScore(ticker, score, timestamp, count, error).Ok?
    ensures FromDict(ToDict(MakeScore(ticker, score, timestamp, count, error).value))
         == MakeScore(ticker, score, timestamp, count, error)
  {
    var s := MakeScore(ticker, score, timestamp, count, error).value;
    var d := ToDict(s);
    assert Get(d, "ticker", VStr("")) == ticker;
    assert Get(d, "error", VNone) == s.error;
    if ticker.VStr? && ValidTicker(ticker.s) {
      assert s.error == error;
    } else {
      assert s.error == VStr(TickerError);
    }
  }

  /** The record of the module's own example, ticker "INVALID_TICKER", is not valid. */
  lemma InvalidTickerExample()
    ensures MakeScore(VStr("INVALID_TICKER"), VReal(2.0), VInt(-1), VInt(-10), VNone).Ok?
    ensures !IsValid(MakeScore(VStr("INVALID_TICKER"), VReal(2.0), VInt(-1), VInt(-10), VNone).value)
  {
  }

  /** Only the ticker is checked: a score of 2.0 with a negative timestamp and
      count is a valid record under the handwritten constructor. */
  lemma ConstructorSkipsRangeChecks()
    ensures MakeScore(VStr("AAPL"), VReal(2.0), VInt(-1), VInt(-10), VNone).Ok?
    ensures IsValid(MakeScore(VStr("AAPL"), VReal(2.0), VInt(-1), VInt(-10), VNone).value)
  {
    assert ValidTicker("AAPL") by {
      assert forall k :: 0 <= k < 4 ==> IsAsciiAlnum("AAPL"[k]);
    }
  }
}
