/** `XDataFetcher` of ingestion/src/fetcher.py: ticker extraction, the raw
    record it writes, blob naming and one pass of the ingestion loop.

    The X API, the bucket and the clock are parameters: `fetch(query)` is what
    `fetch_tweets` returns, `upload(name)` whether `upload_from_string` on that
    blob succeeds, and `now` the value of `datetime.utcnow()`. */
module Fetcher {
  import opened Dynamic
  import opened IsoTime
  import Sentiment
  import Pipeline

  /** The length of the run of ASCII capitals starting at position `j`. */
  function UpperRun(text: string, j: nat): (n: nat)
    ensures j + n <= |text| || (j >= |text| && n == 0)
    ensures forall k :: j <= k < j + n ==> IsAsciiUpper(text[k])
    ensures j + n < |text| ==> !IsAsciiUpper(text[j + n])
    decreases |text| - j
  {
    if j >= |text| || !IsAsciiUpper(text[j]) then 0 else 1 + UpperRun(text, j + 1)
  }

  /** `\$[A-Z]{1,5}\b` matches at position `i`: a `$`, then one to five capitals
      whose maximal run ends the text or is followed by a non-word character.
      (A longer run fails the word boundary on every backtracking length.) */
  predicate MatchesAt(text: string, i: nat)
  {
    && i < |text| && text[i] == '$'
    && 1 <= UpperRun(text, i + 1) <= 5
    && (i + 1 + UpperRun(text, i + 1) == |text| || !IsWordChar(text[i + 1 + UpperRun(text, i + 1)]))
  }

  /** The leftmost match at or after position `i`, as `re.search` finds it. */
  function FirstMatch(text: string, i: nat): (r: Option<nat>)
    ensures r.Some? ==> i <= r.value && MatchesAt(text, r.value)
    ensures r.Some? ==> forall k :: i <= k < r.value ==> !MatchesAt(text, k)
    ensures r.None? ==> forall k :: i <= k ==> !MatchesAt(text, k)
    decreases |text| - i
  {
    if i >= |text| then None
    else if MatchesAt(text, i) then Some(i)
    else FirstMatch(text, i + 1)
  }

  /** `_extract_ticker`: the capitals of the leftmost match, or `""`. */
  function ExtractTicker(text: string): (t: string)
    ensures t == "" || (1 <= |t| <= 5 && forall k :: 0 <= k < |t| ==> IsAsciiUpper(t[k]))
    ensures t == "" <==> forall i :: 0 <= i ==> !MatchesAt(text, i)
    ensures t != "" ==> exists i: nat :: MatchesAt(text, i) && i + 1 + |t| <= |text| && text[i + 1..i + 1 + |t|] == t
  {
    match FirstMatch(text, 0)
    case None => ""
    case Some(i) => text[i + 1..i + 1 + UpperRun(text, i + 1)]
  }

  /** A non-empty result occurs in the text right after a `$`, and is followed
      by a non-word character or the end of the text. */
  lemma TickerOccurs(text: string)
    requires ExtractTicker(text) != ""
    ensures var t := ExtractTicker(text);
      exists i :: 0 <= i < |text| - |t| && text[i] == '$' && text[i + 1..i + 1 + |t|] == t
        && (i + 1 + |t| == |text| || !IsWordChar(text[i + 1 + |t|]))
  {
    var t := ExtractTicker(text);
    var i := FirstMatch(text, 0).value;
    assert 0 <= i < |text| - |t| && text[i] == '$' && text[i + 1..i + 1 + |t|] == t;
  }

  /** The result comes from the leftmost `$` that qualifies: no earlier `$`
      matches. */
  lemma TickerIsLeftmost(text: string, j: nat)
    requires MatchesAt(text, j)
    ensures ExtractTicker(text) != ""
    ensures var i := FirstMatch(text, 0).value;
      i <= j && ExtractTicker(text) == text[i + 1..i + 1 + UpperRun(text, i + 1)]
  {
  }

  /** The capitals run exactly as far as the text says. */
  lemma {:induction false} UpperRunIs(text: string, j: nat, n: nat)
    requires j + n <= |text|
    requires forall k :: j <= k < j + n ==> IsAsciiUpper(text[k])
    requires j + n == |text| || !IsAsciiUpper(text[j + n])
    ensures UpperRun(text, j) == n
    decreases n
  {
    if n > 0 {
      UpperRunIs(text, j + 1, n - 1);
    }
  }

  /** A `$` that is the first one in the text, followed by one to five capitals
      and then a non-word character or the end, gives those capitals. */
  lemma {:induction false} FirstDollarTicker(pre: string, t: string, post: string)
    requires '$' !in pre
    requires 1 <= |t| <= 5 && forall k :: 0 <= k < |t| ==> IsAsciiUpper(t[k])
    requires post == [] || !IsWordChar(post[0])
    ensures ExtractTicker(pre + "$" + t + post) == t
  {
    var text := pre + "$" + t + post;
    var i := |pre|;
    assert text[i] == '$';
    forall k | i + 1 <= k < i + 1 + |t| ensures IsAsciiUpper(text[k]) {
      assert text[k] == t[k - i - 1];
    }
    if post != [] {
      assert text[i + 1 + |t|] == post[0];
    }
    UpperRunIs(text, i + 1, |t|);
    assert MatchesAt(text, i);
    forall k | 0 <= k < i ensures !MatchesAt(text, k) {
      assert text[k] == pre[k];
      assert pre[k] in pre;
    }
    assert text[i + 1..i + 1 + |t|] == t;
  }

  /** The first example of the fetcher's tests. */
  lemma ExtractTickerFindsAapl()
    ensures ExtractTicker("Loving $AAPL today!") == "AAPL"
  {
    assert "Loving " + "$" + "AAPL" + " today!" == "Loving $AAPL today!";
    FirstDollarTicker("Loving ", "AAPL", " today!");
  }

  /** Text without a `$` has no ticker. */
  lemma NoDollarNoTicker(text: string)
    requires '$' !in text
    ensures ExtractTicker(text) == ""
  {
    forall k | 0 <= k ensures !MatchesAt(text, k) {
      if k < |text| {
        assert text[k] in text;
      }
    }
  }

  /** The second example of the fetcher's tests. */
  lemma ExtractTickerFindsNone()
    ensures ExtractTicker("Loving tech today!") == ""
  {
    NoDollarNoTicker("Loving tech today!");
  }

  /** A run of six capitals or one glued to a word character gives no ticker. */
  lemma ExtractTickerRejects()
    ensures ExtractTicker("$ABCDEF") == ""
    ensures ExtractTicker("$AAPL_x") == ""
  {
    var a := "$ABCDEF";
    assert UpperRun(a, 7) == 0;
    assert UpperRun(a, 1) == 6;
    forall k | 0 <= k ensures !MatchesAt(a, k) {
      if 0 < k < |a| {
        assert a[k] != '$';
      }
    }
    var b := "$AAPL_x";
    assert UpperRun(b, 5) == 0;
    assert UpperRun(b, 1) == 4;
    forall k | 0 <= k ensures !MatchesAt(b, k) {
      if 0 < k < |b| {
        assert b[k] != '$';
      }
    }
  }

  /** One tweet as the API client exposes it; the creation time is UTC. */
  datatype Tweet = Tweet(id: int, text: string, createdAt: DateTime, author: Option<string>)

  /** The raw record `fetch_tweets` writes for a tweet: `created_at` in ISO form,
      the author's name or `"unknown"`, and the extracted ticker. */
  function TweetRecord(t: Tweet): (d: Dict)
    requires ValidDateTime(t.createdAt)
    ensures d.Keys == {"tweet_id", "text", "created_at", "username", "ticker"}
    ensures d["tweet_id"] == VInt(t.id) && d["text"] == VStr(t.text)
    ensures d["created_at"] == VStr(FormatIsoUtc(t.createdAt))
    ensures d["username"] == VStr(if t.author.Some? then t.author.value else "unknown")
    ensures d["ticker"] == VStr(ExtractTicker(t.text))
  {
    map["tweet_id" := VInt(t.id), "text" := VStr(t.text),
        "created_at" := VStr(FormatIsoUtc(t.createdAt)),
        "username" := VStr(if t.author.Some? then t.author.value else "unknown"),
        "ticker" := VStr(ExtractTicker(t.text))]
  }

  /** The creation time the fetcher writes is one the batch analyzer's reading
      (with `IsoTime.ParseIsoUtc` as the reader) maps back to the tweet's epoch
      second, had it looked under `created_at`. */
  lemma {:induction false} CreatedAtReadsBack(t: Tweet)
    requires ValidDateTime(t.createdAt)
    ensures var stamp := TweetRecord(t)["created_at"].s;
      ParseIsoUtc(ReplaceZ(stamp)) == Some(EpochSeconds(t.createdAt))
  {
    var s := FormatIsoUtc(t.createdAt);
    FormatThenParse(t.createdAt);
    ParseThenFormat(s);
    forall k | 0 <= k < |s| ensures s[k] != 'Z' {
      if k < 4 { assert IsDigit(s[0..4][k]); }
      else if 5 <= k < 7 { assert IsDigit(s[5..7][k - 5]); }
      else if 8 <= k < 10 { assert IsDigit(s[8..10][k - 8]); }
      else if 11 <= k < 13 { assert IsDigit(s[11..13][k - 11]); }
      else if 14 <= k < 16 { assert IsDigit(s[14..16][k - 14]); }
      else if 17 <= k < 19 { assert IsDigit(s[17..19][k - 17]); }
      else if k >= 19 { assert s[k] == "+00:00"[k - 19]; }
    }
    assert 'Z' !in s;
  }

  /** The batch analyzer scores none of the fetcher's records: they carry
      `created_at`, and it reads `timestamp`. */
  lemma {:induction false} FetchedTweetsScoreNothing(polarity: Sentiment.Polarity, fromIso: Sentiment.IsoReader, tweets: seq<Tweet>, records: seq<Dict>)
    requires |records| == |tweets|
    requires forall k :: 0 <= k < |tweets| ==> ValidDateTime(tweets[k].createdAt) && records[k] == TweetRecord(tweets[k])
    ensures Sentiment.BatchScores(polarity, fromIso, Items(records)) == []
  {
    forall k | 0 <= k < |records| ensures "timestamp" !in records[k] {
      assert records[k].Keys == {"tweet_id", "text", "created_at", "username", "ticker"};
    }
    Sentiment.CreatedAtIsIgnored(polarity, fromIso, records);
  }

  /** `strftime("%Y-%m-%d_%H-%M-%S")`, each field zero-padded to its width. */
  function Stamp(t: DateTime): (s: string)
    requires ValidDateTime(t)
    ensures |s| == 19
  {
    Pad4(t.year) + ("-" + (Pad2(t.month) + ("-" + (Pad2(t.day) + ("_"
      + (Pad2(t.hour) + ("-" + (Pad2(t.minute) + ("-" + Pad2(t.second))))))))))
  }

  /** `"{prefix}/{timestamp}.json"` */
  function BlobName(prefix: string, t: DateTime): (name: string)
    requires ValidDateTime(t)
    ensures |name| == |prefix| + 25
    ensures name[..|prefix| + 1] == prefix + "/" && name[|prefix| + 20..] == ".json"
    ensures name[|prefix| + 1..|prefix| + 20] == Stamp(t)
  {
    prefix + "/" + (Stamp(t) + ".json")
  }

  datatype Uploaded = Uploaded(uri: string, blob: Option<string>)

  /** `upload_to_gcs`: nothing to upload returns `""` without touching the
      bucket; otherwise one blob named after the clock is written, and the
      result is its `gs://` URI, or `""` when the upload fails. */
  function UploadToGcs(upload: string -> bool, bucket: string, now: DateTime, data: seq<Dict>, prefix: string): (r: Uploaded)
    requires ValidDateTime(now)
    ensures data == [] ==> r == Uploaded("", None)
    ensures data != [] ==> r.blob == Some(BlobName(prefix, now))
    ensures r.uri != "" <==> data != [] && upload(BlobName(prefix, now))
    ensures r.uri != "" ==> r.uri == "gs://" + bucket + "/" + r.blob.value
  {
    if data == [] then Uploaded("", None)
    else
      var name := BlobName(prefix, now);
      if upload(name) then Uploaded("gs://" + bucket + "/" + name, Some(name))
      else Uploaded("", Some(name))
  }

  /** Python's string order on sequences that agree in length up to a point:
      the first differing part decides. */
  lemma {:induction false} StrLeConcat(a1: string, a2: string, b1: string, b2: string)
    requires |a1| == |b1|
    ensures StrLe(a1 + a2, b1 + b2) <==> if a1 == b1 then StrLe(a2, b2) else StrLe(a1, b1)
    decreases |a1|
  {
    if a1 != [] {
      assert (a1 + a2)[0] == a1[0] && (b1 + b2)[0] == b1[0];
      assert (a1 + a2)[1..] == a1[1..] + a2 && (b1 + b2)[1..] == b1[1..] + b2;
      StrLeConcat(a1[1..], a2, b1[1..], b2);
      if a1[0] == b1[0] && a1[1..] == b1[1..] {
        assert a1 == [a1[0]] + a1[1..] && b1 == [b1[0]] + b1[1..];
      }
    } else {
      assert a1 + a2 == a2 && b1 + b2 == b2;
    }
  }

  lemma Pad2Order(x: int, y: int)
    requires 0 <= x < 100 && 0 <= y < 100
    ensures StrLe(Pad2(x), Pad2(y)) <==> x <= y
    ensures Pad2(x) == Pad2(y) <==> x == y
  {
    var a, b := Pad2(x), Pad2(y);
    assert a[1..] == [DigitChar(x % 10)] && b[1..] == [DigitChar(y % 10)];
    assert a[1..][1..] == [] && b[1..][1..] == [];
    assert StrLe(a[1..], b[1..]) <==> x % 10 <= y % 10;
    assert x == x / 10 * 10 + x % 10 && y == y / 10 * 10 + y % 10;
    assert x <= y <==> x / 10 < y / 10 || (x / 10 == y / 10 && x % 10 <= y % 10);
  }

  lemma Pad4Split(x: int)
    requires 0 <= x < 10000
    ensures Pad4(x) == Pad2(x / 100) + Pad2(x % 100)
  {
    assert x / 100 / 10 == x / 1000;
    assert x % 100 / 10 == x / 10 % 10;
    assert x % 100 % 10 == x % 10;
  }

  lemma Pad4Order(x: int, y: int)
    requires 0 <= x < 10000 && 0 <= y < 10000
    ensures StrLe(Pad4(x), Pad4(y)) <==> x <= y
    ensures Pad4(x) == Pad4(y) <==> x == y
  {
    Pad4Split(x);
    Pad4Split(y);
    Pad2Order(x / 100, y / 100);
    Pad2Order(x % 100, y % 100);
    StrLeConcat(Pad2(x / 100), Pad2(x % 100), Pad2(y / 100), Pad2(y % 100));
    if Pad2(x / 100) + Pad2(x % 100) == Pad2(y / 100) + Pad2(y % 100) {
      assert Pad2(x / 100) == (Pad2(x / 100) + Pad2(x % 100))[..2];
      assert Pad2(y / 100) == (Pad2(y / 100) + Pad2(y % 100))[..2];
      assert Pad2(x % 100) == (Pad2(x / 100) + Pad2(x % 100))[2..];
      assert Pad2(y % 100) == (Pad2(y / 100) + Pad2(y % 100))[2..];
    }
  }

  /** One step of the stamp: a fixed-width field, then the rest. */
  lemma {:induction false} FieldStep(fx: string, fy: string, rx: string, ry: string, x: int, y: int, restLe: bool)
    requires |fx| == |fy|
    requires StrLe(fx, fy) <==> x <= y
    requires fx == fy <==> x == y
    requires StrLe(rx, ry) == restLe
    ensures StrLe(fx + rx, fy + ry) <==> x < y || (x == y && restLe)
  {
    StrLeConcat(fx, rx, fy, ry);
  }

  lemma {:induction false} SepStep(c: char, x: string, y: string)
    ensures StrLe([c] + x, [c] + y) <==> StrLe(x, y)
  {
    assert ([c] + x)[1..] == x && ([c] + y)[1..] == y;
  }

  lemma {:induction false} StampOrder(a: DateTime, b: DateTime)
    requires ValidDateTime(a) && ValidDateTime(b)
    ensures StrLe(Stamp(a), Stamp(b)) <==> FieldsLe(a, b)
  {
    Pad4Order(a.year, b.year);
    Pad2Order(a.month, b.month);
    Pad2Order(a.day, b.day);
    Pad2Order(a.hour, b.hour);
    Pad2Order(a.minute, b.minute);
    Pad2Order(a.second, b.second);
    var s5 := Pad2(a.second) ; var t5 := Pad2(b.second);
    var s4 := Pad2(a.minute) + ("-" + s5); var t4 := Pad2(b.minute) + ("-" + t5);
    SepStep('-', s5, t5);
    FieldStep(Pad2(a.minute), Pad2(b.minute), "-" + s5, "-" + t5, a.minute, b.minute, a.second <= b.second);
    var le4 := a.minute < b.minute || (a.minute == b.minute && a.second <= b.second);
    var s3 := Pad2(a.hour) + ("-" + s4); var t3 := Pad2(b.hour) + ("-" + t4);
    SepStep('-', s4, t4);
    FieldStep(Pad2(a.hour), Pad2(b.hour), "-" + s4, "-" + t4, a.hour, b.hour, le4);
    var le3 := a.hour < b.hour || (a.hour == b.hour && le4);
    var s2 := Pad2(a.day) + ("_" + s3); var t2 := Pad2(b.day) + ("_" + t3);
    SepStep('_', s3, t3);
    FieldStep(Pad2(a.day), Pad2(b.day), "_" + s3, "_" + t3, a.day, b.day, le3);
    var le2 := a.day < b.day || (a.day == b.day && le3);
    var s1 := Pad2(a.month) + ("-" + s2); var t1 := Pad2(b.month) + ("-" + t2);
    SepStep('-', s2, t2);
    FieldStep(Pad2(a.month), Pad2(b.month), "-" + s2, "-" + t2, a.month, b.month, le2);
    var le1 := a.month < b.month || (a.month == b.month && le2);
    SepStep('-', s1, t1);
    FieldStep(Pad4(a.year), Pad4(b.year), "-" + s1, "-" + t1, a.year, b.year, le1);
  }

  /** Blob names under one prefix sort as their upload times: the name order
      `extract_from_gcs` maximises is chronological order. */
  lemma {:induction false} BlobNameOrder(prefix: string, a: DateTime, b: DateTime)
    requires ValidDateTime(a) && ValidDateTime(b)
    ensures StrLe(BlobName(prefix, a), BlobName(prefix, b)) <==> EpochSeconds(a) <= EpochSeconds(b)
  {
    StrLeConcat(prefix + "/", Stamp(a) + ".json", prefix + "/", Stamp(b) + ".json");
    StampOrder(a, b);
    StampOrder(b, a);
    assert |Stamp(a)| == |Stamp(b)|;
    StrLeConcat(Stamp(a), ".json", Stamp(b), ".json");
    StrLeReflexive(".json");
    if Stamp(a) == Stamp(b) {
      StrLeReflexive(Stamp(a));
    }
    EpochOrder(a, b);
  }

  /** When every blob under the prefix was named by `upload_to_gcs`, the blob
      `extract_from_gcs` picks is the most recent upload. */
  lemma {:induction false} ExtractPicksLatestUpload(prefix: string, times: seq<DateTime>, names: seq<string>, j: nat)
    requires |names| == |times| && j < |times|
    requires forall k :: 0 <= k < |times| ==> ValidDateTime(times[k]) && names[k] == BlobName(prefix, times[k])
    requires forall k :: 0 <= k < |times| ==> EpochSeconds(times[k]) <= EpochSeconds(times[j])
    ensures Pipeline.MaxName(names) == BlobName(prefix, times[j])
  {
    forall k | 0 <= k < |names| ensures StrLe(names[k], names[j]) {
      BlobNameOrder(prefix, times[k], times[j]);
    }
    Pipeline.MaxNameUnique(names, names[j]);
  }

  /** What every search excludes and requires: no retweets, no replies, English. */
  const QueryFilters := " -filter:retweets -filter:replies lang:en"

  /** The search query for one ticker. */
  function TweetQuery(ticker: string): (q: string)
    ensures |q| == 2 * |ticker| + 2 + |QueryFilters|
    ensures q[..|ticker|] == ticker && q[|ticker|..|ticker| + 2] == " $" && q[|ticker| + 2..2 * |ticker| + 2] == ticker
    ensures q[2 * |ticker| + 2..] == QueryFilters
  {
    ticker + " $" + ticker + QueryFilters
  }

  /** What one pass over the tickers uploads: each non-empty fetch, in ticker order. */
  function PassUploads(fetch: string -> seq<Dict>, tickers: seq<string>): seq<seq<Dict>>
  {
    if tickers == [] then []
    else
      var last := fetch(TweetQuery(tickers[|tickers| - 1]));
      PassUploads(fetch, tickers[..|tickers| - 1]) + (if last != [] then [last] else [])
  }

  /** One pass of the `while True` loop of `run`: a query per ticker, and an
      upload for every fetch that returned tweets. */
  method IngestPass(fetch: string -> seq<Dict>, tickers: seq<string>) returns (queries: seq<string>, uploads: seq<seq<Dict>>)
    ensures |queries| == |tickers|
    ensures forall k :: 0 <= k < |tickers| ==> queries[k] == TweetQuery(tickers[k])
    ensures uploads == PassUploads(fetch, tickers)
  {
    queries := [];
    uploads := [];
    for i := 0 to |tickers|
      invariant |queries| == i
      invariant forall k :: 0 <= k < i ==> queries[k] == TweetQuery(tickers[k])
      invariant uploads == PassUploads(fetch, tickers[..i])
    {
      assert tickers[..i + 1][..i] == tickers[..i];
      var query := TweetQuery(tickers[i]);
      queries := queries + [query];
      var tweets := fetch(query);
      if tweets != [] {
        uploads := uploads + [tweets];
      }
    }
    assert tickers[..|tickers|] == tickers;
  }

  /** Nothing empty is uploaded, and the uploads are the non-empty fetches in
      order: an upload is never attempted with no data. */
  lemma {:induction false} PassUploadsNonEmpty(fetch: string -> seq<Dict>, tickers: seq<string>)
    ensures forall k :: 0 <= k < |PassUploads(fetch, tickers)| ==> PassUploads(fetch, tickers)[k] != []
    ensures |PassUploads(fetch, tickers)| <= |tickers|
    decreases |tickers|
  {
    if tickers != [] {
      PassUploadsNonEmpty(fetch, tickers[..|tickers| - 1]);
    }
  }
}
