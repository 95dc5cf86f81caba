/** `SentimentAnalyzer` of processing/src/sentiment.py.

    Two library calls are parameters: `polarity` is TextBlob's polarity of a text
    (`None` when TextBlob raises), and `fromIso` is
    `int(datetime.fromisoformat(s).timestamp())` (`None` when it raises
    `ValueError` or `TypeError`). `IsoTime.ParseIsoUtc` is one instance of the
    latter. */
module Sentiment {
  import opened Dynamic
  import opened Models
  import IsoTime

  type Polarity = string -> Option<real>
  type IsoReader = string -> Option<int>

  /** `analyze_text`: no score for an empty or non-string text or an empty ticker,
      for a ticker the record rejects (or on which it raises), and when the scorer
      raises; otherwise a valid record of one data point. */
  function AnalyzeText(polarity: Polarity, text: Value, ticker: Value, timestamp: Value): (r: Option<SentimentScore>)
    ensures r.Some? <==>
      text.VStr? && text.s != "" && ticker.VStr? && ValidTicker(ticker.s) && polarity(text.s).Some?
    ensures r.Some? ==>
      r.value == SentimentScore(ticker, VReal(polarity(text.s).value), timestamp, VInt(1), VNone)
    ensures r.Some? ==> IsValid(r.value)
  {
    if !Truthy(text) || !text.VStr? then None
    else if !Truthy(ticker) then None
    else
      match polarity(text.s)
      case None => None
      case Some(p) =>
        match MakeScore(ticker, VReal(p), timestamp, VInt(1), VNone)
        case Raise(_) => None
        case Ok(score) => if IsValid(score) then Some(score) else None
  }

  /** The timestamp an item is analysed with: a string is read as ISO 8601 after
      `Z` is replaced by `+00:00`; the item is skipped (`None`) when that fails or
      when the value is not an `int` (a missing key reads as `None`). */
  function ItemTimestamp(fromIso: IsoReader, item: Dict): (r: Option<Value>)
    ensures r.Some? ==> IsInt(r.value)
    ensures "timestamp" !in item ==> r.None?
    ensures "timestamp" in item && IsInt(item["timestamp"]) ==> r == Some(item["timestamp"])
    ensures "timestamp" in item && item["timestamp"].VStr? ==>
      r == (if fromIso(IsoTime.ReplaceZ(item["timestamp"].s)).Some?
            then Some(VInt(fromIso(IsoTime.ReplaceZ(item["timestamp"].s)).value)) else None)
    ensures "timestamp" in item && !IsInt(item["timestamp"]) && !item["timestamp"].VStr? ==> r.None?
  {
    var timestamp := Get(item, "timestamp", VNone);
    if timestamp.VStr? then
      match fromIso(IsoTime.ReplaceZ(timestamp.s))
      case None => None
      case Some(seconds) => Some(VInt(seconds))
    else if IsInt(timestamp) then Some(timestamp)
    else None
  }

  /** One loop iteration of `analyze_batch`: the score the item contributes, if any. */
  function ItemScore(polarity: Polarity, fromIso: IsoReader, item: Dict): (r: Option<SentimentScore>)
    ensures r.Some? ==> ItemTimestamp(fromIso, item).Some?
    ensures r == (if ItemTimestamp(fromIso, item).Some?
                  then AnalyzeText(polarity, Get(item, "text", VStr("")), Get(item, "ticker", VStr("")), ItemTimestamp(fromIso, item).value)
                  else None)
    ensures r.Some? ==> IsValid(r.value) && r.value.dataPointCount == VInt(1) && IsInt(r.value.timestamp)
  {
    match ItemTimestamp(fromIso, item)
    case None => None
    case Some(timestamp) =>
      AnalyzeText(polarity, Get(item, "text", VStr("")), Get(item, "ticker", VStr("")), timestamp)
  }

  function Emit<T>(o: Option<T>): seq<T>
  {
    if o.Some? then [o.value] else []
  }

  /** The scores of a list of items, in order: the specification of the loop. */
  function ScoreItems(polarity: Polarity, fromIso: IsoReader, items: seq<Dict>): (r: seq<SentimentScore>)
    ensures |r| <= |items|
    ensures forall k :: 0 <= k < |r| ==>
      IsValid(r[k]) && r[k].dataPointCount == VInt(1) && IsInt(r[k].timestamp)
    decreases |items|
  {
    if items == [] then []
    else ScoreItems(polarity, fromIso, items[..|items| - 1]) + Emit(ItemScore(polarity, fromIso, items[|items| - 1]))
  }

  /** What `analyze_batch` returns: nothing for an empty list or a non-list. */
  function BatchScores(polarity: Polarity, fromIso: IsoReader, data: Batch<Dict>): seq<SentimentScore>
  {
    if data.NotAList? || data.items == [] then [] else ScoreItems(polarity, fromIso, data.items)
  }

  /** `analyze_batch`: the loop over the items, appending each score produced. */
  method AnalyzeBatch(polarity: Polarity, fromIso: IsoReader, data: Batch<Dict>) returns (results: seq<SentimentScore>)
    ensures results == BatchScores(polarity, fromIso, data)
  {
    if data.NotAList? || data.items == [] {
      return [];
    }
    var items := data.items;
    results := [];
    var i := 0;
    while i < |items|
      invariant 0 <= i <= |items|
      invariant results == ScoreItems(polarity, fromIso, items[..i])
    {
      var item := items[i];
      var text := Get(item, "text", VStr(""));
      var ticker := Get(item, "ticker", VStr(""));
      var timestamp := Get(item, "timestamp", VNone);
      assert items[..i + 1][..i] == items[..i];
      if timestamp.VStr? {
        var parsed := fromIso(IsoTime.ReplaceZ(timestamp.s));
        if parsed.None? {
          i := i + 1;
          continue;
        }
        timestamp := VInt(parsed.value);
      }
      if !IsInt(timestamp) {
        i := i + 1;
        continue;
      }
      var score := AnalyzeText(polarity, text, ticker, timestamp);
      if score.Some? {
        results := results + [score.value];
      }
      i := i + 1;
    }
    assert items[..i] == items;
  }

  /** Scoring a concatenation scores the parts independently. */
  lemma {:induction false} ScoreItemsAppend(polarity: Polarity, fromIso: IsoReader, a: seq<Dict>, b: seq<Dict>)
    ensures ScoreItems(polarity, fromIso, a + b) == ScoreItems(polarity, fromIso, a) + ScoreItems(polarity, fromIso, b)
    decreases |b|
  {
    if b == [] {
      assert a + b == a;
    } else {
      var init := b[..|b| - 1];
      assert (a + b)[..|a + b| - 1] == a + init;
      assert (a + b)[|a + b| - 1] == b[|b| - 1];
      ScoreItemsAppend(polarity, fromIso, a, init);
    }
  }

  /** Record-level isolation: an item that yields no score leaves the scores of
      the items around it exactly as they would be without it. */
  lemma {:induction false} BadItemIsolated(polarity: Polarity, fromIso: IsoReader, a: seq<Dict>, bad: Dict, b: seq<Dict>)
    requires ItemScore(polarity, fromIso, bad).None?
    ensures ScoreItems(polarity, fromIso, a + [bad] + b) == ScoreItems(polarity, fromIso, a + b)
  {
    var one := ScoreItems(polarity, fromIso, [bad]);
    assert [bad][..0] == [];
    assert one == ScoreItems(polarity, fromIso, []) + Emit(ItemScore(polarity, fromIso, bad));
    assert one == [];
    var sa := ScoreItems(polarity, fromIso, a);
    var sb := ScoreItems(polarity, fromIso, b);
    ScoreItemsAppend(polarity, fromIso, a, [bad]);
    assert ScoreItems(polarity, fromIso, a + [bad]) == sa + one;
    assert sa + one == sa;
    ScoreItemsAppend(polarity, fromIso, a + [bad], b);
    assert ScoreItems(polarity, fromIso, a + [bad] + b) == sa + sb;
    ScoreItemsAppend(polarity, fromIso, a, b);
  }

  /** The positions of the items that yield a score, in increasing order. */
  function Survivors(polarity: Polarity, fromIso: IsoReader, items: seq<Dict>): (idx: seq<nat>)
    ensures forall k :: 0 <= k < |idx| ==> idx[k] < |items|
    ensures forall k, l :: 0 <= k < l < |idx| ==> idx[k] < idx[l]
    decreases |items|
  {
    if items == [] then []
    else
      var last := |items| - 1;
      Survivors(polarity, fromIso, items[..last]) + (if ItemScore(polarity, fromIso, items[last]).Some? then [last] else [])
  }

  /** The output of the batch is the in-order subsequence of the per-item
      results that are present: the k-th score is the score of the k-th
      surviving item, and an item survives exactly when it yields a score. */
  lemma {:induction false} ScoreItemsAreSurvivors(polarity: Polarity, fromIso: IsoReader, items: seq<Dict>)
    ensures |Survivors(polarity, fromIso, items)| == |ScoreItems(polarity, fromIso, items)|
    ensures forall k :: 0 <= k < |Survivors(polarity, fromIso, items)| ==>
      ItemScore(polarity, fromIso, items[Survivors(polarity, fromIso, items)[k]])
        == Some(ScoreItems(polarity, fromIso, items)[k])
    ensures forall j :: 0 <= j < |items| ==>
      (ItemScore(polarity, fromIso, items[j]).Some? <==> j in Survivors(polarity, fromIso, items))
    decreases |items|
  {
    if items != [] {
      var last := |items| - 1;
      var init := items[..last];
      ScoreItemsAreSurvivors(polarity, fromIso, init);
      var idx := Survivors(polarity, fromIso, items);
      var r := ScoreItems(polarity, fromIso, items);
      var idx0 := Survivors(polarity, fromIso, init);
      var r0 := ScoreItems(polarity, fromIso, init);
      forall k | 0 <= k < |idx| ensures ItemScore(polarity, fromIso, items[idx[k]]) == Some(r[k]) {
        if k < |idx0| {
          assert idx[k] == idx0[k] && r[k] == r0[k];
          assert items[idx[k]] == init[idx0[k]];
        }
      }
      forall j | 0 <= j < |items|
        ensures ItemScore(polarity, fromIso, items[j]).Some? <==> j in idx
      {
        if j < last {
          assert items[j] == init[j];
          assert j in idx0 ==> j in idx;
          assert j in idx ==> j in idx0 || j == last;
        }
      }
    }
  }

  /** A raw record keyed as the fetcher writes it, with `created_at` and no
      `timestamp`, never yields a score: the batch analyzer reads only `timestamp`. */
  lemma {:induction false} CreatedAtIsIgnored(polarity: Polarity, fromIso: IsoReader, items: seq<Dict>)
    requires forall k :: 0 <= k < |items| ==> "timestamp" !in items[k]
    ensures ScoreItems(polarity, fromIso, items) == []
    decreases |items|
  {
    if items != [] {
      var last := |items| - 1;
      assert "timestamp" !in items[last];
      CreatedAtIsIgnored(polarity, fromIso, items[..last]);
    }
  }

  /** A single item with a text, a valid ticker and an ISO timestamp string the
      reader accepts is scored once, at the second the reader assigns; with
      `IsoTime.ParseIsoUtc` as the reader, `"2025-03-27T12:00:00Z"` is second
      1743076800 (`IsoTime.ExampleTimestamps`). */
  lemma SingleIsoItem(polarity: Polarity, fromIso: IsoReader, item: Dict, text: string, ticker: string, stamp: string, seconds: int)
    requires Get(item, "text", VStr("")) == VStr(text) && text != ""
    requires Get(item, "ticker", VStr("")) == VStr(ticker) && ValidTicker(ticker)
    requires Get(item, "timestamp", VNone) == VStr(stamp)
    requires fromIso(IsoTime.ReplaceZ(stamp)) == Some(seconds)
    requires polarity(text).Some?
    ensures BatchScores(polarity, fromIso, Items([item]))
      == [SentimentScore(VStr(ticker), VReal(polarity(text).value), VInt(seconds), VInt(1), VNone)]
  {
    var score := SentimentScore(VStr(ticker), VReal(polarity(text).value), VInt(seconds), VInt(1), VNone);
    assert ItemTimestamp(fromIso, item) == Some(VInt(seconds));
    assert ItemScore(polarity, fromIso, item) == Some(score);
    assert [item][..0] == [];
    assert ScoreItems(polarity, fromIso, [item]) == ScoreItems(polarity, fromIso, []) + Emit(Some(score));
  }
}
