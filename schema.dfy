/** `validate_schema_compatibility` of api/src/data/schema.py: the row check the
    loaders apply before inserting into the sentiment table. */
module Schema {
  import opened Dynamic

  const RequiredFields: set<string> := {"ticker", "sentiment_score", "timestamp", "data_point_count"}
  const SchemaFields: set<string> := RequiredFields + {"source"}

  /** The guard chain of the source, in its order: required keys, then ticker,
      score, timestamp, count and the optional source. Keys outside the schema
      are never looked at. */
  predicate SchemaCompatible(row: Dict)
  {
    if !("ticker" in row && "sentiment_score" in row && "timestamp" in row && "data_point_count" in row) then false
    else if !row["ticker"].VStr? || |row["ticker"].s| > 5 then false
    else if !IsNumber(row["sentiment_score"]) || !(-1.0 <= RealOf(row["sentiment_score"]) <= 1.0) then false
    else if !IsNumber(row["timestamp"]) then false
    else if !IsInt(row["data_point_count"]) || IntOf(row["data_point_count"]) < 0 then false
    else if "source" in row && !row["source"].VStr? then false
    else true
  }

  /** The rule each column of the table imposes on its own value, read off the
      column list: a reference to compare the guard chain with. */
  predicate ColumnAccepts(key: string, v: Value)
  {
    if key == "ticker" then v.VStr? && |v.s| <= 5
    else if key == "sentiment_score" then IsNumber(v) && -1.0 <= RealOf(v) <= 1.0
    else if key == "timestamp" then IsNumber(v)
    else if key == "data_point_count" then IsInt(v) && IntOf(v) >= 0
    else if key == "source" then v.VStr?
    else true
  }

  /** The ordered guards accept a row exactly when the required keys are present
      and every entry satisfies its column's rule. */
  lemma SchemaIsColumnwise(row: Dict)
    ensures SchemaCompatible(row) <==>
      (forall k :: k in RequiredFields ==> k in row) && (forall k :: k in row ==> ColumnAccepts(k, row[k]))
  {
    if SchemaCompatible(row) {
      forall k | k in row ensures ColumnAccepts(k, row[k]) {
      }
    } else if forall k :: k in RequiredFields ==> k in row {
      if !row["ticker"].VStr? || |row["ticker"].s| > 5 {
        assert !ColumnAccepts("ticker", row["ticker"]);
      } else if !IsNumber(row["sentiment_score"]) || !(-1.0 <= RealOf(row["sentiment_score"]) <= 1.0) {
        assert !ColumnAccepts("sentiment_score", row["sentiment_score"]);
      } else if !IsNumber(row["timestamp"]) {
        assert !ColumnAccepts("timestamp", row["timestamp"]);
      } else if !IsInt(row["data_point_count"]) || IntOf(row["data_point_count"]) < 0 {
        assert !ColumnAccepts("data_point_count", row["data_point_count"]);
      } else {
        assert !ColumnAccepts("source", row["source"]);
      }
    }
  }

  /** A row missing a required key is rejected. */
  lemma {:induction false} MissingFieldRejected(row: Dict, k: string)
    requires k in RequiredFields && k !in row
    ensures !SchemaCompatible(row)
  {
    SchemaIsColumnwise(row);
  }

  /** Replacing one entry of an accepted row keeps it accepted exactly when the
      new value satisfies that column's rule; other keys are free. */
  lemma {:induction false} SingleFieldChange(row: Dict, k: string, v: Value)
    requires SchemaCompatible(row)
    ensures SchemaCompatible(row[k := v]) <==> ColumnAccepts(k, v)
  {
    var changed := row[k := v];
    SchemaIsColumnwise(row);
    SchemaIsColumnwise(changed);
    if ColumnAccepts(k, v) {
      forall j | j in changed ensures ColumnAccepts(j, changed[j]) {
        if j != k {
          assert j in row;
        }
      }
    } else {
      assert k in changed;
    }
  }

  /** Keys outside the five columns never change the verdict. */
  lemma {:induction false} ExtraKeysIgnored(row: Dict)
    ensures SchemaCompatible(row) <==> SchemaCompatible(map k | k in row && k in SchemaFields :: row[k])
  {
    var kept := map k | k in row && k in SchemaFields :: row[k];
    SchemaIsColumnwise(row);
    SchemaIsColumnwise(kept);
    if SchemaCompatible(kept) {
      forall k | k in row ensures ColumnAccepts(k, row[k]) {
        if k in SchemaFields {
          assert k in kept;
        }
      }
      forall k | k in RequiredFields ensures k in row {
        assert k in kept;
      }
    }
  }

  /** The edge cases of the column rules: an empty ticker, a score of exactly
      -1.0 or 1.0 and a boolean count pass; a datetime or string timestamp and an
      explicit `None` source fail. */
  lemma ColumnEdgeCases(seconds: int, text: string)
    ensures ColumnAccepts("ticker", VStr(""))
    ensures ColumnAccepts("sentiment_score", VReal(-1.0)) && ColumnAccepts("sentiment_score", VReal(1.0))
    ensures ColumnAccepts("sentiment_score", VInt(1)) && !ColumnAccepts("sentiment_score", VReal(1.5))
    ensures ColumnAccepts("data_point_count", VBool(true)) && !ColumnAccepts("data_point_count", VInt(-1))
    ensures ColumnAccepts("timestamp", VReal(0.5))
    ensures !ColumnAccepts("timestamp", VDateTime(seconds)) && !ColumnAccepts("timestamp", VStr(text))
    ensures !ColumnAccepts("source", VNone) && !ColumnAccepts("ticker", VStr("ABCDEF"))
  {
  }

  /** The module's own valid example row is accepted; its invalid one is not. */
  lemma ExampleRows()
    ensures SchemaCompatible(map["ticker" := VStr("AAPL"), "sentiment_score" := VReal(0.75),
      "timestamp" := VInt(1711500000), "data_point_count" := VInt(50), "source" := VStr("X")])
    ensures !SchemaCompatible(map["ticker" := VStr("INVALID_TICKER"), "sentiment_score" := VReal(2.0),
      "timestamp" := VStr("not_a_timestamp"), "data_point_count" := VInt(-1)])
  {
  }
}
