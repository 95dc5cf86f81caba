/** Python's dynamically typed values, as far as the sentiment pipeline looks at them.

    A dictionary of the source (a tweet record, a table row, a response) becomes a
    `Dict`, a map from key to `Value`. Character classes are ASCII: Python's
    `str.isalnum` and the regex word class are Unicode-aware, the model is not. */
module Dynamic {

  datatype Option<T> = None | Some(value: T)

  /** One Python value: `str`, `int`, `bool`, `float`, `datetime` (carried as the
      epoch second it stands for) or `None`. */
  datatype Value =
    | VStr(s: string)
    | VInt(i: int)
    | VBool(b: bool)
    | VReal(r: real)
    | VDateTime(seconds: int)
    | VNone

  type Dict = map<string, Value>

  /** An argument that the source checks with `isinstance(data, list)`. */
  datatype Batch<T> = Items(items: seq<T>) | NotAList

  /** `d.get(k, default)` */
  function Get(d: Dict, k: string, default: Value): Value
  {
    if k in d then d[k] else default
  }

  /** Python truthiness: `not v` is `!Truthy(v)`. A datetime is always true. */
  predicate Truthy(v: Value)
  {
    match v
    case VStr(s) => s != ""
    case VInt(i) => i != 0
    case VBool(b) => b
    case VReal(r) => r != 0.0
    case VDateTime(_) => true
    case VNone => false
  }

  /** `isinstance(v, int)`: true for `bool` as well, since `bool` subclasses `int`. */
  predicate IsInt(v: Value)
  {
    v.VInt? || v.VBool?
  }

  /** The integer an `int` (or `bool`) stands for. */
  function IntOf(v: Value): int
    requires IsInt(v)
  {
    if v.VInt? then v.i else if v.b then 1 else 0
  }

  /** `isinstance(v, (int, float))` */
  predicate IsNumber(v: Value)
  {
    IsInt(v) || v.VReal?
  }

  /** The real a number stands for (`True` compares as 1). */
  function RealOf(v: Value): real
    requires IsNumber(v)
  {
    if v.VReal? then v.r else IntOf(v) as real
  }

  predicate IsAsciiUpper(c: char) { 'A' <= c <= 'Z' }

  predicate IsAsciiAlnum(c: char)
  {
    IsAsciiUpper(c) || 'a' <= c <= 'z' || '0' <= c <= '9'
  }

  /** A character of the regex class `\w`. */
  predicate IsWordChar(c: char)
  {
    IsAsciiAlnum(c) || c == '_'
  }

  /** `s.isalnum()`: false on the empty string. */
  predicate IsAlnum(s: string)
  {
    |s| > 0 && forall k :: 0 <= k < |s| ==> IsAsciiAlnum(s[k])
  }

  /** The ticker test shared by `SentimentScore.__init__` and the query service:
      `not t or not t.isalnum() or len(t) > 5` rejects. */
  predicate ValidTicker(t: string)
  {
    t != "" && IsAlnum(t) && |t| <= 5
  }

  /** Python's `int(x)` on a float truncates toward zero. */
  function Trunc(x: real): (n: int)
    ensures x >= 0.0 ==> 0 <= n && n as real <= x < n as real + 1.0
    ensures x < 0.0 ==> n <= 0 && n as real - 1.0 < x <= n as real
  {
    if x >= 0.0 then x.Floor else -((-x).Floor)
  }

  /** Python's `a <= b` on `str`: lexicographic by code point, a proper prefix
      first. (Dafny's own `<` on sequences is the proper-prefix relation.) */
  predicate StrLe(a: string, b: string)
    decreases |a|
  {
    if a == [] then true
    else if b == [] then false
    else if a[0] != b[0] then a[0] < b[0]
    else StrLe(a[1..], b[1..])
  }

  lemma {:induction false} StrLeReflexive(a: string)
    ensures StrLe(a, a)
    decreases |a|
  {
    if a != [] {
      StrLeReflexive(a[1..]);
    }
  }

  lemma {:induction false} StrLeTotal(a: string, b: string)
    ensures StrLe(a, b) || StrLe(b, a)
    decreases |a|
  {
    if a != [] && b != [] && a[0] == b[0] {
      StrLeTotal(a[1..], b[1..]);
    }
  }

  lemma {:induction false} StrLeAntisymmetric(a: string, b: string)
    requires StrLe(a, b) && StrLe(b, a)
    ensures a == b
    decreases |a|
  {
    if a != [] {
      StrLeAntisymmetric(a[1..], b[1..]);
      assert a == [a[0]] + a[1..] && b == [b[0]] + b[1..];
    }
  }

  lemma {:induction false} StrLeTransitive(a: string, b: string, c: string)
    requires StrLe(a, b) && StrLe(b, c)
    ensures StrLe(a, c)
    decreases |a|
  {
    if a != [] && b != [] && c != [] && a[0] == b[0] && b[0] == c[0] {
      StrLeTransitive(a[1..], b[1..], c[1..]);
    }
  }
}
