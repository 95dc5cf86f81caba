/** Calendar arithmetic and a restricted ISO 8601 reader.

    The batch analyzer turns a string timestamp into epoch seconds with
    `int(datetime.fromisoformat(s.replace("Z", "+00:00")).timestamp())`. The
    library call is a parameter of the analyzer; this module gives one instance of
    it, exact for the extended form `YYYY-MM-DDTHH:MM:SS` with an explicit UTC
    offset, built on the proleptic Gregorian calendar. */
module IsoTime {
  import opened Dynamic

  datatype DateTime = DateTime(year: int, month: int, day: int, hour: int, minute: int, second: int)

  predicate IsLeap(y: int)
  {
    y % 4 == 0 && (y % 100 != 0 || y % 400 == 0)
  }

  function DaysInMonth(y: int, m: int): int
    requires 1 <= m <= 12
  {
    if m == 2 then (if IsLeap(y) then 29 else 28)
    else if m == 4 || m == 6 || m == 9 || m == 11 then 30
    else 31
  }

  /** Days of the year before the first of month `m`. */
  function DaysBeforeMonth(y: int, m: int): int
    requires 1 <= m <= 12
  {
    var table := [0, 31, 59, 90, 120, 151, 181, 212, 243, 273, 304, 334];
    table[m - 1] + (if m > 2 && IsLeap(y) then 1 else 0)
  }

  /** Days from 0001-01-01 to the first of January of year `y`. */
  function DaysBeforeYear(y: int): int
    requires y >= 1
  {
    var p := y - 1;
    365 * p + p / 4 - p / 100 + p / 400
  }

  /** Days from 0001-01-01 to 1970-01-01. */
  const UnixEpochDay := 719162

  /** Day number of a date, counted from 1970-01-01. */
  function DaysFromCivil(y: int, m: int, d: int): int
    requires y >= 1 && 1 <= m <= 12
  {
    DaysBeforeYear(y) + DaysBeforeMonth(y, m) + d - 1 - UnixEpochDay
  }

  /** The fields the library accepts: years 1 to 9999 and real dates and times. */
  predicate ValidDateTime(t: DateTime)
  {
    && 1 <= t.year <= 9999
    && 1 <= t.month <= 12
    && 1 <= t.day <= DaysInMonth(t.year, t.month)
    && 0 <= t.hour < 24 && 0 <= t.minute < 60 && 0 <= t.second < 60
  }

  /** Seconds since 1970-01-01T00:00:00 UTC. */
  function EpochSeconds(t: DateTime): int
    requires ValidDateTime(t)
  {
    DaysFromCivil(t.year, t.month, t.day) * 86400 + t.hour * 3600 + t.minute * 60 + t.second
  }

  /** `s.replace("Z", "+00:00")`: every `Z` is replaced. */
  function ReplaceZ(s: string): (r: string)
    ensures 'Z' !in r
    ensures 'Z' !in s ==> r == s
  {
    if s == [] then []
    else (if s[0] == 'Z' then "+00:00" else [s[0]]) + ReplaceZ(s[1..])
  }

  predicate IsDigit(c: char) { '0' <= c <= '9' }

  predicate AllDigits(s: string)
  {
    forall k :: 0 <= k < |s| ==> IsDigit(s[k])
  }

  /** The number a string of decimal digits spells. */
  function Num(s: string): (n: nat)
    requires AllDigits(s)
  {
    if s == [] then 0 else Num(s[..|s| - 1]) * 10 + (s[|s| - 1] as int - '0' as int)
  }

  function DigitChar(n: int): char
    requires 0 <= n < 10
  {
    ('0' as int + n) as char
  }

  /** `n` written with two digits, zero-padded. */
  function Pad2(n: int): string
    requires 0 <= n < 100
  {
    [DigitChar(n / 10), DigitChar(n % 10)]
  }

  /** `n` written with four digits, zero-padded. */
  function Pad4(n: int): string
    requires 0 <= n < 10000
  {
    [DigitChar(n / 1000), DigitChar(n / 100 % 10), DigitChar(n / 10 % 10), DigitChar(n % 10)]
  }

  /** The string `YYYY-MM-DDTHH:MM:SS+00:00`. */
  function FormatIsoUtc(t: DateTime): (s: string)
    requires ValidDateTime(t)
    ensures |s| == 25 && s[19..] == "+00:00"
  {
    Pad4(t.year) + "-" + Pad2(t.month) + "-" + Pad2(t.day) + "T"
      + Pad2(t.hour) + ":" + Pad2(t.minute) + ":" + Pad2(t.second) + "+00:00"
  }

  /** The shape of the accepted strings, before the fields are range-checked. */
  predicate IsoShape(s: string)
  {
    && |s| == 25
    && AllDigits(s[0..4]) && s[4] == '-' && AllDigits(s[5..7]) && s[7] == '-'
    && AllDigits(s[8..10]) && s[10] == 'T' && AllDigits(s[11..13]) && s[13] == ':'
    && AllDigits(s[14..16]) && s[16] == ':' && AllDigits(s[17..19]) && s[19..] == "+00:00"
  }

  function Fields(s: string): DateTime
    requires IsoShape(s)
  {
    DateTime(Num(s[0..4]), Num(s[5..7]), Num(s[8..10]), Num(s[11..13]), Num(s[14..16]), Num(s[17..19]))
  }

  /** Epoch seconds of an explicit-UTC ISO 8601 string; `None` for any other string. */
  function ParseIsoUtc(s: string): Option<int>
  {
    if IsoShape(s) && ValidDateTime(Fields(s)) then Some(EpochSeconds(Fields(s))) else None
  }

  lemma {:induction false} NumPad2(n: int)
    requires 0 <= n < 100
    ensures AllDigits(Pad2(n)) && Num(Pad2(n)) == n
  {
    var s := Pad2(n);
    assert s[..1][..0] == [];
    assert Num(s[..1]) == n / 10;
    assert Num(s) == n / 10 * 10 + n % 10;
  }

  lemma {:induction false} NumPad4(n: int)
    requires 0 <= n < 10000
    ensures AllDigits(Pad4(n)) && Num(Pad4(n)) == n
  {
    var s := Pad4(n);
    assert s[..3][..2] == s[..2];
    assert s[..2][..1] == s[..1];
    assert s[..1][..0] == [];
    assert Num(s[..1]) == n / 1000;
    assert Num(s[..2]) == n / 1000 * 10 + n / 100 % 10 == n / 100;
    assert Num(s[..3]) == n / 100 * 10 + n / 10 % 10 == n / 10;
  }

  lemma {:induction false} Pad2Num(s: string)
    requires |s| == 2 && AllDigits(s)
    ensures Num(s) < 100 && Pad2(Num(s)) == s
  {
    assert s[..1][..0] == [];
    var a, b := s[0] as int - '0' as int, s[1] as int - '0' as int;
    assert Num(s[..1]) == a;
    assert Num(s) == a * 10 + b;
    var p := Pad2(Num(s));
    assert p[0] == s[0] && p[1] == s[1];
  }

  /** The four decimal digits of a number below 10000. */
  lemma Digits4(a: int, b: int, c: int, d: int)
    requires 0 <= a < 10 && 0 <= b < 10 && 0 <= c < 10 && 0 <= d < 10
    ensures var n := a * 1000 + b * 100 + c * 10 + d;
      n / 1000 == a && n / 100 % 10 == b && n / 10 % 10 == c && n % 10 == d
  {
    var n := a * 1000 + b * 100 + c * 10 + d;
    assert n == 1000 * a + (b * 100 + c * 10 + d);
    assert n == 100 * (a * 10 + b) + (c * 10 + d);
    assert n / 100 == a * 10 + b;
    assert n == 10 * (a * 100 + b * 10 + c) + d;
    assert n / 10 == a * 100 + b * 10 + c;
    assert a * 10 + b == 10 * a + b && a * 100 + b * 10 + c == 10 * (a * 10 + b) + c;
  }

  lemma {:induction false} Pad4Num(s: string)
    requires |s| == 4 && AllDigits(s)
    ensures Num(s) < 10000 && Pad4(Num(s)) == s
  {
    assert s[..3][..2] == s[..2];
    assert s[..2][..1] == s[..1];
    assert s[..1][..0] == [];
    var a, b, c, d := s[0] as int - '0' as int, s[1] as int - '0' as int, s[2] as int - '0' as int, s[3] as int - '0' as int;
    assert Num(s[..1]) == a;
    assert Num(s[..2]) == a * 10 + b;
    assert Num(s[..3]) == (a * 10 + b) * 10 + c;
    assert Num(s) == ((a * 10 + b) * 10 + c) * 10 + d;
    assert Num(s) == a * 1000 + b * 100 + c * 10 + d;
    Digits4(a, b, c, d);
    var p := Pad4(Num(s));
    assert p[0] == s[0] && p[1] == s[1] && p[2] == s[2] && p[3] == s[3];
  }

  /** Formatting a valid date-time and reading it back gives its epoch seconds. */
  lemma {:induction false} FormatThenParse(t: DateTime)
    requires ValidDateTime(t)
    ensures ParseIsoUtc(FormatIsoUtc(t)) == Some(EpochSeconds(t))
  {
    var s := FormatIsoUtc(t);
    NumPad4(t.year);
    NumPad2(t.month);
    NumPad2(t.day);
    NumPad2(t.hour);
    NumPad2(t.minute);
    NumPad2(t.second);
    var p1 := Pad4(t.year);
    var p2 := p1 + "-" + Pad2(t.month);
    var p3 := p2 + "-" + Pad2(t.day);
    var p4 := p3 + "T" + Pad2(t.hour);
    var p5 := p4 + ":" + Pad2(t.minute);
    var p6 := p5 + ":" + Pad2(t.second);
    assert s == p6 + "+00:00";
    assert s[..19] == p6 && s[19..] == "+00:00";
    assert p6[..16] == p5 && p5[..13] == p4 && p4[..10] == p3 && p3[..7] == p2 && p2[..4] == p1;
    assert s[17..19] == p6[17..19] == Pad2(t.second);
    assert s[14..16] == p5[14..16] == Pad2(t.minute);
    assert s[11..13] == p4[11..13] == Pad2(t.hour);
    assert s[8..10] == p3[8..10] == Pad2(t.day);
    assert s[5..7] == p2[5..7] == Pad2(t.month);
    assert s[0..4] == p1;
    assert IsoShape(s);
    assert Fields(s) == t;
  }

  /** Every string the reader accepts is the canonical form of the date-time it
      reads, so the reader and the formatter are inverse to each other. */
  lemma {:induction false} ParseThenFormat(s: string)
    requires ParseIsoUtc(s).Some?
    ensures IsoShape(s) && ValidDateTime(Fields(s))
    ensures FormatIsoUtc(Fields(s)) == s
    ensures ParseIsoUtc(s) == Some(EpochSeconds(Fields(s)))
  {
    Pad4Num(s[0..4]);
    Pad2Num(s[5..7]);
    Pad2Num(s[8..10]);
    Pad2Num(s[11..13]);
    Pad2Num(s[14..16]);
    Pad2Num(s[17..19]);
    var f := FormatIsoUtc(Fields(s));
    assert |f| == 25;
    forall k | 0 <= k < 25 ensures f[k] == s[k] {
      if k < 4 { assert f[k] == s[0..4][k]; }
      else if 5 <= k < 7 { assert f[k] == s[5..7][k - 5]; }
      else if 8 <= k < 10 { assert f[k] == s[8..10][k - 8]; }
      else if 11 <= k < 13 { assert f[k] == s[11..13][k - 11]; }
      else if 14 <= k < 16 { assert f[k] == s[14..16][k - 14]; }
      else if 17 <= k < 19 { assert f[k] == s[17..19][k - 17]; }
      else if k >= 19 { assert f[k] == "+00:00"[k - 19] == s[19..][k - 19]; }
    }
  }

  /** The calendar day after a valid date. */
  function NextDay(y: int, m: int, d: int): (r: (int, int, int))
    requires 1 <= y && 1 <= m <= 12 && 1 <= d <= DaysInMonth(y, m)
    ensures 1 <= r.0 && 1 <= r.1 <= 12 && 1 <= r.2 <= DaysInMonth(r.0, r.1)
  {
    if d < DaysInMonth(y, m) then (y, m, d + 1)
    else if m < 12 then (y, m + 1, 1)
    else (y + 1, 1, 1)
  }

  lemma DivStep4(y: int)
    ensures y / 4 - (y - 1) / 4 == (if y % 4 == 0 then 1 else 0)
  {
  }

  lemma DivStep100(y: int)
    ensures y / 100 - (y - 1) / 100 == (if y % 100 == 0 then 1 else 0)
  {
    var q, r := (y - 1) / 100, (y - 1) % 100;
    assert y - 1 == 100 * q + r && 0 <= r < 100;
    if r == 99 {
      assert y == 100 * (q + 1);
    } else {
      assert y == 100 * q + (r + 1);
    }
  }

  lemma DivStep400(y: int)
    ensures y / 400 - (y - 1) / 400 == (if y % 400 == 0 then 1 else 0)
  {
    var q, r := (y - 1) / 400, (y - 1) % 400;
    assert y - 1 == 400 * q + r && 0 <= r < 400;
    if r == 399 {
      assert y == 400 * (q + 1);
    } else {
      assert y == 400 * q + (r + 1);
    }
  }

  /** Multiples of 400 are multiples of 100, which are multiples of 4. */
  lemma MultipleOf100(y: int)
    requires y % 100 == 0
    ensures y % 4 == 0
  {
    var q := y / 100;
    assert y == 100 * q;
    assert y == 4 * (25 * q);
  }

  lemma MultipleOf400(y: int)
    requires y % 400 == 0
    ensures y % 100 == 0
  {
    var q := y / 400;
    assert y == 400 * q;
    assert y == 100 * (4 * q);
  }

  /** A year has 366 days when it is a leap year, 365 otherwise. */
  lemma {:induction false} YearLength(y: int)
    requires y >= 1
    ensures DaysBeforeYear(y + 1) - DaysBeforeYear(y) == (if IsLeap(y) then 366 else 365)
  {
    var p := y - 1;
    assert DaysBeforeYear(y + 1) - DaysBeforeYear(y) == 365 + (y / 4 - p / 4) - (y / 100 - p / 100) + (y / 400 - p / 400);
    DivStep4(y);
    DivStep100(y);
    DivStep400(y);
    if y % 400 == 0 {
      MultipleOf400(y);
    }
    if y % 100 == 0 {
      MultipleOf100(y);
    }
  }

  /** Consecutive calendar days have consecutive day numbers, so the epoch
      seconds of a date advance by exactly 86400 from one day to the next. */
  lemma {:induction false} NextDayIsOneDayLater(y: int, m: int, d: int)
    requires 1 <= y && 1 <= m <= 12 && 1 <= d <= DaysInMonth(y, m)
    ensures DaysFromCivil(NextDay(y, m, d).0, NextDay(y, m, d).1, NextDay(y, m, d).2) == DaysFromCivil(y, m, d) + 1
  {
    if d == DaysInMonth(y, m) && m == 12 {
      YearLength(y);
    }
  }

  /** Lexicographic order of the calendar fields, most significant first. */
  predicate FieldsLe(a: DateTime, b: DateTime)
  {
    if a.year != b.year then a.year < b.year
    else if a.month != b.month then a.month < b.month
    else if a.day != b.day then a.day < b.day
    else if a.hour != b.hour then a.hour < b.hour
    else if a.minute != b.minute then a.minute < b.minute
    else a.second <= b.second
  }

  function YearDays(y: int): int
  {
    if IsLeap(y) then 366 else 365
  }

  /** Each month starts where the previous one ends. */
  lemma MonthStep(y: int, m: int)
    requires 1 <= m < 12
    ensures DaysBeforeMonth(y, m + 1) == DaysBeforeMonth(y, m) + DaysInMonth(y, m)
  {
  }

  lemma {:induction false} MonthsIncrease(y: int, m1: int, m2: int)
    requires 1 <= m1 < m2 <= 12
    ensures DaysBeforeMonth(y, m1) + DaysInMonth(y, m1) <= DaysBeforeMonth(y, m2)
    decreases m2 - m1
  {
    MonthStep(y, m1);
    if m1 + 1 < m2 {
      MonthsIncrease(y, m1 + 1, m2);
    }
  }

  /** A date's day of the year lies within its year. */
  lemma {:induction false} DayOfYearBound(y: int, m: int, d: int)
    requires 1 <= m <= 12 && 1 <= d <= DaysInMonth(y, m)
    ensures DaysBeforeMonth(y, m) + d <= YearDays(y)
  {
    if m < 12 {
      MonthsIncrease(y, m, 12);
    }
  }

  lemma {:induction false} YearsIncrease(y1: int, y2: int)
    requires 1 <= y1 < y2
    ensures DaysBeforeYear(y1) + YearDays(y1) <= DaysBeforeYear(y2)
    decreases y2 - y1
  {
    YearLength(y1);
    if y1 + 1 < y2 {
      YearsIncrease(y1 + 1, y2);
      YearLength(y1 + 1);
    }
  }

  /** A date earlier in field order has a smaller day number. */
  lemma {:induction false} DaysIncrease(a: DateTime, b: DateTime)
    requires ValidDateTime(a) && ValidDateTime(b)
    requires (a.year, a.month, a.day) != (b.year, b.month, b.day) && FieldsLe(a, b)
    ensures DaysFromCivil(a.year, a.month, a.day) < DaysFromCivil(b.year, b.month, b.day)
  {
    if a.year < b.year {
      DayOfYearBound(a.year, a.month, a.day);
      YearsIncrease(a.year, b.year);
    } else if a.month < b.month {
      MonthsIncrease(a.year, a.month, b.month);
    }
  }

  /** Field order is time order: the epoch seconds compare as the fields do. */
  lemma {:induction false} EpochOrder(a: DateTime, b: DateTime)
    requires ValidDateTime(a) && ValidDateTime(b)
    ensures FieldsLe(a, b) <==> EpochSeconds(a) <= EpochSeconds(b)
  {
    var da := DaysFromCivil(a.year, a.month, a.day);
    var db := DaysFromCivil(b.year, b.month, b.day);
    var ta := a.hour * 3600 + a.minute * 60 + a.second;
    var tb := b.hour * 3600 + b.minute * 60 + b.second;
    assert EpochSeconds(a) == da * 86400 + ta && EpochSeconds(b) == db * 86400 + tb;
    assert 0 <= ta < 86400 && 0 <= tb < 86400;
    if (a.year, a.month, a.day) == (b.year, b.month, b.day) {
      assert da == db;
    } else if FieldsLe(a, b) {
      DaysIncrease(a, b);
      assert da * 86400 + 86400 <= db * 86400;
    } else {
      DaysIncrease(b, a);
      assert db * 86400 + 86400 <= da * 86400;
    }
  }

  /** 1970-01-01T00:00:00 is second 0. */
  lemma EpochOrigin()
    ensures EpochSeconds(DateTime(1970, 1, 1, 0, 0, 0)) == 0
  {
  }

  /** 2025-03-27T12:00:00Z is 1743076800; 1711540800 is the same time of day a
      year earlier, 2024-03-27. */
  lemma ExampleTimestamps()
    ensures ParseIsoUtc(ReplaceZ("2025-03-27T12:00:00Z")) == Some(1743076800)
    ensures ParseIsoUtc(ReplaceZ("2024-03-27T12:00:00Z")) == Some(1711540800)
  {
    Example2025();
    ExampleTimestamp(DateTime(2025, 3, 27, 12, 0, 0), "2025-03-27T12:00:00");
    assert "2025-03-27T12:00:00" + "Z" == "2025-03-27T12:00:00Z";
    Example2024();
    ExampleTimestamp(DateTime(2024, 3, 27, 12, 0, 0), "2024-03-27T12:00:00");
    assert "2024-03-27T12:00:00" + "Z" == "2024-03-27T12:00:00Z";
  }

  lemma Example2025()
    ensures ValidDateTime(DateTime(2025, 3, 27, 12, 0, 0))
    ensures EpochSeconds(DateTime(2025, 3, 27, 12, 0, 0)) == 1743076800
    ensures FormatIsoUtc(DateTime(2025, 3, 27, 12, 0, 0)) == "2025-03-27T12:00:00" + "+00:00"
  {
  }

  lemma Example2024()
    ensures ValidDateTime(DateTime(2024, 3, 27, 12, 0, 0))
    ensures EpochSeconds(DateTime(2024, 3, 27, 12, 0, 0)) == 1711540800
    ensures FormatIsoUtc(DateTime(2024, 3, 27, 12, 0, 0)) == "2024-03-27T12:00:00" + "+00:00"
  {
  }

  lemma {:induction false} ExampleTimestamp(t: DateTime, local: string)
    requires ValidDateTime(t) && 'Z' !in local
    requires FormatIsoUtc(t) == local + "+00:00"
    ensures ParseIsoUtc(ReplaceZ(local + "Z")) == Some(EpochSeconds(t))
  {
    ReplaceZExample(local);
    FormatThenParse(t);
  }

  lemma {:induction false} ReplaceZExample(s: string)
    requires 'Z' !in s
    ensures ReplaceZ(s + "Z") == s + "+00:00"
    decreases |s|
  {
    if s != [] {
      assert (s + "Z")[1..] == s[1..] + "Z";
      ReplaceZExample(s[1..]);
      assert s == [s[0]] + s[1..];
    } else {
      assert ReplaceZ("Z") == "+00:00" + ReplaceZ("");
    }
  }
}
