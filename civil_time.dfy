/**
 * The time key of a sheet row: the UTC civil date and time of an integer
 * Unix timestamp, rendered as YYYY-MM-DDTHH:MM (seconds dropped).
 *
 * The calendar is the proleptic Gregorian one. Days are counted as
 * ordinals, 0001-01-01 being ordinal 1 and 1970-01-01 ordinal 719163.
 * A timestamp whose UTC year falls outside 1..9999 has no key: the
 * conversion raises there.
 */
module CivilTime {
  import opened Outcomes

  const SecondsPerDay := 86400
  const EpochOrdinal := 719163
  const MinYear := 1
  const MaxYear := 9999

  /** The first and last second whose UTC year lies in MinYear..MaxYear. */
  const MinTimestamp := -62135596800
  const MaxTimestamp := 253402300799

  datatype Date = Date(year: int, month: int, day: int)

  /** A civil date with the hour and minute of the day; the second is not kept. */
  datatype Stamp = Stamp(date: Date, hour: int, minute: int)

  predicate IsLeapYear(y: int) {
    y % 4 == 0 && (y % 100 != 0 || y % 400 == 0)
  }

  function DaysInYear(y: int): int {
    if IsLeapYear(y) then 366 else 365
  }

  /** Days from 0001-01-01 to January 1st of year y. */
  function DaysBeforeYear(y: int): int {
    var p := y - 1;
    p * 365 + p / 4 - p / 100 + p / 400
  }

  function DaysInMonth(y: int, m: int): int
    requires 1 <= m <= 12
  {
    if m == 2 then (if IsLeapYear(y) then 29 else 28)
    else if m == 4 || m == 6 || m == 9 || m == 11 then 30
    else 31
  }

  /** Days from January 1st to the first day of month m of year y. */
  function DaysBeforeMonth(y: int, m: int): int
    requires 1 <= m <= 12
  {
    [0, 31, 59, 90, 120, 151, 181, 212, 243, 273, 304, 334][m - 1]
    + (if m > 2 && IsLeapYear(y) then 1 else 0)
  }

  predicate ValidDate(d: Date) {
    1 <= d.month <= 12 && 1 <= d.day <= DaysInMonth(d.year, d.month)
  }

  /** The number of days from 1970-01-01 to d (negative before it). */
  function DayNumber(d: Date): int
    requires 1 <= d.month <= 12
  {
    DaysBeforeYear(d.year) + DaysBeforeMonth(d.year, d.month) + d.day - EpochOrdinal
  }

  /**
   * The year holding ordinal n and the zero-based day of n within that
   * year, found by peeling off 400-, 100-, 4- and 1-year cycles.
   */
  function YearAndDay(n: int): (r: (int, int))
    ensures 0 <= r.1 < DaysInYear(r.0)
    ensures DaysBeforeYear(r.0) + r.1 + 1 == n
  {
    var m := n - 1;
    var n400, r400 := m / 146097, m % 146097;
    var n100, r100 := r400 / 36524, r400 % 36524;
    var n4, r4 := r100 / 1461, r100 % 1461;
    var n1, r1 := r4 / 365, r4 % 365;
    var year := n400 * 400 + n100 * 100 + n4 * 4 + n1 + 1;
    if n100 == 4 then
      DaysBeforeCycleYear(n400, 3, 24, 3);
      LeapAtCycleEnd(n400);
      (year - 1, 365)
    else if n1 == 4 then
      DaysBeforeCycleYear(n400, n100, n4, 3);
      LeapAtQuadEnd(n400, n100, n4);
      (year - 1, 365)
    else
      DaysBeforeCycleYear(n400, n100, n4, n1);
      (year, r1)
  }

  /** The day in a month of year y whose zero-based day of the year is doy. */
  function MonthOf(y: int, doy: int): (m: int)
    requires 0 <= doy < DaysInYear(y)
    ensures 1 <= m <= 12
    ensures DaysBeforeMonth(y, m) <= doy < DaysBeforeMonth(y, m) + DaysInMonth(y, m)
  {
    var l := if IsLeapYear(y) then 1 else 0;
    if doy < 31 then 1
    else if doy < 59 + l then 2
    else if doy < 90 + l then 3
    else if doy < 120 + l then 4
    else if doy < 151 + l then 5
    else if doy < 181 + l then 6
    else if doy < 212 + l then 7
    else if doy < 243 + l then 8
    else if doy < 273 + l then 9
    else if doy < 304 + l then 10
    else if doy < 334 + l then 11
    else 12
  }

  /**
   * The civil date z days after 1970-01-01. It is a valid date and
   * counting its days back gives z again.
   */
  function DateOfDay(z: int): (d: Date)
    ensures ValidDate(d)
    ensures DayNumber(d) == z
  {
    var yd := YearAndDay(z + EpochOrdinal);
    var m := MonthOf(yd.0, yd.1);
    Date(yd.0, m, yd.1 - DaysBeforeMonth(yd.0, m) + 1)
  }

  /**
   * The UTC date, hour and minute of timestamp t. The hour and minute are
   * in range, and the stamp names the first second of t's minute.
   */
  function StampOf(t: int): (s: Stamp)
    ensures ValidDate(s.date)
    ensures 0 <= s.hour < 24 && 0 <= s.minute < 60
    ensures DayNumber(s.date) * SecondsPerDay + s.hour * 3600 + s.minute * 60 == t - t % 60
  {
    var secs := t % SecondsPerDay;
    MinuteDecomposition(t);
    Stamp(DateOfDay(t / SecondsPerDay), secs / 3600, secs % 3600 / 60)
  }

  // ---------------------------------------------------------------------
  // Fixed-width rendering and reading back

  predicate IsDigit(c: char) {
    '0' <= c <= '9'
  }

  function Digit(d: int): (c: char)
    requires 0 <= d < 10
    ensures IsDigit(c) && DigitValue(c) == d
  {
    ('0' as int + d) as char
  }

  function DigitValue(c: char): int {
    c as int - '0' as int
  }

  function Pad2(n: int): (s: string)
    requires 0 <= n < 100
    ensures |s| == 2 && IsDigit(s[0]) && IsDigit(s[1])
  {
    [Digit(n / 10), Digit(n % 10)]
  }

  function Pad4(n: int): (s: string)
    requires 0 <= n < 10000
    ensures |s| == 4 && forall i :: 0 <= i < 4 ==> IsDigit(s[i])
  {
    Pad2(n / 100) + Pad2(n % 100)
  }

  function Read2(s: string): int
    requires |s| == 2
  {
    10 * DigitValue(s[0]) + DigitValue(s[1])
  }

  function Read4(s: string): int
    requires |s| == 4
  {
    100 * Read2(s[..2]) + Read2(s[2..])
  }

  /**
   * The form of a time key: sixteen characters, `-`, `-`, `T` and `:` at
   * positions 4, 7, 10 and 13, and a decimal digit everywhere else.
   */
  predicate KeyShape(k: string) {
    |k| == 16 && k[4] == '-' && k[7] == '-' && k[10] == 'T' && k[13] == ':'
    && forall i :: 0 <= i < 16 && i != 4 && i != 7 && i != 10 && i != 13 ==> IsDigit(k[i])
  }

  predicate Renderable(s: Stamp) {
    0 <= s.date.year < 10000 && 1 <= s.date.month <= 12 && 1 <= s.date.day <= 31
    && 0 <= s.hour < 24 && 0 <= s.minute < 60
  }

  /** YYYY-MM-DDTHH:MM, every field zero-padded. */
  function Render(s: Stamp): (k: string)
    requires Renderable(s)
    ensures KeyShape(k)
    ensures ParseStamp(k) == s
  {
    var y, m, d := Pad4(s.date.year), Pad2(s.date.month), Pad2(s.date.day);
    var hh, mm := Pad2(s.hour), Pad2(s.minute);
    var k := y + "-" + m + "-" + d + "T" + hh + ":" + mm;
    JoinFields(y, m, d, hh, mm);
    assert y[..2] == Pad2(s.date.year / 100) && y[2..] == Pad2(s.date.year % 100);
    k
  }

  /** Joining digit fields of widths 4, 2, 2, 2, 2 with the separators gives the key form. */
  lemma JoinFields(y: string, m: string, d: string, hh: string, mm: string)
    requires |y| == 4 && forall i :: 0 <= i < 4 ==> IsDigit(y[i])
    requires |m| == 2 && IsDigit(m[0]) && IsDigit(m[1])
    requires |d| == 2 && IsDigit(d[0]) && IsDigit(d[1])
    requires |hh| == 2 && IsDigit(hh[0]) && IsDigit(hh[1])
    requires |mm| == 2 && IsDigit(mm[0]) && IsDigit(mm[1])
    ensures var k := y + "-" + m + "-" + d + "T" + hh + ":" + mm;
      KeyShape(k) && k[0..4] == y && k[5..7] == m && k[8..10] == d && k[11..13] == hh && k[14..16] == mm
  {
    var k := y + "-" + m + "-" + d + "T" + hh + ":" + mm;
    assert k == [y[0], y[1], y[2], y[3], '-', m[0], m[1], '-', d[0], d[1], 'T', hh[0], hh[1], ':', mm[0], mm[1]];
  }

  /** Reads the fields of a 16-character key back. */
  function ParseStamp(k: string): Stamp
    requires |k| == 16
  {
    Stamp(Date(Read4(k[0..4]), Read2(k[5..7]), Read2(k[8..10])), Read2(k[11..13]), Read2(k[14..16]))
  }

  /** Two keys of the key form that read back the same fields are the same text. */
  lemma ParseStampInjective(a: string, b: string)
    requires KeyShape(a) && KeyShape(b)
    requires ParseStamp(a) == ParseStamp(b)
    ensures a == b
  {
    forall i | 0 <= i < 16 && i != 4 && i != 7 && i != 10 && i != 13
      ensures IsDigit(a[i]) && IsDigit(b[i])
    {
    }
    Read2Injective(a[0..2], b[0..2]);
    Read2Injective(a[2..4], b[2..4]);
    assert a[0..4][..2] == a[0..2] && a[0..4][2..] == a[2..4];
    assert b[0..4][..2] == b[0..2] && b[0..4][2..] == b[2..4];
    Read2Injective(a[5..7], b[5..7]);
    Read2Injective(a[8..10], b[8..10]);
    Read2Injective(a[11..13], b[11..13]);
    Read2Injective(a[14..16], b[14..16]);
    forall i | 0 <= i < 16 ensures a[i] == b[i] {
      if i < 2 { assert a[i] == a[0..2][i] && b[i] == b[0..2][i]; }
      else if i < 4 { assert a[i] == a[2..4][i - 2] && b[i] == b[2..4][i - 2]; }
      else if 5 <= i < 7 { assert a[i] == a[5..7][i - 5] && b[i] == b[5..7][i - 5]; }
      else if 8 <= i < 10 { assert a[i] == a[8..10][i - 8] && b[i] == b[8..10][i - 8]; }
      else if 11 <= i < 13 { assert a[i] == a[11..13][i - 11] && b[i] == b[11..13][i - 11]; }
      else if 14 <= i { assert a[i] == a[14..16][i - 14] && b[i] == b[14..16][i - 14]; }
    }
  }

  lemma Read2Injective(a: string, b: string)
    requires |a| == 2 && |b| == 2
    requires IsDigit(a[0]) && IsDigit(a[1]) && IsDigit(b[0]) && IsDigit(b[1])
    ensures Read2(a) == Read2(b) ==> a == b
  {
    if Read2(a) == Read2(b) {
      assert a[0] == b[0] && a[1] == b[1];
    }
  }

  /**
   * The time key of timestamp t, or YearOutOfRange when t's UTC year is
   * not in MinYear..MaxYear.
   */
  function TimeKey(t: int): (r: Result<string>)
    ensures r.Ok? <==> MinYear <= StampOf(t).date.year <= MaxYear
    ensures r.Err? ==> r.error == YearOutOfRange
    ensures r.Ok? ==> KeyShape(r.value) && ParseStamp(r.value) == StampOf(t)
  {
    var s := StampOf(t);
    if MinYear <= s.date.year <= MaxYear then Ok(Render(s)) else Err(YearOutOfRange)
  }

  // ---------------------------------------------------------------------
  // Lemmas

  /**
   * Two timestamps in the convertible range have the same key exactly
   * when they fall in the same UTC minute.
   */
  lemma SameKeyIffSameMinute(t1: int, t2: int)
    requires MinTimestamp <= t1 <= MaxTimestamp && MinTimestamp <= t2 <= MaxTimestamp
    ensures TimeKey(t1).Ok? && TimeKey(t2).Ok?
    ensures TimeKey(t1) == TimeKey(t2) <==> t1 / 60 == t2 / 60
  {
    TimeKeyDomain(t1);
    TimeKeyDomain(t2);
    var s1, s2 := StampOf(t1), StampOf(t2);
    if TimeKey(t1) == TimeKey(t2) {
      assert s1 == s2;
    }
    if t1 / 60 == t2 / 60 {
      assert t1 - t1 % 60 == t2 - t2 % 60;
      MixedRadixUnique(DayNumber(s1.date), s1.hour, s1.minute, DayNumber(s2.date), s2.hour, s2.minute);
      DayNumberInjective(s1.date, s2.date);
    }
  }

  /** A timestamp has a key exactly when it lies in MinTimestamp..MaxTimestamp. */
  lemma TimeKeyDomain(t: int)
    ensures TimeKey(t).Ok? <==> MinTimestamp <= t <= MaxTimestamp
  {
    var z := t / SecondsPerDay;
    DayRange(t);
    YearRange(z + EpochOrdinal);
    assert StampOf(t).date.year == YearAndDay(z + EpochOrdinal).0;
  }

  lemma DayRange(t: int)
    ensures MinTimestamp <= t <= MaxTimestamp <==> -719162 <= t / SecondsPerDay <= 2932896
  {
  }

  /** Ordinals 1..3652059 are exactly the days of years MinYear..MaxYear. */
  lemma YearRange(n: int)
    ensures MinYear <= YearAndDay(n).0 <= MaxYear <==> 1 <= n <= 3652059
  {
    var y := YearAndDay(n).0;
    assert DaysBeforeYear(MinYear) == 0;
    assert DaysBeforeYear(MaxYear + 1) == 3652059;
    DaysBeforeYearStep(y);
    if y < MinYear {
      DaysBeforeYearMonotone(y + 1, MinYear);
    } else if y > MaxYear {
      DaysBeforeYearMonotone(MaxYear + 1, y);
    } else {
      DaysBeforeYearMonotone(MinYear, y);
      DaysBeforeYearMonotone(y + 1, MaxYear + 1);
    }
  }

  lemma DayNumberInjective(d1: Date, d2: Date)
    requires ValidDate(d1) && ValidDate(d2) && DayNumber(d1) == DayNumber(d2)
    ensures d1 == d2
  {
    YearUnique(d1, d2);
    assert d1.year == d2.year;
    MonthUnique(d1.year, d1.month, d1.day, d2.month, d2.day);
  }

  lemma YearUnique(d1: Date, d2: Date)
    requires ValidDate(d1) && ValidDate(d2) && DayNumber(d1) == DayNumber(d2)
    ensures d1.year == d2.year
  {
    DayOfYearBound(d1);
    DayOfYearBound(d2);
    YearOfOrdinalUnique(d1.year, DaysBeforeMonth(d1.year, d1.month) + d1.day - 1,
                        d2.year, DaysBeforeMonth(d2.year, d2.month) + d2.day - 1);
  }

  /** A day count falls in exactly one year. */
  lemma YearOfOrdinalUnique(y1: int, a: int, y2: int, b: int)
    requires 0 <= a < DaysInYear(y1) && 0 <= b < DaysInYear(y2)
    requires DaysBeforeYear(y1) + a == DaysBeforeYear(y2) + b
    ensures y1 == y2
  {
    if y1 < y2 {
      DaysBeforeYearStep(y1);
      DaysBeforeYearMonotone(y1 + 1, y2);
    } else if y2 < y1 {
      DaysBeforeYearStep(y2);
      DaysBeforeYearMonotone(y2 + 1, y1);
    }
  }

  lemma DayOfYearBound(d: Date)
    requires ValidDate(d)
    ensures 0 <= DaysBeforeMonth(d.year, d.month) + d.day - 1 < DaysInYear(d.year)
  {
  }

  lemma MonthUnique(y: int, m1: int, day1: int, m2: int, day2: int)
    requires 1 <= m1 <= 12 && 1 <= day1 <= DaysInMonth(y, m1)
    requires 1 <= m2 <= 12 && 1 <= day2 <= DaysInMonth(y, m2)
    requires DaysBeforeMonth(y, m1) + day1 == DaysBeforeMonth(y, m2) + day2
    ensures m1 == m2 && day1 == day2
  {
  }

  lemma DaysBeforeYearStep(y: int)
    ensures DaysBeforeYear(y + 1) == DaysBeforeYear(y) + DaysInYear(y)
  {
    var p := y - 1;
    if p % 4 == 3 { DivMod4(y, p / 4 + 1, 0); } else { DivMod4(y, p / 4, p % 4 + 1); }
    if p % 100 == 99 { DivMod100(y, p / 100 + 1, 0); } else { DivMod100(y, p / 100, p % 100 + 1); }
    if p % 400 == 399 { DivMod400(y, p / 400 + 1, 0); } else { DivMod400(y, p / 400, p % 400 + 1); }
    if y % 400 == 0 {
      DivMod100(y, y / 400 * 4, 0);
    }
    if y % 100 == 0 {
      DivMod4(y, y / 100 * 25, 0);
    }
  }

  lemma DaysBeforeYearMonotone(a: int, b: int)
    requires a <= b
    ensures DaysBeforeYear(a) <= DaysBeforeYear(b)
  {
  }

  lemma MixedRadixUnique(z1: int, h1: int, m1: int, z2: int, h2: int, m2: int)
    requires 0 <= h1 < 24 && 0 <= m1 < 60 && 0 <= h2 < 24 && 0 <= m2 < 60
    requires z1 * 86400 + h1 * 3600 + m1 * 60 == z2 * 86400 + h2 * 3600 + m2 * 60
    ensures z1 == z2 && h1 == h2 && m1 == m2
  {
  }

  /**
   * Days before the year that follows 400a + 100b + 4c + d whole years:
   * a 400-year cycles, b centuries, c four-year groups and d single years.
   */
  lemma DaysBeforeCycleYear(a: int, b: int, c: int, d: int)
    requires 0 <= b < 4 && 0 <= c <= 24 && 0 <= d < 4
    ensures DaysBeforeYear(a * 400 + b * 100 + c * 4 + d + 1) == a * 146097 + b * 36524 + c * 1461 + d * 365
  {
    CycleQuotients(a, b, c, d);
  }

  lemma CycleQuotients(a: int, b: int, c: int, d: int)
    requires 0 <= b < 4 && 0 <= c <= 24 && 0 <= d < 4
    ensures var p := a * 400 + b * 100 + c * 4 + d;
      p / 4 == a * 100 + b * 25 + c && p / 100 == a * 4 + b && p / 400 == a
  {
  }

  /** The year that closes a 400-year cycle is a leap year. */
  lemma LeapAtCycleEnd(a: int)
    ensures IsLeapYear(a * 400 + 400)
  {
    var y := a * 400 + 400;
    DivMod4(y, a * 100 + 100, 0);
    DivMod400(y, a + 1, 0);
  }

  /** The year that closes a four-year group below a century's end is a leap year. */
  lemma LeapAtQuadEnd(a: int, b: int, c: int)
    requires 0 <= c < 24
    ensures IsLeapYear(a * 400 + b * 100 + c * 4 + 4)
  {
    var y := a * 400 + b * 100 + c * 4 + 4;
    DivMod4(y, a * 100 + b * 25 + c + 1, 0);
    DivMod100(y, a * 4 + b, c * 4 + 4);
  }

  lemma DivMod4(t: int, k: int, s: int)
    requires t == k * 4 + s && 0 <= s < 4
    ensures t / 4 == k && t % 4 == s
  {
  }

  lemma DivMod100(t: int, k: int, s: int)
    requires t == k * 100 + s && 0 <= s < 100
    ensures t / 100 == k && t % 100 == s
  {
  }

  lemma DivMod400(t: int, k: int, s: int)
    requires t == k * 400 + s && 0 <= s < 400
    ensures t / 400 == k && t % 400 == s
  {
  }

  /** Timestamp arithmetic: day, hour and minute recompose t without its seconds. */
  lemma MinuteDecomposition(t: int)
    ensures var secs := t % 86400;
      (t / 86400) * 86400 + secs / 3600 * 3600 + secs % 3600 / 60 * 60 == t - t % 60
  {
    var q, secs := t / 86400, t % 86400;
    var h, rest := secs / 3600, secs % 3600;
    var m, s := rest / 60, rest % 60;
    assert t == q * 86400 + h * 3600 + m * 60 + s;
    DivMod60(t, q * 1440 + h * 60 + m, s);
  }

  lemma DivMod60(t: int, k: int, s: int)
    requires t == k * 60 + s && 0 <= s < 60
    ensures t % 60 == s && t / 60 == k
  {
  }
}
