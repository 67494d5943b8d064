/**
 * The proleptic Gregorian calendar as the JavaScript `Date` constructor uses it:
 * `new Date(y, m, d)` accepts any month and day and normalises them, so month -1 is
 * December of the year before and day 0 is the last day of the month before.
 * Months are numbered 0..11 as `getMonth()` numbers them.
 */
module Calendar {
  import opened JsText

  type MonthIndex = m: int | 0 <= m < 12

  predicate IsLeapYear(y: int) {
    y % 4 == 0 && (y % 100 != 0 || y % 400 == 0)
  }

  function DaysInMonth(y: int, m: MonthIndex): (n: int)
    ensures 28 <= n <= 31
    ensures m == 1 ==> (n == 29 <==> IsLeapYear(y)) && (n == 28 <==> !IsLeapYear(y))
    ensures m != 1 ==> (n == 30 <==> m in {3, 5, 8, 10})
  {
    if m == 1 then (if IsLeapYear(y) then 29 else 28)
    else if m == 3 || m == 5 || m == 8 || m == 10 then 30
    else 31
  }

  /** A local calendar day, as `getFullYear()`, `getMonth()` and `getDate()` report it. */
  datatype CalendarDate = CalendarDate(year: int, month: MonthIndex, day: int) {
    predicate Valid() {
      1 <= day <= DaysInMonth(year, month)
    }
  }

  // ---------------------------------------------------------------------------
  // Months on one line: month number k is month k % 12 of year k / 12
  // ---------------------------------------------------------------------------

  function MonthNumber(year: int, month: int): int {
    year * 12 + month
  }

  function DateMonthNumber(d: CalendarDate): int {
    MonthNumber(d.year, d.month)
  }

  /** A month number splits back into its year and month. */
  lemma MonthNumberParts(year: int, month: int)
    requires 0 <= month < 12
    ensures MonthNumber(year, month) / 12 == year && MonthNumber(year, month) % 12 == month
  {
  }

  /** Month numbers order months as the calendar does: by year, then by month. */
  lemma MonthNumberOrder(y1: int, m1: int, y2: int, m2: int)
    requires 0 <= m1 < 12 && 0 <= m2 < 12
    ensures MonthNumber(y1, m1) <= MonthNumber(y2, m2) <==> y1 < y2 || (y1 == y2 && m1 <= m2)
  {
    if y1 < y2 {
      assert y1 * 12 + 12 <= y2 * 12;
    } else if y1 > y2 {
      assert y2 * 12 + 12 <= y1 * 12;
    }
  }

  function LengthOfMonth(k: int): int {
    DaysInMonth(k / 12, k % 12)
  }

  /** Number of days in months k1 .. k2 - 1. */
  function DaysBetween(k1: int, k2: int): nat
    requires k1 <= k2
    decreases k2 - k1
  {
    if k1 == k2 then 0 else LengthOfMonth(k1) + DaysBetween(k1 + 1, k2)
  }

  lemma {:induction false} DaysBetweenLast(k1: int, k2: int)
    requires k1 < k2
    ensures DaysBetween(k1, k2) == DaysBetween(k1, k2 - 1) + LengthOfMonth(k2 - 1)
    decreases k2 - k1
  {
    if k1 + 1 < k2 {
      DaysBetweenLast(k1 + 1, k2);
    }
  }

  // ---------------------------------------------------------------------------
  // Normalisation of a (month, day) pair
  // ---------------------------------------------------------------------------

  /** Day `d >= 1` counted from the first of month `k`, moved forward month by month. */
  function NormalizeForward(k: int, d: int): (r: CalendarDate)
    requires d >= 1
    ensures r.Valid()
    ensures DateMonthNumber(r) >= k
    ensures d == DaysBetween(k, DateMonthNumber(r)) + r.day
    decreases d
  {
    if d <= LengthOfMonth(k) then CalendarDate(k / 12, k % 12, d)
    else NormalizeForward(k + 1, d - LengthOfMonth(k))
  }

  /** Day `d <= 0` counted from the first of month `k`, moved backward month by month. */
  function NormalizeBackward(k: int, d: int): (r: CalendarDate)
    requires d < 1
    ensures r.Valid()
    ensures DateMonthNumber(r) < k
    ensures d + DaysBetween(DateMonthNumber(r), k) == r.day
    decreases -d
  {
    var d' := d + LengthOfMonth(k - 1);
    if d' >= 1 then CalendarDate((k - 1) / 12, (k - 1) % 12, d')
    else
      var r := NormalizeBackward(k - 1, d');
      DaysBetweenLast(DateMonthNumber(r), k);
      r
  }

  /** The valid date that lies `d - 1` days after the first of month `k`. */
  function Normalize(k: int, d: int): (r: CalendarDate)
    ensures r.Valid()
    ensures DateMonthNumber(r) >= k ==> d == DaysBetween(k, DateMonthNumber(r)) + r.day
    ensures DateMonthNumber(r) < k ==> d + DaysBetween(DateMonthNumber(r), k) == r.day
  {
    if d >= 1 then NormalizeForward(k, d) else NormalizeBackward(k, d)
  }

  /** `new Date(y, m, d)` for a year outside 0..99: month and day may be out of range. */
  function MakeDate(y: int, m: int, d: int): (r: CalendarDate)
    ensures r.Valid()
  {
    Normalize(MonthNumber(y, m), d)
  }

  /** `new Date(y, m, d)`, including the constructor's rule that a year 0..99 means 1900..1999. */
  function DateConstructor(y: int, m: int, d: int): (r: CalendarDate)
    ensures r.Valid()
    ensures r == MakeDate(if 0 <= y <= 99 then 1900 + y else y, m, d)
  {
    MakeDate(if 0 <= y <= 99 then 1900 + y else y, m, d)
  }

  /** A day within its month is kept, and the month is carried into the year. */
  lemma InRangeDayKept(y: int, m: int, d: int)
    requires 1 <= d <= LengthOfMonth(MonthNumber(y, m))
    ensures MakeDate(y, m, d) == CalendarDate(y + m / 12, m % 12, d)
  {
  }

  /** `new Date(y, m, d)` of a day within its month is that day, in the constructor's year. */
  lemma DateConstructorInRange(y: int, m: int, d: int)
    requires 0 <= m < 12
    requires 1 <= d <= DaysInMonth(if 0 <= y <= 99 then 1900 + y else y, m)
    ensures DateConstructor(y, m, d) == CalendarDate(if 0 <= y <= 99 then 1900 + y else y, m, d)
  {
    var fullYear := if 0 <= y <= 99 then 1900 + y else y;
    MonthNumberParts(fullYear, m);
    InRangeDayKept(fullYear, m, d);
  }

  /** Day 1 is the first of the (normalised) month. */
  lemma FirstOfMonth(y: int, m: int)
    ensures MakeDate(y, m, 1) == CalendarDate(y + m / 12, m % 12, 1)
  {
  }

  /** Day 0 is the last day of the month before. */
  lemma {:induction false} DayZeroIsLastDayOfPreviousMonth(y: int, m: int)
    ensures MakeDate(y, m, 0) == CalendarDate(y + (m - 1) / 12, (m - 1) % 12, DaysInMonth(y + (m - 1) / 12, (m - 1) % 12))
  {
    var k := MonthNumber(y, m);
    assert (k - 1) / 12 == y + (m - 1) / 12 && (k - 1) % 12 == (m - 1) % 12;
    assert MakeDate(y, m, 0) == NormalizeBackward(k, 0);
  }

  /** A day past the end of its month runs into the next month: 31 February 2025 is 3 March. */
  lemma OverflowIntoNextMonth()
    ensures MakeDate(2025, 1, 31) == CalendarDate(2025, 2, 3)
  {
    assert LengthOfMonth(MonthNumber(2025, 1)) == 28;
    assert LengthOfMonth(MonthNumber(2025, 2)) == 31;
  }

  /** Two valid dates the same number of days from the first of the same month are the same date:
    * together with the contract of `Normalize` this determines its result. */
  lemma {:induction false} OffsetDeterminesDate(k: int, a: CalendarDate, b: CalendarDate)
    requires a.Valid() && b.Valid()
    requires DateMonthNumber(a) >= k && DateMonthNumber(b) >= k
    requires DaysBetween(k, DateMonthNumber(a)) + a.day == DaysBetween(k, DateMonthNumber(b)) + b.day
    ensures a == b
    decreases DateMonthNumber(a) + DateMonthNumber(b) - 2 * k
  {
    var ka, kb := DateMonthNumber(a), DateMonthNumber(b);
    MonthNumberParts(a.year, a.month);
    MonthNumberParts(b.year, b.month);
    if ka > k {
      assert DaysBetween(k, ka) == LengthOfMonth(k) + DaysBetween(k + 1, ka);
    }
    if kb > k {
      assert DaysBetween(k, kb) == LengthOfMonth(k) + DaysBetween(k + 1, kb);
    }
    if ka > k && kb > k {
      OffsetDeterminesDate(k + 1, a, b);
    } else {
      assert ka == k && kb == k;
    }
  }

  // ---------------------------------------------------------------------------
  // Text forms
  // ---------------------------------------------------------------------------

  /** `${year}-${String(month).padStart(2, '0')}` with `month` counted from 1. */
  function MonthKey(year: int, month: int): string {
    IntToString(year) + "-" + Pad2(month)
  }

  /** `YYYY-MM-DD` with the month and the day padded to two digits. */
  function FormatDate(d: CalendarDate): string {
    MonthKey(d.year, d.month + 1) + "-" + Pad2(d.day)
  }

  /** Different months of the calendar have different keys. */
  lemma MonthKeyInjective(y1: int, m1: int, y2: int, m2: int)
    requires 0 <= m1 <= 99 && 0 <= m2 <= 99
    requires MonthKey(y1, m1) == MonthKey(y2, m2)
    ensures y1 == y2 && m1 == m2
  {
    var k := MonthKey(y1, m1);
    var n := |k|;
    assert k[n - 2..] == Pad2(m1) && k[n - 2..] == MonthKey(y2, m2)[n - 2..] == Pad2(m2);
    Pad2Value(m1);
    Pad2Value(m2);
    assert k[..n - 3] == IntToString(y1) && MonthKey(y2, m2)[..n - 3] == IntToString(y2);
    IntToStringInjective(y1, y2);
  }

  /** Different valid dates are printed differently. */
  lemma FormatDateInjective(a: CalendarDate, b: CalendarDate)
    requires a.Valid() && b.Valid()
    requires FormatDate(a) == FormatDate(b)
    ensures a == b
  {
    FormatDateParts(a);
    FormatDateParts(b);
    Pad2Value(a.day);
    Pad2Value(b.day);
    MonthKeyInjective(a.year, a.month + 1, b.year, b.month + 1);
  }

  /** The text of a valid date ends in its two-digit day, after the month key and a dash. */
  lemma FormatDateParts(d: CalendarDate)
    requires d.Valid()
    ensures |FormatDate(d)| >= 3
    ensures FormatDate(d)[|FormatDate(d)| - 2..] == Pad2(d.day)
    ensures FormatDate(d)[..|FormatDate(d)| - 3] == MonthKey(d.year, d.month + 1)
  {
    var k := MonthKey(d.year, d.month + 1);
    var s := FormatDate(d);
    assert s == k + "-" + Pad2(d.day) && |Pad2(d.day)| == 2;
    assert s[|s| - 2..] == Pad2(d.day);
    assert s[..|s| - 3] == k;
  }

  /** A four-digit year prints as ten characters `YYYY-MM-DD`. */
  lemma FormatDateShape(d: CalendarDate)
    requires d.Valid() && 1000 <= d.year <= 9999
    ensures |FormatDate(d)| == 10
    ensures FormatDate(d)[4] == '-' && FormatDate(d)[7] == '-'
    ensures DecimalValue(FormatDate(d)[5..7]) == d.month + 1
    ensures DecimalValue(FormatDate(d)[8..]) == d.day
  {
    assert |NatToString(d.year / 1000)| == 1;
    assert |NatToString(d.year / 100)| == 2;
    assert |NatToString(d.year / 10)| == 3;
    assert |IntToString(d.year)| == 4;
    var s := FormatDate(d);
    assert s[5..7] == Pad2(d.month + 1);
    assert s[8..] == Pad2(d.day);
    Pad2Value(d.month + 1);
    Pad2Value(d.day);
  }

  /** The year as `toISOString` prints it: four digits, zero-padded, for years 0 to 9999;
    * otherwise a sign and six digits. */
  function IsoYear(y: int): string {
    if 0 <= y <= 9999 then PadStart(NatToString(y), 4, '0')
    else (if y < 0 then "-" else "+") + PadStart(NatToString(if y < 0 then -y else y), 6, '0')
  }

  /** The date part of `toISOString()`, the text before its 'T'. */
  function IsoDate(d: CalendarDate): string {
    IsoYear(d.year) + "-" + Pad2(d.month + 1) + "-" + Pad2(d.day)
  }

  /** For four-digit years the ISO date part is the `YYYY-MM-DD` text. */
  lemma IsoDateOfFourDigitYear(d: CalendarDate)
    requires 1000 <= d.year <= 9999
    ensures IsoDate(d) == FormatDate(d)
  {
    assert |NatToString(d.year / 1000)| == 1;
    assert |NatToString(d.year / 100)| == 2;
    assert |NatToString(d.year / 10)| == 3;
    assert |NatToString(d.year)| == 4;
    assert IsoYear(d.year) == IntToString(d.year);
  }

  /** Years below 1000 are zero-padded by `toISOString` but not by `getFullYear()`. */
  lemma IsoYearPadded()
    ensures IsoYear(999) == "0999" && IntToString(999) == "999"
  {
    assert NatToString(9) == "9";
    assert NatToString(99) == "99";
    assert NatToString(999) == "999";
    assert seq(1, _ => '0') == "0";
  }
}
