/**
 * The dashboard's date helpers: previous/current-month date ranges, the trailing
 * 22-month window, the N-month list and the tolerant date parser.
 * The wall clock is an input: `Clock` holds what `now.getFullYear()` and `now.getMonth()`
 * return. Engine-dependent `new Date(string)` parsing is an input function too.
 */
module DateUtils {
  import opened Wrappers
  import opened JsText
  import opened Calendar

  /** A year the clock can show; from 100 on, the `Date` constructor's two-digit-year rule
    * never applies to it. */
  type ClockYear = y: int | y >= 100 witness 2000

  /** The local year and month (0..11) of "now". */
  datatype Clock = Clock(year: ClockYear, month: MonthIndex)

  function ClockMonthNumber(now: Clock): int {
    MonthNumber(now.year, now.month)
  }

  /** The calendar month before the clock's month, by case analysis (reference definition). */
  function PreviousMonth(now: Clock): (r: (int, MonthIndex))
    ensures MonthNumber(r.0, r.1) == ClockMonthNumber(now) - 1
    ensures (ClockMonthNumber(now) - 1) / 12 == r.0 && (ClockMonthNumber(now) - 1) % 12 == r.1
  {
    var r: (int, MonthIndex) := if now.month == 0 then (now.year - 1, 11) else (now.year, now.month - 1);
    MonthNumberParts(r.0, r.1);
    r
  }

  lemma ClockFirstOfMonth(now: Clock, delta: int)
    ensures DateConstructor(now.year, now.month + delta, 1)
         == CalendarDate((ClockMonthNumber(now) + delta) / 12, (ClockMonthNumber(now) + delta) % 12, 1)
  {
    assert DateConstructor(now.year, now.month + delta, 1) == MakeDate(now.year, now.month + delta, 1);
    assert MakeDate(now.year, now.month + delta, 1) == NormalizeForward(ClockMonthNumber(now) + delta, 1);
  }

  lemma ClockDayZero(now: Clock, delta: int)
    ensures var k := ClockMonthNumber(now) + delta - 1;
            DateConstructor(now.year, now.month + delta, 0) == CalendarDate(k / 12, k % 12, LengthOfMonth(k))
  {
    assert DateConstructor(now.year, now.month + delta, 0) == MakeDate(now.year, now.month + delta, 0);
    assert MakeDate(now.year, now.month + delta, 0) == NormalizeBackward(ClockMonthNumber(now) + delta, 0);
  }

  datatype DateRange = DateRange(start: string, end: string)

  // ---------------------------------------------------------------------------
  // getPreviousMonthDateRange
  // ---------------------------------------------------------------------------

  /** The first and the last day of the previous month: `new Date(y, m - 1, 1)` and
    * `new Date(y, m, 0)`. */
  function PreviousMonthBounds(now: Clock): (r: (CalendarDate, CalendarDate))
    ensures var (y, m) := PreviousMonth(now);
            r.0 == CalendarDate(y, m, 1) && r.1 == CalendarDate(y, m, DaysInMonth(y, m))
  {
    ClockFirstOfMonth(now, -1);
    ClockDayZero(now, 0);
    (DateConstructor(now.year, now.month - 1, 1), DateConstructor(now.year, now.month, 0))
  }

  /** `getPreviousMonthDateRange`: both bounds printed `YYYY-MM-DD` in local time, so the range
    * runs from the 1st of the previous month's key to that month's last day. */
  function PreviousMonthDateRange(now: Clock): (r: DateRange)
    ensures var (y, m) := PreviousMonth(now);
            r.start == MonthKey(y, m + 1) + "-01" && r.end == MonthKey(y, m + 1) + "-" + Pad2(DaysInMonth(y, m))
  {
    assert Pad2(1) == "01";
    DateRange(FormatDate(PreviousMonthBounds(now).0), FormatDate(PreviousMonthBounds(now).1))
  }

  /** January's previous month is December of the year before. */
  lemma PreviousMonthOfJanuary(now: Clock)
    requires now.month == 0
    ensures PreviousMonthBounds(now) == (CalendarDate(now.year - 1, 11, 1), CalendarDate(now.year - 1, 11, 31))
  {
    assert PreviousMonth(now) == (now.year - 1, 11);
  }

  /** In March the range ends on 28 or 29 February, depending on the leap year. */
  lemma PreviousMonthOfMarch(now: Clock)
    requires now.month == 2
    ensures PreviousMonthBounds(now).1 == CalendarDate(now.year, 1, if IsLeapYear(now.year) then 29 else 28)
  {
    assert PreviousMonth(now) == (now.year, 1);
  }

  lemma Year2025Text()
    ensures IntToString(2025) == "2025"
  {
    assert NatToString(2) == "2";
    assert NatToString(20) == "20";
    assert NatToString(202) == "202";
  }

  /** On 15 March 2025 the previous month runs from 2025-02-01 to 2025-02-28. */
  lemma PreviousMonthExample()
    ensures PreviousMonthDateRange(Clock(2025, 2)) == DateRange("2025-02-01", "2025-02-28")
  {
    PreviousMonthOfMarch(Clock(2025, 2));
    assert PreviousMonth(Clock(2025, 2)) == (2025, 1);
    Year2025Text();
    assert MonthKey(2025, 2) == "2025-02" by { assert Pad2(2) == "02"; }
    assert FormatDate(CalendarDate(2025, 1, 1)) == "2025-02-01" by { assert Pad2(1) == "01"; }
    assert FormatDate(CalendarDate(2025, 1, 28)) == "2025-02-28" by { assert Pad2(28) == "28"; }
  }

  // ---------------------------------------------------------------------------
  // getCurrentMonthDateRange and getDateRangeForMonths
  // ---------------------------------------------------------------------------

  /** The first and the last day of the current month: `new Date(y, m, 1)` and
    * `new Date(y, m + 1, 0)`. */
  function CurrentMonthBounds(now: Clock): (r: (CalendarDate, CalendarDate))
    ensures r.0 == CalendarDate(now.year, now.month, 1)
    ensures r.1 == CalendarDate(now.year, now.month, DaysInMonth(now.year, now.month))
  {
    ClockFirstOfMonth(now, 0);
    ClockDayZero(now, 1);
    MonthNumberParts(now.year, now.month);
    (DateConstructor(now.year, now.month, 1), DateConstructor(now.year, now.month + 1, 0))
  }

  /** The first day of the month `monthsBack` months before the current one, and the last day of
    * the current month. */
  function MonthsBackBounds(now: Clock, monthsBack: int): (r: (CalendarDate, CalendarDate))
    ensures var k := ClockMonthNumber(now) - monthsBack;
            r.0 == CalendarDate(k / 12, k % 12, 1)
    ensures r.1 == CalendarDate(now.year, now.month, DaysInMonth(now.year, now.month))
  {
    ClockFirstOfMonth(now, -monthsBack);
    ClockDayZero(now, 1);
    MonthNumberParts(now.year, now.month);
    var month := now.month - monthsBack;
    assert month == now.month + -monthsBack;
    (DateConstructor(now.year, month, 1), DateConstructor(now.year, now.month + 1, 0))
  }

  /** Zero months back is the current month. */
  lemma ZeroMonthsBackIsCurrentMonth(now: Clock)
    ensures MonthsBackBounds(now, 0) == CurrentMonthBounds(now)
  {
    MonthNumberParts(now.year, now.month);
  }

  /** Going back across a year boundary: from January, one month back starts on 1 December of
    * the year before. */
  lemma MonthsBackAcrossYear(now: Clock)
    requires now.month == 0
    ensures MonthsBackBounds(now, 1).0 == CalendarDate(now.year - 1, 11, 1)
  {
    MonthNumberParts(now.year - 1, 11);
    assert ClockMonthNumber(now) - 1 == MonthNumber(now.year - 1, 11);
  }

  /** The current month printed in local time, as `getPreviousMonthDateRange` prints: from the
    * 1st to the last day of the clock's month. */
  function CurrentMonthDateRange(now: Clock): (r: DateRange)
    ensures var key := MonthKey(now.year, now.month + 1);
            r.start == key + "-01" && r.end == key + "-" + Pad2(DaysInMonth(now.year, now.month))
  {
    assert Pad2(1) == "01";
    DateRange(FormatDate(CurrentMonthBounds(now).0), FormatDate(CurrentMonthBounds(now).1))
  }

  /** The months-back range printed in local time: from the 1st of the month `monthsBack` months
    * before the clock's to the last day of the clock's month. */
  function DateRangeForMonths(now: Clock, monthsBack: int): (r: DateRange)
    ensures var k := ClockMonthNumber(now) - monthsBack;
            r.start == MonthKey(k / 12, k % 12 + 1) + "-01" && r.end == CurrentMonthDateRange(now).end
  {
    assert Pad2(1) == "01";
    DateRange(FormatDate(MonthsBackBounds(now, monthsBack).0), FormatDate(MonthsBackBounds(now, monthsBack).1))
  }

  // The two ranges as the source prints them: `toISOString()` gives the UTC day of local
  // midnight, which differs from the local day in a zone ahead of UTC. The zone's offset may
  // differ from day to day (daylight saving), so it is a function of the local day: `offsetAt(d)`
  // is the offset east of UTC, in minutes, in force at local midnight of `d`.

  /** The UTC calendar day of local midnight of `local` in a zone `offsetMinutes` ahead of UTC. */
  function UtcDayOfLocalMidnight(local: CalendarDate, offsetMinutes: int): CalendarDate {
    MakeDate(local.year, local.month, local.day + (-offsetMinutes) / (24 * 60))
  }

  /** At UTC or west of it (less than a day behind) the UTC day of local midnight is the local day. */
  lemma UtcDayWestOfGreenwich(local: CalendarDate, offsetMinutes: int)
    requires local.Valid() && -24 * 60 < offsetMinutes <= 0
    ensures UtcDayOfLocalMidnight(local, offsetMinutes) == local
  {
    assert (-offsetMinutes) / (24 * 60) == 0;
    MonthNumberParts(local.year, local.month);
    InRangeDayKept(local.year, local.month, local.day);
  }

  /** East of UTC (less than a day ahead) it is the day before the local day. */
  lemma UtcDayEastOfGreenwich(local: CalendarDate, offsetMinutes: int)
    requires local.Valid() && 0 < offsetMinutes < 24 * 60
    ensures UtcDayOfLocalMidnight(local, offsetMinutes) == MakeDate(local.year, local.month, local.day - 1)
  {
    assert (-offsetMinutes) / (24 * 60) == -1;
  }

  /** `d.toISOString().split('T')[0]` for the `Date` at local midnight of `local`. */
  function UtcPrinted(local: CalendarDate, offsetAt: CalendarDate -> int): string {
    IsoDate(UtcDayOfLocalMidnight(local, offsetAt(local)))
  }

  /** A valid date with a four-digit year at UTC or west of it (by less than a day) prints as its
    * local `YYYY-MM-DD` text. */
  predicate PrintsLocally(local: CalendarDate, offsetAt: CalendarDate -> int) {
    local.Valid() && 1000 <= local.year <= 9999 && -24 * 60 < offsetAt(local) <= 0
  }

  lemma UtcPrintedLocally(local: CalendarDate, offsetAt: CalendarDate -> int)
    requires PrintsLocally(local, offsetAt)
    ensures UtcPrinted(local, offsetAt) == FormatDate(local)
  {
    UtcDayWestOfGreenwich(local, offsetAt(local));
    IsoDateOfFourDigitYear(local);
  }

  /** `getCurrentMonthDateRange` as written. Where both bounds print locally it is the local
    * range. */
  function CurrentMonthDateRangeUtc(now: Clock, offsetAt: CalendarDate -> int): (r: DateRange)
    ensures PrintsLocally(CurrentMonthBounds(now).0, offsetAt) && PrintsLocally(CurrentMonthBounds(now).1, offsetAt)
            ==> r == CurrentMonthDateRange(now)
  {
    var (first, last) := CurrentMonthBounds(now);
    if PrintsLocally(first, offsetAt) && PrintsLocally(last, offsetAt) then
      UtcPrintedLocally(first, offsetAt);
      UtcPrintedLocally(last, offsetAt);
      DateRange(UtcPrinted(first, offsetAt), UtcPrinted(last, offsetAt))
    else
      DateRange(UtcPrinted(first, offsetAt), UtcPrinted(last, offsetAt))
  }

  /** `getDateRangeForMonths` as written. Where both bounds print locally it is the local
    * range. */
  function DateRangeForMonthsUtc(now: Clock, monthsBack: int, offsetAt: CalendarDate -> int): (r: DateRange)
    ensures PrintsLocally(MonthsBackBounds(now, monthsBack).0, offsetAt)
            && PrintsLocally(MonthsBackBounds(now, monthsBack).1, offsetAt)
            ==> r == DateRangeForMonths(now, monthsBack)
  {
    var (first, last) := MonthsBackBounds(now, monthsBack);
    if PrintsLocally(first, offsetAt) && PrintsLocally(last, offsetAt) then
      UtcPrintedLocally(first, offsetAt);
      UtcPrintedLocally(last, offsetAt);
      DateRange(UtcPrinted(first, offsetAt), UtcPrinted(last, offsetAt))
    else
      DateRange(UtcPrinted(first, offsetAt), UtcPrinted(last, offsetAt))
  }

  /** East of UTC the current-month range as written starts on the last day of the previous month,
    * and it ends one day before the last day of the current month when that day is east of UTC. */
  lemma UtcPrintingShiftsEastOfGreenwich(now: Clock, offsetAt: CalendarDate -> int)
    ensures var first := CurrentMonthBounds(now).0;
            0 < offsetAt(first) < 24 * 60 ==> UtcDayOfLocalMidnight(first, offsetAt(first)) == PreviousMonthBounds(now).1
    ensures var last := CurrentMonthBounds(now).1;
            0 < offsetAt(last) < 24 * 60 ==>
              UtcDayOfLocalMidnight(last, offsetAt(last)) == CalendarDate(now.year, now.month, DaysInMonth(now.year, now.month) - 1)
    ensures 0 < offsetAt(CurrentMonthBounds(now).0) < 24 * 60 && 1000 < now.year <= 9999 ==>
              CurrentMonthDateRangeUtc(now, offsetAt).start != CurrentMonthDateRange(now).start
  {
    var (first, last) := CurrentMonthBounds(now);
    DayZeroIsLastDayOfPreviousMonth(now.year, now.month);
    assert PreviousMonth(now).0 == now.year + (now.month - 1) / 12;
    var utcFirst := PreviousMonthBounds(now).1;
    if 0 < offsetAt(first) < 24 * 60 {
      UtcDayEastOfGreenwich(first, offsetAt(first));
      if 1000 < now.year <= 9999 {
        assert utcFirst != first by {
          assert utcFirst.day >= 28 && first.day == 1;
        }
        IsoDateOfFourDigitYear(utcFirst);
        if FormatDate(utcFirst) == FormatDate(first) {
          FormatDateInjective(utcFirst, first);
        }
      }
    }
    if 0 < offsetAt(last) < 24 * 60 {
      UtcDayEastOfGreenwich(last, offsetAt(last));
      InRangeDayKept(now.year, now.month, last.day - 1);
    }
  }

  lemma March2025Bounds()
    ensures CurrentMonthBounds(Clock(2025, 2)) == (CalendarDate(2025, 2, 1), CalendarDate(2025, 2, 31))
  {
  }

  lemma March1Text()
    ensures FormatDate(CalendarDate(2025, 2, 1)) == "2025-03-01"
  {
    Year2025Text();
    assert Pad2(3) == "03" && Pad2(1) == "01";
  }

  lemma February28Text()
    ensures FormatDate(CalendarDate(2025, 1, 28)) == "2025-02-28"
  {
    Year2025Text();
    assert Pad2(2) == "02" && Pad2(28) == "28";
  }

  lemma March30Text()
    ensures FormatDate(CalendarDate(2025, 2, 30)) == "2025-03-30"
  {
    Year2025Text();
    assert Pad2(3) == "03" && Pad2(30) == "30";
  }

  /** In India (UTC+05:30 all year) local midnight of 1 and 31 March 2025 falls on 28 February and
    * 30 March in UTC, so the source prints 2025-02-28 .. 2025-03-30 for March 2025 there. */
  lemma UtcPrintingExampleText(offsetAt: CalendarDate -> int)
    requires offsetAt(CalendarDate(2025, 2, 1)) == 330 && offsetAt(CalendarDate(2025, 2, 31)) == 330
    ensures CurrentMonthDateRangeUtc(Clock(2025, 2), offsetAt) == DateRange("2025-02-28", "2025-03-30")
  {
    var now := Clock(2025, 2);
    March2025Bounds();
    UtcPrintingShiftsEastOfGreenwich(now, offsetAt);
    PreviousMonthOfMarch(now);
    IsoDateOfFourDigitYear(CalendarDate(2025, 1, 28));
    IsoDateOfFourDigitYear(CalendarDate(2025, 2, 30));
    February28Text();
    March30Text();
  }

  /** In London, on GMT (UTC+0) on 1 March 2025 and on summer time (UTC+1) on 31 March 2025, the
    * start prints locally but the end moves back a day: 2025-03-01 .. 2025-03-30. */
  lemma UtcPrintingDaylightSavingExample(offsetAt: CalendarDate -> int)
    requires offsetAt(CalendarDate(2025, 2, 1)) == 0 && offsetAt(CalendarDate(2025, 2, 31)) == 60
    ensures CurrentMonthDateRangeUtc(Clock(2025, 2), offsetAt) == DateRange("2025-03-01", "2025-03-30")
  {
    var now := Clock(2025, 2);
    March2025Bounds();
    UtcPrintingShiftsEastOfGreenwich(now, offsetAt);
    UtcPrintedLocally(CalendarDate(2025, 2, 1), offsetAt);
    IsoDateOfFourDigitYear(CalendarDate(2025, 2, 30));
    March1Text();
    March30Text();
  }

  // ---------------------------------------------------------------------------
  // generateStandardMonthRange
  // ---------------------------------------------------------------------------

  const MonthNames: seq<string> :=
    ["Jan", "Feb", "Mar", "Apr", "May", "Jun", "Jul", "Aug", "Sep", "Oct", "Nov", "Dec"]

  /** One month of the standard range; `month` counts from 1. Its `key` ('YYYY-MM') and its
    * `display` label ('Mon YYYY') are derived from the year and month. */
  datatype MonthEntry = MonthEntry(year: int, month: int, quarter: int, sortOrder: int)
  {
    function key(): string {
      MonthKey(year, month)
    }

    function display(): string
      requires 1 <= month <= 12
    {
      MonthNames[month - 1] + " " + IntToString(year)
    }
  }

  /** `Math.ceil(month / 3)`. */
  function Quarter(month: int): (q: int)
    requires 1 <= month <= 12
    ensures 1 <= q <= 4
    ensures 3 * (q - 1) < month <= 3 * q
  {
    (month + 2) / 3
  }

  /** The object the loop pushes for year `year` and 0-based month `month`. */
  function MonthEntryAt(year: int, month: MonthIndex): MonthEntry {
    MonthEntry(year, month + 1, Quarter(month + 1), year * 100 + (month + 1))
  }

  /** The entry of month number `k`. */
  function EntryOf(k: int): (e: MonthEntry)
    ensures 1 <= e.month <= 12 && MonthNumber(e.year, e.month - 1) == k
  {
    MonthEntryAt(k / 12, k % 12)
  }

  /** The entry of a month number is built from its year and month. */
  lemma EntryOfParts(k: int, year: int, month: MonthIndex)
    requires k == MonthNumber(year, month)
    ensures EntryOf(k) == MonthEntryAt(year, month)
  {
    MonthNumberParts(year, month);
  }

  /** An entry whose key, quarter and sort order agree with its year and month (1..12). */
  predicate Consistent(e: MonthEntry) {
    && 1 <= e.month <= 12
    && e.quarter == Quarter(e.month)
    && e.sortOrder == e.year * 100 + e.month
  }

  /** The entry of a month number is consistent. */
  lemma EntryOfConsistent(k: int)
    ensures Consistent(EntryOf(k))
  {
  }

  /** Of two consistent entries, the one for the later month sorts later and has another key. */
  lemma LaterMonthSortsLater(a: MonthEntry, b: MonthEntry)
    requires Consistent(a) && Consistent(b)
    requires MonthNumber(a.year, a.month - 1) < MonthNumber(b.year, b.month - 1)
    ensures a.sortOrder < b.sortOrder && a.key() != b.key()
  {
    MonthNumberOrder(b.year, b.month - 1, a.year, a.month - 1);
    if a.year < b.year {
      assert a.year * 100 + 100 <= b.year * 100;
    }
    if a.key() == b.key() {
      MonthKeyInjective(a.year, a.month, b.year, b.month);
    }
  }

  /** Each entry is the calendar month after the one before it. */
  lemma EntryOfNextMonth(k: int)
    ensures var e, n := EntryOf(k), EntryOf(k + 1);
            if e.month == 12 then n.year == e.year + 1 && n.month == 1 else n.year == e.year && n.month == e.month + 1
  {
  }

  /** `build` applied to the `n` consecutive months from month number `k` on, oldest first. */
  function MonthWalk<T>(build: (int, MonthIndex) -> T, k: int, n: nat): (w: seq<T>)
    ensures |w| == n
  {
    if n == 0 then [] else MonthWalk(build, k, n - 1) + [build((k + n - 1) / 12, (k + n - 1) % 12)]
  }

  lemma {:induction false} MonthWalkIndex<T>(build: (int, MonthIndex) -> T, k: int, n: nat)
    ensures forall i :: 0 <= i < n ==> MonthWalk(build, k, n)[i] == build((k + i) / 12, (k + i) % 12)
  {
    if n > 0 {
      MonthWalkIndex(build, k, n - 1);
    }
  }

  lemma MonthWalkAt<T>(build: (int, MonthIndex) -> T, k: int, n: nat, i: int)
    ensures 0 <= i < n ==> MonthWalk(build, k, n)[i] == build((k + i) / 12, (k + i) % 12)
  {
    MonthWalkIndex(build, k, n);
  }

  /** One more month extends the walk by what `build` makes of that month. */
  lemma MonthWalkStep<T>(items: seq<T>, build: (int, MonthIndex) -> T, k: int, year: int, month: MonthIndex)
    requires items == MonthWalk(build, k, |items|)
    requires MonthNumber(year, month) == k + |items|
    ensures items + [build(year, month)] == MonthWalk(build, k, |items| + 1)
  {
    MonthNumberParts(year, month);
  }

  /** Entries of consecutive months are in ascending `sortOrder`, with distinct keys. */
  lemma ConsecutiveEntriesOrdered(w: seq<MonthEntry>, k: int)
    requires forall i :: 0 <= i < |w| ==> Consistent(w[i]) && MonthNumber(w[i].year, w[i].month - 1) == k + i
    ensures forall i, j :: 0 <= i < j < |w| ==> w[i].sortOrder < w[j].sortOrder && w[i].key() != w[j].key()
  {
    forall i, j | 0 <= i < j < |w|
      ensures w[i].sortOrder < w[j].sortOrder && w[i].key() != w[j].key()
    {
      LaterMonthSortsLater(w[i], w[j]);
    }
  }

  /** The standard range: the 22 months ending at the clock's month, oldest first. */
  function StandardRange(now: Clock): seq<MonthEntry> {
    MonthWalk(MonthEntryAt, ClockMonthNumber(now) - 21, 22)
  }

  /** The standard range ends at the clock's month, is in ascending `sortOrder` and has
    * distinct keys. */
  lemma StandardRangeProperties(now: Clock)
    ensures |StandardRange(now)| == 22
    ensures StandardRange(now)[21].year == now.year && StandardRange(now)[21].month == now.month + 1
    ensures forall i, j :: 0 <= i < j < 22 ==>
              StandardRange(now)[i].sortOrder < StandardRange(now)[j].sortOrder
    ensures forall i, j :: 0 <= i < j < 22 ==> StandardRange(now)[i].key() != StandardRange(now)[j].key()
  {
    var k := ClockMonthNumber(now) - 21;
    var w := StandardRange(now);
    MonthWalkIndex(MonthEntryAt, k, 22);
    forall i | 0 <= i < 22
      ensures Consistent(w[i]) && MonthNumber(w[i].year, w[i].month - 1) == k + i
    {
      assert w[i] == EntryOf(k + i);
      EntryOfConsistent(k + i);
    }
    ConsecutiveEntriesOrdered(w, k);
    EntryOfParts(ClockMonthNumber(now), now.year, now.month);
    assert w[21] == EntryOf(ClockMonthNumber(now));
  }

  /** The entry at position `i` of the standard range is that of the month `21 - i` months
    * before the clock's. */
  lemma StandardRangeAt(now: Clock, i: int)
    requires 0 <= i < 22
    ensures StandardRange(now)[i] == EntryOf(ClockMonthNumber(now) - 21 + i)
  {
    MonthWalkAt(MonthEntryAt, ClockMonthNumber(now) - 21, 22, i);
  }

  /** The entry for March 2025 prints as "2025-03" and "Mar 2025". */
  lemma March2025Text()
    ensures MonthEntry(2025, 3, 1, 202503).key() == "2025-03"
    ensures MonthEntry(2025, 3, 1, 202503).display() == "Mar 2025"
  {
    Year2025Text();
    assert Pad2(3) == "03";
  }

  /** In March 2025 the range runs from June 2023 ("2023-06", "Jun 2023") to March 2025
    * ("2025-03", "Mar 2025"). */
  lemma StandardRangeExample(now: Clock)
    requires now.year == 2025 && now.month == 2
    ensures StandardRange(now)[0] == MonthEntry(2023, 6, 2, 202306)
    ensures StandardRange(now)[21] == MonthEntry(2025, 3, 1, 202503)
    ensures StandardRange(now)[21].key() == "2025-03"
    ensures StandardRange(now)[21].display() == "Mar 2025"
  {
    var w := StandardRange(now);
    var k := ClockMonthNumber(now);
    assert k == 24302;
    StandardRangeAt(now, 0);
    assert w[0] == EntryOf(24281);
    assert 24281 / 12 == 2023 && 24281 % 12 == 5;
    assert Quarter(6) == 2;
    assert EntryOf(24281) == MonthEntry(2023, 6, 2, 202306);
    StandardRangeAt(now, 21);
    assert w[21] == EntryOf(24302);
    assert 24302 / 12 == 2025 && 24302 % 12 == 2;
    assert Quarter(3) == 1;
    assert EntryOf(24302) == MonthEntry(2025, 3, 1, 202503);
    March2025Text();
  }

  /** The first day of month number `k`. */
  function FirstOfMonthNumber(k: int): (d: CalendarDate)
    ensures MonthNumber(d.year, d.month) == k && d.day == 1
  {
    CalendarDate(k / 12, k % 12, 1)
  }

  /** The loop of `generateStandardMonthRange`: from the start month up to the end month, push
    * the object `build` makes of each, advancing the month and carrying into the year. */
  method WalkMonths<T>(startYear: int, startMonth: MonthIndex, endYear: int, endMonth: MonthIndex,
                       build: (int, MonthIndex) -> T) returns (items: seq<T>)
    ensures var startK, endK := MonthNumber(startYear, startMonth), MonthNumber(endYear, endMonth);
            items == MonthWalk(build, startK, if startK <= endK then endK + 1 - startK else 0)
  {
    var startK := MonthNumber(startYear, startMonth);
    var endK := MonthNumber(endYear, endMonth);
    var iterYear := startYear;
    var iterMonth := startMonth as int;
    items := [];
    while iterYear < endYear || (iterYear == endYear && iterMonth <= endMonth)
      invariant 0 <= iterMonth < 12
      invariant MonthNumber(iterYear, iterMonth) == startK + |items|
      invariant startK <= endK + 1 ==> MonthNumber(iterYear, iterMonth) <= endK + 1
      invariant startK > endK ==> items == []
      invariant items == MonthWalk(build, startK, |items|)
      decreases endK - MonthNumber(iterYear, iterMonth)
    {
      MonthNumberOrder(iterYear, iterMonth, endYear, endMonth);
      MonthWalkStep(items, build, startK, iterYear, iterMonth);
      items := items + [build(iterYear, iterMonth)];
      iterMonth := iterMonth + 1;
      if iterMonth > 11 {
        iterMonth := 0;
        iterYear := iterYear + 1;
      }
    }
    MonthNumberOrder(iterYear, iterMonth, endYear, endMonth);
  }

  /** `generateStandardMonthRange`: walks from 21 months before the clock's month up to it. */
  method GenerateStandardMonthRange(now: Clock) returns (months: seq<MonthEntry>)
    ensures months == StandardRange(now)
  {
    // `new Date(y, m, 1)` and `new Date(y, m - 21, 1)`, in the closed form `ClockFirstOfMonth` gives
    var end := CalendarDate(now.year, now.month, 1);
    var start := FirstOfMonthNumber(ClockMonthNumber(now) - 21);
    months := WalkMonths(start.year, start.month, end.year, end.month, MonthEntryAt);
    StandardWalk(now, MonthNumber(start.year, start.month), MonthNumber(end.year, end.month));
  }

  /** The walk from 21 months before the clock's month to the clock's month is the standard range. */
  lemma StandardWalk(now: Clock, startK: int, endK: int)
    requires startK == ClockMonthNumber(now) - 21 && endK == ClockMonthNumber(now)
    ensures MonthWalk(MonthEntryAt, startK, endK + 1 - startK) == StandardRange(now)
  {
    assert endK + 1 - startK == 22;
  }


  // ---------------------------------------------------------------------------
  // generateDynamicMonths
  // ---------------------------------------------------------------------------

  /** The number of months listed when the caller gives none. */
  const DefaultMonthCount: int := 18

  /** One entry of the dynamic list; `month` counts from 1 and the `key` ('YYYY-MM') is derived
    * from the year and month. The localised `display` label is not modelled. */
  datatype DynamicMonth = DynamicMonth(year: int, month: int)
  {
    function key(): string {
      MonthKey(year, month)
    }
  }

  /** The object the loop pushes for the date of year `year` and 0-based month `month`. */
  function DynamicMonthAt(year: int, month: MonthIndex): DynamicMonth {
    DynamicMonth(year, month + 1)
  }

  /** The dynamic list: the `monthCount` months ending at the clock's month, oldest first; none
    * when the count is not positive. */
  function DynamicRange(now: Clock, monthCount: int): seq<DynamicMonth> {
    MonthWalk(DynamicMonthAt, ClockMonthNumber(now) - (monthCount - 1), if monthCount > 0 then monthCount else 0)
  }

  /** `new Date(y, m - back, 1)` is the first of the month `back` months before the clock's. */
  lemma ClockMonthsBack(now: Clock, back: int)
    ensures var k := ClockMonthNumber(now) - back;
            DateConstructor(now.year, now.month - back, 1) == CalendarDate(k / 12, k % 12, 1)
  {
    ClockFirstOfMonth(now, -back);
    assert now.month - back == now.month + -back;
  }

  /** The loop of `generateDynamicMonths`: for `i` from `monthCount - 1` down to 0, push the object
    * `build` makes of the date `new Date(y, m - i, 1)`. */
  method MonthsBack<T>(now: Clock, monthCount: int, build: (int, MonthIndex) -> T) returns (items: seq<T>)
    ensures items == MonthWalk(build, ClockMonthNumber(now) - (monthCount - 1), if monthCount > 0 then monthCount else 0)
  {
    var first := ClockMonthNumber(now) - (monthCount - 1);
    items := [];
    var i := monthCount - 1;
    while i >= 0
      invariant i >= -1 || i == monthCount - 1
      invariant |items| == monthCount - 1 - i
      invariant items == MonthWalk(build, first, |items|)
    {
      var date := DateConstructor(now.year, now.month - i, 1);
      ClockMonthsBack(now, i);
      MonthNumberParts((ClockMonthNumber(now) - i) / 12, (ClockMonthNumber(now) - i) % 12);
      MonthWalkStep(items, build, first, date.year, date.month);
      items := items + [build(date.year, date.month)];
      i := i - 1;
    }
  }

  /** `generateDynamicMonths(monthCount)`; the caller's default count is `DefaultMonthCount`. */
  method GenerateDynamicMonths(now: Clock, monthCount: int) returns (months: seq<DynamicMonth>)
    ensures months == DynamicRange(now, monthCount)
  {
    months := MonthsBack(now, monthCount, DynamicMonthAt);
  }

  /** The entry at position `i` of the dynamic list is that of the month `monthCount - 1 - i`
    * months before the clock's. */
  lemma DynamicRangeAt(now: Clock, monthCount: int, i: int)
    requires 0 <= i < |DynamicRange(now, monthCount)|
    ensures var e := DynamicRange(now, monthCount)[i];
            1 <= e.month <= 12 && MonthNumber(e.year, e.month - 1) == ClockMonthNumber(now) - (monthCount - 1) + i
  {
    var first := ClockMonthNumber(now) - (monthCount - 1);
    MonthWalkAt(DynamicMonthAt, first, if monthCount > 0 then monthCount else 0, i);
  }

  /** The dynamic list has `monthCount` entries (none for a count below 1), ends at the clock's
    * month, is in calendar order and has distinct keys. */
  lemma DynamicRangeProperties(now: Clock, monthCount: int)
    ensures |DynamicRange(now, monthCount)| == if monthCount > 0 then monthCount else 0
    ensures monthCount > 0 ==> DynamicRange(now, monthCount)[monthCount - 1] == DynamicMonth(now.year, now.month + 1)
    ensures forall i, j :: 0 <= i < j < |DynamicRange(now, monthCount)| ==>
              MonthNumber(DynamicRange(now, monthCount)[i].year, DynamicRange(now, monthCount)[i].month - 1)
              < MonthNumber(DynamicRange(now, monthCount)[j].year, DynamicRange(now, monthCount)[j].month - 1)
    ensures forall i, j :: 0 <= i < j < |DynamicRange(now, monthCount)| ==>
              DynamicRange(now, monthCount)[i].key() != DynamicRange(now, monthCount)[j].key()
  {
    var w := DynamicRange(now, monthCount);
    forall i, j | 0 <= i < j < |w|
      ensures MonthNumber(w[i].year, w[i].month - 1) < MonthNumber(w[j].year, w[j].month - 1)
      ensures w[i].key() != w[j].key()
    {
      DynamicRangeAt(now, monthCount, i);
      DynamicRangeAt(now, monthCount, j);
      if w[i].key() == w[j].key() {
        MonthKeyInjective(w[i].year, w[i].month, w[j].year, w[j].month);
      }
    }
    if monthCount > 0 {
      var last := w[monthCount - 1];
      DynamicRangeAt(now, monthCount, monthCount - 1);
      MonthNumberParts(now.year, now.month);
      MonthNumberParts(last.year, last.month - 1);
    }
  }

  // ---------------------------------------------------------------------------
  // parseDate
  // ---------------------------------------------------------------------------

  /** The `DD/MM/YYYY[ time]` reading of the numbers: the text before the first space, split on
    * '/', three parts that each start with a number, as (day, month, year). There is a reading
    * only for text with a slash. */
  function SlashFields(s: string): (r: Option<(int, int, int)>)
    ensures r.Some? ==> '/' in s
  {
    var datePart := Trim(Before(s, ' '));
    if '/' in datePart then
      TrimKeepsChar(Before(s, ' '), '/');
      FieldsOfParts(Split(datePart, '/'))
    else
      NoSeparatorSplit(datePart, '/');
      FieldsOfParts(Split(datePart, '/'))
  }

  /** Day, month and year from the pieces between the slashes: exactly three, each read by
    * `parseInt`; no reading when there are more or fewer, or when one of them is NaN. */
  function FieldsOfParts(parts: seq<string>): (r: Option<(int, int, int)>)
    ensures r.Some? <==> |parts| == 3 && ParseInt(parts[0]).Some? && ParseInt(parts[1]).Some? && ParseInt(parts[2]).Some?
    ensures r.Some? ==> r.value == (ParseInt(parts[0]).value, ParseInt(parts[1]).value, ParseInt(parts[2]).value)
  {
    if |parts| == 3 then
      var day, month, year := ParseInt(parts[0]), ParseInt(parts[1]), ParseInt(parts[2]);
      if year.Some? && month.Some? && day.Some? then Some((day.value, month.value, year.value))
      else None
    else None
  }

  /** `new Date(year, month - 1, day)` of a slash reading: no range check, so `Date` normalises
    * the values to a valid date; a day and a month within range are kept as they are, and a
    * year 0 to 99 is read as 1900 to 1999. */
  function FieldsDate(day: int, month: int, year: int): (r: CalendarDate)
    ensures r.Valid()
    ensures var fullYear := if 0 <= year <= 99 then 1900 + year else year;
            1 <= month <= 12 && 1 <= day <= DaysInMonth(fullYear, month - 1) ==> r == CalendarDate(fullYear, month - 1, day)
  {
    var fullYear := if 0 <= year <= 99 then 1900 + year else year;
    if 1 <= month <= 12 && 1 <= day <= DaysInMonth(fullYear, month - 1) then
      DateConstructorInRange(year, month - 1, day);
      DateConstructor(year, month - 1, day)
    else
      DateConstructor(year, month - 1, day)
  }

  /** The date of the slash reading: a date exactly when there is a reading. */
  function SlashDate(s: string): (r: Option<CalendarDate>)
    ensures r.Some? <==> SlashFields(s).Some?
    ensures r.Some? ==> r.value.Valid() && r.value == FieldsDate(SlashFields(s).value.0, SlashFields(s).value.1, SlashFields(s).value.2)
  {
    var fields := SlashFields(s);
    if fields.None? then None
    else Some(FieldsDate(fields.value.0, fields.value.1, fields.value.2))
  }

  /** `parseDate`: `None` for blank text; otherwise, in turn, the text before the first comma given
    * to the native parser, the slash reading, and the native parser on the whole text. */
  function ParseDate(s: string, nativeParse: string -> Option<CalendarDate>): (r: Option<CalendarDate>)
    ensures AllSpace(s) ==> r == None
    ensures !AllSpace(s) && ',' !in s && '/' !in s ==> r == nativeParse(s)
    ensures !AllSpace(s) && ',' in s && nativeParse(Trim(Before(s, ','))).Some?
            ==> r == nativeParse(Trim(Before(s, ',')))
    ensures !AllSpace(s) && !(',' in s && nativeParse(Trim(Before(s, ','))).Some?) && SlashDate(s).Some?
            ==> r == SlashDate(s)
    ensures !AllSpace(s) && !(',' in s && nativeParse(Trim(Before(s, ','))).Some?) && SlashDate(s).None?
            ==> r == nativeParse(s)
  {
    if s == [] || Trim(s) == [] then None
    else if ',' in s && nativeParse(Trim(Before(s, ','))).Some? then nativeParse(Trim(Before(s, ',')))
    else if '/' in s && SlashDate(s).Some? then SlashDate(s)
    else if '-' in s && nativeParse(s).Some? then nativeParse(s)
    else nativeParse(s)
  }

  lemma DigitsExclude(s: string, c: char)
    requires AllDigits(s) && !IsDigit(c)
    ensures c !in s
  {
    forall i | 0 <= i < |s|
      ensures s[i] != c
    {
      assert IsDigit(s[i]);
    }
  }

  /** `D/M/Y` joined with slashes. */
  lemma JoinThree(d: string, m: string, y: string)
    ensures Join([d, m, y], '/') == d + "/" + m + "/" + y
  {
    assert [d, m, y][1..] == [m, y];
    assert [m, y][1..] == [y];
    assert Join([m, y], '/') == m + "/" + y;
    assert Join([d, m, y], '/') == d + "/" + (m + "/" + y);
  }

  /** The date part of `D/M/Y` followed by nothing or by a space is `D/M/Y` itself. */
  lemma SlashDatePart(d: string, m: string, y: string, rest: string)
    requires d != [] && AllDigits(d) && AllDigits(m) && y != [] && AllDigits(y)
    requires rest == [] || rest[0] == ' '
    ensures Trim(Before(d + "/" + m + "/" + y + rest, ' ')) == Join([d, m, y], '/')
  {
    var datePart := Join([d, m, y], '/');
    JoinThree(d, m, y);
    assert d + "/" + m + "/" + y + rest == datePart + rest;
    DigitsExclude(d, ' ');
    DigitsExclude(m, ' ');
    DigitsExclude(y, ' ');
    assert ' ' !in datePart;
    BeforeUpTo(datePart, rest, ' ');
    assert datePart[0] == d[0] && datePart[|datePart| - 1] == y[|y| - 1];
    TrimUnchanged(datePart);
  }

  /** Three non-empty runs of digits are read as their decimal values. */
  lemma FieldsOfDigits(d: string, m: string, y: string)
    requires d != [] && m != [] && y != [] && AllDigits(d) && AllDigits(m) && AllDigits(y)
    ensures FieldsOfParts([d, m, y]) == Some((DecimalValue(d), DecimalValue(m), DecimalValue(y)))
  {
    ParseIntDigits(d);
    ParseIntDigits(m);
    ParseIntDigits(y);
  }

  /** `D/M/Y` followed by nothing or by a space reads as day D, month M and year Y. */
  lemma SlashDateOfDigits(d: string, m: string, y: string, rest: string)
    requires d != [] && m != [] && y != [] && AllDigits(d) && AllDigits(m) && AllDigits(y)
    requires rest == [] || rest[0] == ' '
    ensures SlashFields(d + "/" + m + "/" + y + rest) == Some((DecimalValue(d), DecimalValue(m), DecimalValue(y)))
  {
    var s := d + "/" + m + "/" + y + rest;
    SlashDatePart(d, m, y, rest);
    SplitThree(d, m, y);
    assert Split(Trim(Before(s, ' ')), '/') == [d, m, y];
    FieldsOfDigits(d, m, y);
  }

  /** Three runs of digits joined with slashes split back into the three runs. */
  lemma SplitThree(d: string, m: string, y: string)
    requires AllDigits(d) && AllDigits(m) && AllDigits(y)
    ensures Split(Join([d, m, y], '/'), '/') == [d, m, y]
  {
    DigitsExclude(d, '/');
    DigitsExclude(m, '/');
    DigitsExclude(y, '/');
    var parts := [d, m, y];
    assert forall i :: 0 <= i < |parts| ==> '/' !in parts[i];
    SplitJoin(parts, '/');
  }

  /** Text that is not blank, has no comma and has a slash takes the slash reading whenever that
    * reading gives a date. */
  lemma ParseDateSlashBranch(s: string, nativeParse: string -> Option<CalendarDate>)
    requires !AllSpace(s) && ',' !in s && '/' in s
    requires SlashDate(s).Some?
    ensures ParseDate(s, nativeParse) == SlashDate(s)
  {
  }

  /** Three runs of digits `D/M/Y`, optionally followed by a space and anything, with no comma:
    * the slash reading applies, whatever the native parser does, and reads D, M and Y. */
  lemma ParseDateSlashDigits(d: string, m: string, y: string, rest: string,
                             nativeParse: string -> Option<CalendarDate>)
    requires d != [] && m != [] && y != [] && AllDigits(d) && AllDigits(m) && AllDigits(y)
    requires rest == [] || rest[0] == ' '
    requires ',' !in rest
    ensures SlashFields(d + "/" + m + "/" + y + rest) == Some((DecimalValue(d), DecimalValue(m), DecimalValue(y)))
    ensures ParseDate(d + "/" + m + "/" + y + rest, nativeParse) == SlashDate(d + "/" + m + "/" + y + rest)
  {
    SlashDateOfDigits(d, m, y, rest);
    SlashTextShape(d, m, y, rest);
    ParseDateSlashBranch(d + "/" + m + "/" + y + rest, nativeParse);
  }

  /** `D/M/Y` plus a comma-free rest is not blank, has a slash and has no comma. */
  lemma SlashTextShape(d: string, m: string, y: string, rest: string)
    requires d != [] && AllDigits(d) && AllDigits(m) && AllDigits(y)
    requires ',' !in rest
    ensures var s := d + "/" + m + "/" + y + rest; !AllSpace(s) && ',' !in s && '/' in s
  {
    var s := d + "/" + m + "/" + y + rest;
    DigitsExclude(d, ',');
    DigitsExclude(m, ',');
    DigitsExclude(y, ',');
    assert s[|d|] == '/';
    assert s[0] == d[0] && !IsSpace(d[0]);
  }

  lemma DecimalExamples()
    ensures DecimalValue("14") == 14 && DecimalValue("09") == 9 && DecimalValue("31") == 31
    ensures DecimalValue("02") == 2 && DecimalValue("2025") == 2025
  {
    assert "2025"[..3] == "202" && "202"[..2] == "20" && "20"[..1] == "2";
  }

  /** The slash reading of `"14/09/2025 10:00:00"`: the time after the space is ignored. */
  lemma SlashFieldsExample(nativeParse: string -> Option<CalendarDate>)
    ensures ParseDate("14/09/2025 10:00:00", nativeParse) == SlashDate("14/09/2025 10:00:00")
    ensures SlashFields("14/09/2025 10:00:00") == Some((14, 9, 2025))
  {
    assert "14/09/2025 10:00:00" == "14" + "/" + "09" + "/" + "2025" + " 10:00:00";
    ParseDateSlashDigits("14", "09", "2025", " 10:00:00", nativeParse);
    DecimalExamples();
  }

  /** `parseDate("14/09/2025 10:00:00")` is 14 September 2025. */
  lemma ParseDateExample(nativeParse: string -> Option<CalendarDate>)
    ensures ParseDate("14/09/2025 10:00:00", nativeParse) == Some(CalendarDate(2025, 8, 14))
  {
    SlashFieldsExample(nativeParse);
    InRangeDayKept(2025, 8, 14);
    assert DateConstructor(2025, 8, 14) == MakeDate(2025, 8, 14);
  }

  /** The slash reading of `"31/02/2025"`. */
  lemma SlashFieldsOverflow(nativeParse: string -> Option<CalendarDate>)
    ensures ParseDate("31/02/2025", nativeParse) == SlashDate("31/02/2025")
    ensures SlashFields("31/02/2025") == Some((31, 2, 2025))
  {
    assert "31/02/2025" == "31" + "/" + "02" + "/" + "2025" + "";
    ParseDateSlashDigits("31", "02", "2025", "", nativeParse);
    DecimalExamples();
  }

  /** Day and month are not range-checked: "31/02/2025" is 3 March 2025. */
  lemma ParseDateOverflow(nativeParse: string -> Option<CalendarDate>)
    ensures ParseDate("31/02/2025", nativeParse) == Some(CalendarDate(2025, 2, 3))
  {
    SlashFieldsOverflow(nativeParse);
    OverflowIntoNextMonth();
    assert DateConstructor(2025, 1, 31) == MakeDate(2025, 1, 31);
  }

  // ---------------------------------------------------------------------------
  // getPreviousMonthPeriod
  // ---------------------------------------------------------------------------

  /** The previous month as `YYYY-MM`. */
  function PreviousMonthPeriod(now: Clock): (r: string)
    ensures var (y, m) := PreviousMonth(now); r == MonthKey(y, m + 1)
  {
    var previous := DateConstructor(now.year, now.month - 1, 1);
    ClockFirstOfMonth(now, -1);
    MonthKey(previous.year, previous.month + 1)
  }

  /** In January the period is December of the year before. */
  lemma PreviousMonthPeriodOfJanuary(now: Clock)
    requires now.month == 0
    ensures PreviousMonthPeriod(now) == IntToString(now.year - 1) + "-12"
  {
    assert PreviousMonth(now) == (now.year - 1, 11);
    assert Pad2(12) == "12";
  }
}
