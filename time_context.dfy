/**
 * The month-by-month grouping behind `generateTimeBasedContext`: the rows whose date cell is
 * truthy and reads as a valid date are put in buckets keyed `YYYY-MM` by the local year and
 * month of that date; the keys are sorted as strings, and for each month in that order the
 * context reports its record count and compares it with the month before it in the list.
 *
 * `new Date(v)` read in local time is an input (`dateOf`). The localised month name, the
 * percentage text and the string the lines are concatenated into are not modelled: a
 * `MonthLine` holds the numbers that one line of the context is printed from.
 */
module TimeContext {
  import opened Wrappers
  import opened JsText
  import opened Calendar
  import opened Collections
  import TableStatistics

  type Row = TableStatistics.Row
  type Value = TableStatistics.Value

  // ---------------------------------------------------------------------------
  // Which month a row belongs to
  // ---------------------------------------------------------------------------

  /** JavaScript truthiness of a cell: everything but `null`, `undefined`, `''`, `0` and `NaN`. */
  predicate Truthy(v: Value) {
    match v
    case Str(s) => s != []
    case Num(x) => x != 0.0
    case _ => false
  }

  /** The `YYYY-MM` key of a row's date cell (month counted from 1), when the cell is truthy and
    * reads as a valid date. */
  function RowMonth(row: Row, key: string, dateOf: Value -> Option<CalendarDate>): (r: Option<string>)
    ensures var v := TableStatistics.CellOf(row, key);
            r.Some? <==> Truthy(v) && dateOf(v).Some?
    ensures r.Some? ==> var d := dateOf(TableStatistics.CellOf(row, key)).value;
                        r.value == MonthKey(d.year, d.month + 1)
  {
    var v := TableStatistics.CellOf(row, key);
    if Truthy(v) && dateOf(v).Some? then Some(MonthKey(dateOf(v).value.year, dateOf(v).value.month + 1))
    else None
  }

  /** The month keys of the dated rows, in table order (with repeats). */
  function MonthsOf(rows: seq<Row>, key: string, dateOf: Value -> Option<CalendarDate>): (r: seq<string>)
    ensures |r| <= |rows|
  {
    if rows == [] then []
    else
      var m := RowMonth(rows[|rows| - 1], key, dateOf);
      MonthsOf(rows[..|rows| - 1], key, dateOf) + (if m.Some? then [m.value] else [])
  }

  /** The rows of month `k`, in table order. */
  function RowsInMonth(rows: seq<Row>, key: string, dateOf: Value -> Option<CalendarDate>, k: string): (r: seq<Row>)
    ensures |r| <= |rows|
  {
    if rows == [] then []
    else
      var last := rows[|rows| - 1];
      RowsInMonth(rows[..|rows| - 1], key, dateOf, k) + (if RowMonth(last, key, dateOf) == Some(k) then [last] else [])
  }

  /** A month has rows exactly when it is the month of some dated row. */
  lemma {:induction false} RowsInMonthNonEmpty(rows: seq<Row>, key: string, dateOf: Value -> Option<CalendarDate>, k: string)
    ensures RowsInMonth(rows, key, dateOf, k) != [] <==> k in MonthsOf(rows, key, dateOf)
  {
    if rows != [] {
      RowsInMonthNonEmpty(rows[..|rows| - 1], key, dateOf, k);
    }
  }

  /** Every row of month `k` is a row of the table whose date falls in month `k`. */
  lemma {:induction false} RowsInMonthBelong(rows: seq<Row>, key: string, dateOf: Value -> Option<CalendarDate>, k: string)
    ensures forall i :: 0 <= i < |RowsInMonth(rows, key, dateOf, k)| ==>
              RowsInMonth(rows, key, dateOf, k)[i] in rows
              && RowMonth(RowsInMonth(rows, key, dateOf, k)[i], key, dateOf) == Some(k)
  {
    if rows != [] {
      var init := rows[..|rows| - 1];
      RowsInMonthBelong(init, key, dateOf, k);
      var r := RowsInMonth(rows, key, dateOf, k);
      forall i | 0 <= i < |r|
        ensures r[i] in rows && RowMonth(r[i], key, dateOf) == Some(k)
      {
        if i < |RowsInMonth(init, key, dateOf, k)| {
          assert r[i] == RowsInMonth(init, key, dateOf, k)[i];
          assert r[i] in init;
        }
      }
    }
  }

  // ---------------------------------------------------------------------------
  // The loop that fills the buckets
  // ---------------------------------------------------------------------------

  /** The buckets after a row of month `m` (if any) is pushed: the bucket is made when the
    * month is new. */
  function Push(monthlyData: map<string, seq<Row>>, m: Option<string>, row: Row): map<string, seq<Row>> {
    if m.None? then monthlyData
    else monthlyData[m.value := (if m.value in monthlyData then monthlyData[m.value] else []) + [row]]
  }

  /** The `monthlyData` map once `rows` have been pushed in order. */
  function BucketsAfter(rows: seq<Row>, key: string, dateOf: Value -> Option<CalendarDate>): map<string, seq<Row>> {
    if rows == [] then map[]
    else
      var last := rows[|rows| - 1];
      Push(BucketsAfter(rows[..|rows| - 1], key, dateOf), RowMonth(last, key, dateOf), last)
  }

  /** There is a bucket for a month exactly when some dated row falls in it. */
  lemma {:induction false} BucketsAfterDomain(rows: seq<Row>, key: string, dateOf: Value -> Option<CalendarDate>, k: string)
    ensures k in BucketsAfter(rows, key, dateOf) <==> k in MonthsOf(rows, key, dateOf)
  {
    if rows != [] {
      BucketsAfterDomain(rows[..|rows| - 1], key, dateOf, k);
    }
  }

  /** A month's bucket holds that month's rows, in table order. */
  lemma {:induction false} BucketsAfterValue(rows: seq<Row>, key: string, dateOf: Value -> Option<CalendarDate>, k: string)
    requires k in BucketsAfter(rows, key, dateOf)
    ensures BucketsAfter(rows, key, dateOf)[k] == RowsInMonth(rows, key, dateOf, k)
  {
    var init := rows[..|rows| - 1];
    var before := BucketsAfter(init, key, dateOf);
    if k in before {
      BucketsAfterValue(init, key, dateOf, k);
    } else {
      BucketsAfterDomain(init, key, dateOf, k);
      RowsInMonthNonEmpty(init, key, dateOf, k);
    }
  }

  lemma BucketsAfterSnoc(rows: seq<Row>, row: Row, key: string, dateOf: Value -> Option<CalendarDate>)
    ensures BucketsAfter(rows + [row], key, dateOf) == Push(BucketsAfter(rows, key, dateOf), RowMonth(row, key, dateOf), row)
  {
    assert (rows + [row])[..|rows|] == rows;
  }

  lemma MonthsOfSnoc(rows: seq<Row>, row: Row, key: string, dateOf: Value -> Option<CalendarDate>)
    ensures var m := RowMonth(row, key, dateOf);
            MonthsOf(rows + [row], key, dateOf) == MonthsOf(rows, key, dateOf) + (if m.Some? then [m.value] else [])
  {
    assert (rows + [row])[..|rows|] == rows;
  }

  /** One more row: its month's bucket grows by the row, and a month not seen before is
    * added to the keys. */
  lemma GroupStep(seen: seq<Row>, row: Row, key: string, dateOf: Value -> Option<CalendarDate>)
    ensures BucketsAfter(seen + [row], key, dateOf) == Push(BucketsAfter(seen, key, dateOf), RowMonth(row, key, dateOf), row)
    ensures RowMonth(row, key, dateOf).None? ==>
              Distinct(MonthsOf(seen + [row], key, dateOf)) == Distinct(MonthsOf(seen, key, dateOf))
    ensures RowMonth(row, key, dateOf).Some? && RowMonth(row, key, dateOf).value in BucketsAfter(seen, key, dateOf) ==>
              Distinct(MonthsOf(seen + [row], key, dateOf)) == Distinct(MonthsOf(seen, key, dateOf))
    ensures RowMonth(row, key, dateOf).Some? && RowMonth(row, key, dateOf).value !in BucketsAfter(seen, key, dateOf) ==>
              Distinct(MonthsOf(seen + [row], key, dateOf))
              == Distinct(MonthsOf(seen, key, dateOf)) + [RowMonth(row, key, dateOf).value]
  {
    BucketsAfterSnoc(seen, row, key, dateOf);
    MonthsOfSnoc(seen, row, key, dateOf);
    var month := RowMonth(row, key, dateOf);
    var months := MonthsOf(seen, key, dateOf);
    if month.Some? {
      BucketsAfterDomain(seen, key, dateOf, month.value);
      DistinctAppend(months, month.value);
    } else {
      assert months + [] == months;
    }
  }

  /** Making the bucket when it is missing and then appending to it is `Push`. */
  lemma PushAsUpdates(monthlyData: map<string, seq<Row>>, monthKey: string, row: Row)
    ensures var made := if monthKey in monthlyData then monthlyData else monthlyData[monthKey := []];
            made[monthKey := made[monthKey] + [row]] == Push(monthlyData, Some(monthKey), row)
  {
  }

  /** The first loop of `generateTimeBasedContext`: each row whose date cell is truthy and
    * valid is pushed onto the bucket of its month, the bucket made when the month is new.
    * Also returns the map's keys in insertion order (`Array.from(monthlyData.keys())`). */
  method GroupByMonth(tableData: seq<Row>, key: string, dateOf: Value -> Option<CalendarDate>)
    returns (monthlyData: map<string, seq<Row>>, keys: seq<string>)
    ensures monthlyData == BucketsAfter(tableData, key, dateOf)
    ensures keys == Distinct(MonthsOf(tableData, key, dateOf))
  {
    monthlyData := map[];
    keys := [];
    var i := 0;
    while i < |tableData|
      invariant 0 <= i <= |tableData|
      invariant monthlyData == BucketsAfter(tableData[..i], key, dateOf)
      invariant keys == Distinct(MonthsOf(tableData[..i], key, dateOf))
    {
      var row := tableData[i];
      assert tableData[..i + 1] == tableData[..i] + [row];
      GroupStep(tableData[..i], row, key, dateOf);
      var month := RowMonth(row, key, dateOf);
      if month.Some? {
        var monthKey := month.value;
        PushAsUpdates(monthlyData, monthKey, row);
        if monthKey !in monthlyData {
          monthlyData := monthlyData[monthKey := []];
          keys := keys + [monthKey];
        }
        monthlyData := monthlyData[monthKey := monthlyData[monthKey] + [row]];
      }
      i := i + 1;
    }
    assert tableData[..i] == tableData;
  }

  // ---------------------------------------------------------------------------
  // `sort()` on the keys
  // ---------------------------------------------------------------------------

  /** The order of the default `sort()`: strings compared character by character, a prefix
    * first. */
  predicate LessEq(a: string, b: string)
    decreases |a|
  {
    a == [] || (b != [] && (a[0] < b[0] || (a[0] == b[0] && LessEq(a[1..], b[1..]))))
  }

  lemma {:induction false} LessEqTotal(a: string, b: string)
    ensures LessEq(a, b) || LessEq(b, a)
    decreases |a|
  {
    if a != [] && b != [] && a[0] == b[0] {
      LessEqTotal(a[1..], b[1..]);
    }
  }

  lemma {:induction false} LessEqTransitive(a: string, b: string, c: string)
    requires LessEq(a, b) && LessEq(b, c)
    ensures LessEq(a, c)
    decreases |a|
  {
    if a != [] && a[0] == b[0] && b[0] == c[0] {
      LessEqTransitive(a[1..], b[1..], c[1..]);
    }
  }

  lemma {:induction false} LessEqAntisymmetric(a: string, b: string)
    requires LessEq(a, b) && LessEq(b, a)
    ensures a == b
    decreases |a|
  {
    if a != [] {
      LessEqAntisymmetric(a[1..], b[1..]);
      assert a == [a[0]] + a[1..] && b == [b[0]] + b[1..];
    }
  }

  /** Behind a common prefix of the same length, the order is decided by what follows it;
    * behind different prefixes of the same length, by the prefixes. */
  lemma {:induction false} LessEqConcat(a: string, b: string, x: string, y: string)
    requires |a| == |b|
    ensures LessEq(a + x, b + y) == if a == b then LessEq(x, y) else LessEq(a, b)
    decreases |a|
  {
    if a == [] {
      assert b == [] && a + x == x && b + y == y;
    } else {
      assert (a + x)[0] == a[0] && (b + y)[0] == b[0];
      assert (a + x)[1..] == a[1..] + x && (b + y)[1..] == b[1..] + y;
      LessEqConcat(a[1..], b[1..], x, y);
      assert a == [a[0]] + a[1..] && b == [b[0]] + b[1..];
      if a[0] == b[0] {
        assert LessEq(a + x, b + y) == LessEq(a[1..] + x, b[1..] + y);
        assert LessEq(a, b) == LessEq(a[1..], b[1..]);
        assert a == b <==> a[1..] == b[1..];
      }
    }
  }

  /** Digit strings of the same length compare as the numbers they spell. */
  lemma {:induction false} DigitsOrder(a: string, b: string)
    requires AllDigits(a) && AllDigits(b) && |a| == |b|
    ensures LessEq(a, b) <==> DecimalValue(a) <= DecimalValue(b)
    ensures a != b ==> DecimalValue(a) != DecimalValue(b)
    decreases |a|
  {
    if a != [] {
      var n := |a| - 1;
      var ia, ib := a[..n], b[..n];
      DigitsOrder(ia, ib);
      LessEqConcat(ia, ib, [a[n]], [b[n]]);
      assert a == ia + [a[n]] && b == ib + [b[n]];
      var da, db := a[n] as int - '0' as int, b[n] as int - '0' as int;
      assert 0 <= da <= 9 && 0 <= db <= 9;
      if ia != ib {
        var va, vb := DecimalValue(ia), DecimalValue(ib);
        if va < vb {
          assert va * 10 + da < vb * 10 + db;
        } else {
          assert vb * 10 + db < va * 10 + da;
        }
      }
    }
  }

  lemma FourDigitText(n: nat)
    requires 1000 <= n <= 9999
    ensures |NatToString(n)| == 4
  {
    assert |NatToString(n / 1000)| == 1;
    assert |NatToString(n / 100)| == |NatToString(n / 100 / 10)| + 1;
    assert |NatToString(n / 10)| == |NatToString(n / 10 / 10)| + 1;
  }

  /** For four-digit years, sorting `YYYY-MM` keys as strings sorts the months in calendar
    * order. */
  lemma MonthKeyChronological(y1: int, m1: int, y2: int, m2: int)
    requires 1000 <= y1 <= 9999 && 1000 <= y2 <= 9999
    requires 1 <= m1 <= 12 && 1 <= m2 <= 12
    ensures LessEq(MonthKey(y1, m1), MonthKey(y2, m2)) <==> y1 < y2 || (y1 == y2 && m1 <= m2)
  {
    var s1, s2 := NatToString(y1), NatToString(y2);
    var p1, p2 := Pad2(m1), Pad2(m2);
    FourDigitText(y1);
    FourDigitText(y2);
    assert MonthKey(y1, m1) == s1 + ("-" + p1);
    assert MonthKey(y2, m2) == s2 + ("-" + p2);
    LessEqConcat(s1, s2, "-" + p1, "-" + p2);
    NatToStringRoundTrip(y1);
    NatToStringRoundTrip(y2);
    if s1 == s2 {
      assert ("-" + p1)[1..] == p1 && ("-" + p2)[1..] == p2;
      Pad2Value(m1);
      Pad2Value(m2);
      DigitsOrder(p1, p2);
    } else {
      DigitsOrder(s1, s2);
    }
  }

  predicate Sorted(s: seq<string>) {
    forall i, j :: 0 <= i < j < |s| ==> LessEq(s[i], s[j])
  }

  /** A string no greater than every element can go in front of a sorted sequence. */
  lemma ConsSorted(a: string, t: seq<string>)
    requires Sorted(t)
    requires forall j :: 0 <= j < |t| ==> LessEq(a, t[j])
    ensures Sorted([a] + t)
  {
    var r := [a] + t;
    forall i, j | 0 <= i < j < |r| ensures LessEq(r[i], r[j]) {
      if i > 0 {
        assert r[i] == t[i - 1] && r[j] == t[j - 1];
      }
    }
  }

  /** A string no greater than the head of a sorted sequence is no greater than all of it. */
  lemma HeadBound(x: string, s: seq<string>)
    requires Sorted(s) && s != [] && LessEq(x, s[0])
    ensures forall j :: 0 <= j < |s| ==> LessEq(x, s[j])
  {
    forall j | 0 < j < |s| ensures LessEq(x, s[j]) {
      LessEqTransitive(x, s[0], s[j]);
    }
  }

  /** A bound on `x` and on every element of `s` bounds every element of a sequence holding
    * `s` and `x`. */
  lemma MultisetBound(a: string, x: string, s: seq<string>, t: seq<string>)
    requires LessEq(a, x)
    requires forall k :: 0 <= k < |s| ==> LessEq(a, s[k])
    requires multiset(t) == multiset(s) + multiset{x}
    ensures forall j :: 0 <= j < |t| ==> LessEq(a, t[j])
  {
    forall j | 0 <= j < |t| ensures LessEq(a, t[j]) {
      assert t[j] in multiset(t);
      if t[j] != x {
        assert t[j] in multiset(s);
        var k :| 0 <= k < |s| && s[k] == t[j];
      }
    }
  }

  /** `x` put before the first element it does not follow. */
  function Insert(x: string, s: seq<string>): (r: seq<string>)
    requires Sorted(s)
    ensures multiset(r) == multiset(s) + multiset{x}
    ensures Sorted(r)
  {
    if s == [] then [x]
    else if LessEq(x, s[0]) then
      HeadBound(x, s);
      ConsSorted(x, s);
      [x] + s
    else
      LessEqTotal(x, s[0]);
      var tail := s[1..];
      TailSorted(s);
      var t := Insert(x, tail);
      MultisetBound(s[0], x, tail, t);
      ConsSorted(s[0], t);
      assert multiset([s[0]] + t) == multiset(s) + multiset{x} by {
        assert s == [s[0]] + tail;
      }
      [s[0]] + t
  }

  /** The tail of a sorted sequence is sorted and bounded below by the head. */
  lemma TailSorted(s: seq<string>)
    requires Sorted(s) && s != []
    ensures Sorted(s[1..])
    ensures forall k :: 0 <= k < |s[1..]| ==> LessEq(s[0], s[1..][k])
  {
    var tail := s[1..];
    forall i, j | 0 <= i < j < |tail| ensures LessEq(tail[i], tail[j]) {
      assert tail[i] == s[i + 1] && tail[j] == s[j + 1];
    }
    forall k | 0 <= k < |tail| ensures LessEq(s[0], tail[k]) {
      assert tail[k] == s[k + 1];
    }
  }

  /** `sort()` with the default order. */
  function SortStrings(s: seq<string>): (r: seq<string>)
    ensures multiset(r) == multiset(s)
    ensures Sorted(r)
  {
    if s == [] then []
    else
      assert s == [s[0]] + s[1..];
      Insert(s[0], SortStrings(s[1..]))
  }

  /** Inserting a new string into a sequence without repeats keeps it without repeats. */
  lemma {:induction false} InsertNoDuplicates(x: string, s: seq<string>)
    requires Sorted(s) && NoDuplicates(s) && x !in s
    ensures NoDuplicates(Insert(x, s))
  {
    if s != [] && !LessEq(x, s[0]) {
      var t := s[1..];
      assert Sorted(t) && NoDuplicates(t) && x !in t;
      InsertNoDuplicates(x, t);
      assert s[0] !in t;
      assert s[0] !in multiset(t) + multiset{x};
    }
  }

  /** Sorting distinct strings gives the same strings in strictly ascending order. */
  lemma {:induction false} SortedDistinctAscending(s: seq<string>)
    requires NoDuplicates(s)
    ensures NoDuplicates(SortStrings(s))
    ensures forall x :: x in SortStrings(s) <==> x in s
    ensures forall i, j :: 0 <= i < j < |SortStrings(s)| ==>
              LessEq(SortStrings(s)[i], SortStrings(s)[j]) && SortStrings(s)[i] != SortStrings(s)[j]
  {
    var r := SortStrings(s);
    if s != [] {
      var t := s[1..];
      assert NoDuplicates(t);
      SortedDistinctAscending(t);
      assert s[0] !in t;
      InsertNoDuplicates(s[0], SortStrings(t));
    }
    forall x ensures x in r <==> x in s {
      assert x in r <==> x in multiset(r);
      assert x in s <==> x in multiset(s);
    }
  }

  // ---------------------------------------------------------------------------
  // The lines of the context
  // ---------------------------------------------------------------------------

  /** What one line of the context is printed from: the month, its record count and, for
    * every month but the first listed, the count of the month listed before it. */
  datatype MonthLine = MonthLine(month: string, records: nat, previousRecords: Option<nat>)

  /** The second loop: one line per sorted month. */
  method MonthLines(sortedMonths: seq<string>, monthlyData: map<string, seq<Row>>) returns (lines: seq<MonthLine>)
    requires forall i :: 0 <= i < |sortedMonths| ==> sortedMonths[i] in monthlyData
    ensures |lines| == |sortedMonths|
    ensures forall i :: 0 <= i < |lines| ==>
              && lines[i].month == sortedMonths[i]
              && lines[i].records == |monthlyData[sortedMonths[i]]|
    ensures |lines| > 0 ==> lines[0].previousRecords == None
    ensures forall i :: 0 < i < |lines| ==> lines[i].previousRecords == Some(lines[i - 1].records)
  {
    lines := [];
    var index := 0;
    while index < |sortedMonths|
      invariant 0 <= index <= |sortedMonths| && |lines| == index
      invariant forall i :: 0 <= i < index ==> lines[i].month == sortedMonths[i]
      invariant forall i :: 0 <= i < index ==> lines[i].records == |monthlyData[sortedMonths[i]]|
      invariant index > 0 ==> lines[0].previousRecords == None
      invariant forall i :: 0 < i < index ==> lines[i].previousRecords == Some(lines[i - 1].records)
    {
      var monthKey := sortedMonths[index];
      var records := monthlyData[monthKey];
      var previous: Option<nat> := None;
      if index > 0 {
        previous := Some(|monthlyData[sortedMonths[index - 1]]|);
        assert previous == Some(lines[index - 1].records);
      }
      lines := lines + [MonthLine(monthKey, |records|, previous)];
      index := index + 1;
    }
  }

  /** Lines made one per sorted month list exactly the months. */
  lemma LinesCoverMonths(lines: seq<MonthLine>, sortedMonths: seq<string>, months: seq<string>)
    requires |lines| == |sortedMonths|
    requires forall i :: 0 <= i < |lines| ==> lines[i].month == sortedMonths[i]
    requires forall x :: x in sortedMonths <==> x in months
    ensures forall k :: (exists i :: 0 <= i < |lines| && lines[i].month == k) <==> k in months
  {
    forall k | k in months ensures exists i :: 0 <= i < |lines| && lines[i].month == k {
      var i :| 0 <= i < |sortedMonths| && sortedMonths[i] == k;
      assert lines[i].month == k;
    }
  }

  /** Each line's count is the size of its month's rows, which is never zero. */
  lemma LinesCountRows(lines: seq<MonthLine>, tableData: seq<Row>, key: string,
                       dateOf: Value -> Option<CalendarDate>, monthlyData: map<string, seq<Row>>)
    requires forall i :: 0 <= i < |lines| ==> lines[i].month in monthlyData && lines[i].records == |monthlyData[lines[i].month]|
    requires forall k :: k in monthlyData ==> monthlyData[k] == RowsInMonth(tableData, key, dateOf, k)
    requires forall i :: 0 <= i < |lines| ==> lines[i].month in MonthsOf(tableData, key, dateOf)
    ensures forall i :: 0 <= i < |lines| ==>
              lines[i].records == |RowsInMonth(tableData, key, dateOf, lines[i].month)| >= 1
  {
    forall i | 0 <= i < |lines|
      ensures lines[i].records == |RowsInMonth(tableData, key, dateOf, lines[i].month)| >= 1
    {
      RowsInMonthNonEmpty(tableData, key, dateOf, lines[i].month);
    }
  }

  /** Lines made one per month of a strictly ascending list are strictly ascending. */
  lemma LinesAscending(lines: seq<MonthLine>, sortedMonths: seq<string>)
    requires |lines| == |sortedMonths|
    requires forall i :: 0 <= i < |lines| ==> lines[i].month == sortedMonths[i]
    requires forall i, j :: 0 <= i < j < |sortedMonths| ==>
               LessEq(sortedMonths[i], sortedMonths[j]) && sortedMonths[i] != sortedMonths[j]
    ensures forall i, j :: 0 <= i < j < |lines| ==> LessEq(lines[i].month, lines[j].month) && lines[i].month != lines[j].month
  {
  }

  /** Every bucket holds its month's rows, and every month seen has a bucket. */
  lemma BucketsAgree(tableData: seq<Row>, key: string, dateOf: Value -> Option<CalendarDate>)
    ensures forall k :: k in BucketsAfter(tableData, key, dateOf) ==>
              BucketsAfter(tableData, key, dateOf)[k] == RowsInMonth(tableData, key, dateOf, k)
    ensures forall k :: k in MonthsOf(tableData, key, dateOf) ==> k in BucketsAfter(tableData, key, dateOf)
  {
    forall k | k in BucketsAfter(tableData, key, dateOf)
      ensures BucketsAfter(tableData, key, dateOf)[k] == RowsInMonth(tableData, key, dateOf, k)
    {
      BucketsAfterValue(tableData, key, dateOf, k);
    }
    forall k | k in MonthsOf(tableData, key, dateOf) ensures k in BucketsAfter(tableData, key, dateOf) {
      BucketsAfterDomain(tableData, key, dateOf, k);
    }
  }

  /** `Array.from(monthlyData.keys()).sort()` on distinct keys: the same keys, strictly
    * ascending. */
  method SortMonths(keys: seq<string>) returns (sortedMonths: seq<string>)
    requires NoDuplicates(keys)
    ensures forall x :: x in sortedMonths <==> x in keys
    ensures forall i, j :: 0 <= i < j < |sortedMonths| ==>
              LessEq(sortedMonths[i], sortedMonths[j]) && sortedMonths[i] != sortedMonths[j]
  {
    sortedMonths := SortStrings(keys);
    SortedDistinctAscending(keys);
  }

  /** `generateTimeBasedContext(tableData, dateColumn)`: one line per month that has dated rows,
    * in ascending key order with no month twice, each with that month's record count (at least
    * one) and the count of the line before it. */
  method TimeBasedContext(tableData: seq<Row>, key: string, dateOf: Value -> Option<CalendarDate>)
    returns (lines: seq<MonthLine>)
    ensures forall k :: (exists i :: 0 <= i < |lines| && lines[i].month == k) <==> k in MonthsOf(tableData, key, dateOf)
    ensures forall i :: 0 <= i < |lines| ==>
              lines[i].records == |RowsInMonth(tableData, key, dateOf, lines[i].month)| >= 1
    ensures forall i, j :: 0 <= i < j < |lines| ==> LessEq(lines[i].month, lines[j].month) && lines[i].month != lines[j].month
    ensures |lines| > 0 ==> lines[0].previousRecords == None
    ensures forall i :: 0 < i < |lines| ==> lines[i].previousRecords == Some(lines[i - 1].records)
  {
    var monthlyData, keys := GroupByMonth(tableData, key, dateOf);
    var sortedMonths := SortMonths(keys);
    BucketsAgree(tableData, key, dateOf);
    lines := MonthLines(sortedMonths, monthlyData);
    LinesCoverMonths(lines, sortedMonths, MonthsOf(tableData, key, dateOf));
    LinesCountRows(lines, tableData, key, dateOf, monthlyData);
    LinesAscending(lines, sortedMonths);
  }
}
