/**
 * The per-column statistics the analysis prompt is built from: for number-like columns the
 * count, sum, mean, least and greatest of the values that read as numbers; for text columns
 * the distinct values, the first five of them and the most common one; for date columns the
 * count, the earliest and latest instants and a rough label for the span between them.
 *
 * A cell is a `Value`. How the engine reads a number out of text (`parseFloat`), prints a
 * number (`String(x)`) and reads an instant out of a cell (`new Date(v)`) are inputs, gathered
 * in an `Engine`. Numbers are exact reals: floating-point rounding is not modelled.
 */
module TableStatistics {
  import opened Wrappers
  import opened JsText
  import opened Collections

  // ---------------------------------------------------------------------------
  // Data
  // ---------------------------------------------------------------------------

  /** A cell: `null`, `undefined`, a string, a number, or `NaN`. */
  datatype Value = Null | Undefined | Str(s: string) | Num(x: real) | NotANumber

  /** A row maps column keys to cells; a missing key reads as `undefined`. */
  type Row = map<string, Value>

  datatype ColumnType = NumberColumn | Currency | Percentage | TextColumn | DateColumn

  /** A column description; `kind` is the optional `type` field. */
  datatype Column = Column(key: string, header: string, kind: Option<ColumnType>)

  /** The engine behaviour the statistics depend on. */
  datatype Engine = Engine(
    parseFloat: string -> Option<real>,  // `parseFloat(s)`, `None` for NaN
    numberText: real -> string,          // `String(x)` for a number
    timeOf: Value -> Option<int>)        // `new Date(v).getTime()`, `None` when invalid

  function CellOf(row: Row, key: string): Value {
    if key in row then row[key] else Undefined
  }

  /** Neither `null` nor `undefined`. */
  predicate Present(v: Value) {
    !v.Null? && !v.Undefined?
  }

  /** `data.map(row => row[key])`. */
  function CellsOf(data: seq<Row>, key: string): (r: seq<Value>)
    ensures |r| == |data|
    ensures forall i :: 0 <= i < |data| ==> r[i] == CellOf(data[i], key)
  {
    MapSeq((row: Row) => CellOf(row, key), data)
  }

  /** `data.map(row => row[key]).filter(val => val !== null && val !== undefined)`. */
  function ColumnValues(data: seq<Row>, key: string): (r: seq<Value>)
    ensures forall i :: 0 <= i < |r| ==> Present(r[i])
  {
    FilterSeq(Present, CellsOf(data, key))
  }

  /** The kept values are exactly the present cells of the column, in row order. */
  lemma ColumnValuesMembers(data: seq<Row>, key: string)
    ensures forall v :: v in ColumnValues(data, key) <==>
              Present(v) && exists i :: 0 <= i < |data| && CellOf(data[i], key) == v
    ensures IsSubsequence(ColumnValues(data, key), CellsOf(data, key))
  {
    var cells := CellsOf(data, key);
    FilterSeqMembers(Present, cells);
    FilterIsSubsequence(Present, cells);
    forall v | v in cells
      ensures exists i :: 0 <= i < |data| && CellOf(data[i], key) == v
    {
      var i :| 0 <= i < |cells| && cells[i] == v;
      assert CellOf(data[i], key) == v;
    }
  }

  // ---------------------------------------------------------------------------
  // getMostCommonValue
  // ---------------------------------------------------------------------------

  /** `String(val)`. */
  function ValueText(v: Value, numberText: real -> string): string {
    match v
    case Str(s) => s
    case Num(x) => numberText(x)
    case NotANumber => "NaN"
    case Null => "null"
    case Undefined => "undefined"
  }

  /** How often `k` occurs in `keys`. */
  function Frequency<T(==)>(keys: seq<T>, k: T): nat {
    multiset(keys)[k]
  }

  /** The reduce over the dictionary's entries `o` (keys in insertion order, each with its
    * frequency), starting from `(none, 0)`: the accumulator stays only when strictly greater. */
  function Pick<T(==)>(o: seq<T>, keys: seq<T>, none: T): (T, nat) {
    if o == [] then (none, 0)
    else
      var a := Pick(o[..|o| - 1], keys, none);
      var k := o[|o| - 1];
      if a.1 > Frequency(keys, k) then a else (k, Frequency(keys, k))
  }

  /** The result of `getMostCommonValue` on values whose texts are `keys`. */
  function MostCommonOf<T(==, !new)>(keys: seq<T>, none: T): (T, nat) {
    Pick(Distinct(keys), keys, none)
  }

  /** The position of the entry the reduce ends with: one of the greatest frequency, after
    * which every entry is strictly less frequent. */
  function Winner<T(==)>(o: seq<T>, keys: seq<T>): (w: nat)
    requires o != []
    ensures w < |o|
    ensures forall j :: 0 <= j < |o| ==> Frequency(keys, o[j]) <= Frequency(keys, o[w])
    ensures forall j :: w < j < |o| ==> Frequency(keys, o[j]) < Frequency(keys, o[w])
  {
    if |o| == 1 then 0
    else
      var init := o[..|o| - 1];
      var a := Winner(init, keys);
      assert forall j :: 0 <= j < |init| ==> init[j] == o[j];
      if Frequency(keys, o[a]) > Frequency(keys, o[|o| - 1]) then a else |o| - 1
  }

  /** The reduce ends with the entry at the winning position and its frequency. */
  lemma {:induction false} PickIsWinner<T>(o: seq<T>, keys: seq<T>, none: T)
    requires o != []
    ensures Pick(o, keys, none) == (o[Winner(o, keys)], Frequency(keys, o[Winner(o, keys)]))
  {
    if |o| > 1 {
      var init := o[..|o| - 1];
      PickIsWinner(init, keys, none);
      assert init[Winner(init, keys)] == o[Winner(init, keys)];
    }
  }

  /** `getMostCommonValue` on values with texts `keys`: `('', 0)` for none; otherwise a text
    * that occurs, with its frequency, which no other text exceeds; on a tie, the text seen
    * first latest wins (the dictionary enumerates texts in the order they were first seen). */
  lemma MostCommonProperties<T(!new)>(keys: seq<T>, none: T)
    ensures keys == [] ==> MostCommonOf(keys, none) == (none, 0)
    ensures keys != [] ==>
              var (v, c) := MostCommonOf(keys, none);
              && v in keys && c == Frequency(keys, v) && c >= 1
              && (forall i :: 0 <= i < |keys| ==> Frequency(keys, keys[i]) <= c)
              && (forall i :: 0 <= i < |keys| && Frequency(keys, keys[i]) == c ==>
                    IndexOf(keys, keys[i]) <= IndexOf(keys, v))
  {
    var o := Distinct(keys);
    if keys != [] {
      assert keys[0] in o;
      PickIsWinner(o, keys, none);
      var w := Winner(o, keys);
      DistinctFirstSeen(keys);
      forall i | 0 <= i < |keys|
        ensures Frequency(keys, keys[i]) <= Frequency(keys, o[w])
        ensures Frequency(keys, keys[i]) == Frequency(keys, o[w]) ==> IndexOf(keys, keys[i]) <= IndexOf(keys, o[w])
      {
        var j := IndexOf(o, keys[i]);
        if j < w {
          assert IndexOf(keys, o[j]) < IndexOf(keys, o[w]);
        }
      }
    }
  }

  /** One more key adds one to its own frequency and leaves the others alone. */
  lemma FrequencyAppend<T>(keys: seq<T>, key: T, k: T)
    ensures Frequency(keys + [key], k) == Frequency(keys, k) + (if k == key then 1 else 0)
  {
    assert multiset(keys + [key]) == multiset(keys) + multiset{key};
  }

  /** The dictionary of frequencies of `seen`: its keys are the keys seen, each with its count. */
  ghost predicate CountsOf<T(!new)>(frequency: map<T, nat>, seen: seq<T>) {
    && (forall k :: k in frequency <==> k in seen)
    && (forall k :: k in frequency ==> frequency[k] == Frequency(seen, k))
  }

  /** Counting one more key keeps the dictionary in step with the keys seen. */
  lemma CountStep<T(!new)>(frequency: map<T, nat>, seen: seq<T>, key: T)
    requires CountsOf(frequency, seen)
    ensures CountsOf(frequency[key := if key in frequency then frequency[key] + 1 else 1], seen + [key])
  {
    var f := frequency[key := if key in frequency then frequency[key] + 1 else 1];
    forall k | k in f ensures f[k] == Frequency(seen + [key], k) {
      FrequencyAppend(seen, key, k);
    }
  }

  /** The dictionary of all the keys has an entry, with its count, for every distinct key. */
  lemma CountsOfDistinct<T(!new)>(frequency: map<T, nat>, keys: seq<T>)
    requires CountsOf(frequency, keys)
    ensures forall i :: 0 <= i < |Distinct(keys)| ==>
              Distinct(keys)[i] in frequency && frequency[Distinct(keys)[i]] == Frequency(keys, Distinct(keys)[i])
  {
  }

  /** The first loop of `getMostCommonValue`: the dictionary of frequencies, with its keys in
    * insertion order. */
  method CountKeys<T(==, !new)>(keys: seq<T>) returns (frequency: map<T, nat>, order: seq<T>)
    ensures order == Distinct(keys)
    ensures forall i :: 0 <= i < |order| ==> order[i] in frequency && frequency[order[i]] == Frequency(keys, order[i])
  {
    frequency := map[];
    order := [];
    ghost var seen: seq<T> := [];
    var i := 0;
    while i < |keys|
      invariant 0 <= i <= |keys| && seen == keys[..i]
      invariant order == Distinct(seen)
      invariant CountsOf(frequency, seen)
    {
      var key := keys[i];
      DistinctAppend(seen, key);
      CountStep(frequency, seen, key);
      if key !in frequency {
        order := order + [key];
      }
      frequency := frequency[key := if key in frequency then frequency[key] + 1 else 1];
      seen := seen + [key];
      i := i + 1;
    }
    assert seen == keys;
    CountsOfDistinct(frequency, keys);
  }

  /** The reduce of `getMostCommonValue` over the entries. */
  method ReduceEntries<T(==)>(order: seq<T>, frequency: map<T, nat>, keys: seq<T>, none: T) returns (value: T, count: nat)
    requires forall i :: 0 <= i < |order| ==> order[i] in frequency && frequency[order[i]] == Frequency(keys, order[i])
    ensures (value, count) == Pick(order, keys, none)
  {
    value, count := none, 0;
    var j := 0;
    while j < |order|
      invariant 0 <= j <= |order|
      invariant (value, count) == Pick(order[..j], keys, none)
    {
      var key := order[j];
      assert order[..j + 1][..j] == order[..j];
      if !(count > frequency[key]) {
        value, count := key, frequency[key];
      }
      j := j + 1;
    }
    assert order[..j] == order;
  }

  /** The loops of `getMostCommonValue` over the texts `keys` of the values: count each text
    * in a dictionary, then reduce over its entries starting from `('', 0)`. */
  method MostCommon(keys: seq<string>) returns (value: string, count: nat)
    ensures (value, count) == MostCommonOf(keys, "")
  {
    var frequency, order := CountKeys(keys);
    value, count := ReduceEntries(order, frequency, keys, "");
  }

  /** `getMostCommonValue(values)`. */
  method GetMostCommonValue(values: seq<Value>, numberText: real -> string) returns (value: string, count: nat)
    ensures (value, count) == MostCommonOf(MapSeq((v: Value) => ValueText(v, numberText), values), "")
  {
    value, count := MostCommon(MapSeq((v: Value) => ValueText(v, numberText), values));
  }

  // ---------------------------------------------------------------------------
  // getDateRange
  // ---------------------------------------------------------------------------

  const MillisecondsPerDay: int := 1000 * 60 * 60 * 24

  /** `Math.ceil(a / b)` for a positive divisor. */
  function CeilDiv(a: int, b: int): (q: int)
    requires b > 0
    ensures b * (q - 1) < a <= b * q
  {
    -((-a) / b)
  }

  function MinInt(s: seq<int>): (m: int)
    requires s != []
    ensures m in s && forall i :: 0 <= i < |s| ==> m <= s[i]
  {
    if |s| == 1 then s[0]
    else
      var m := MinInt(s[1..]);
      assert m in s[1..];
      if s[0] <= m then s[0] else m
  }

  function MaxInt(s: seq<int>): (m: int)
    requires s != []
    ensures m in s && forall i :: 0 <= i < |s| ==> s[i] <= m
  {
    if |s| == 1 then s[0]
    else
      var m := MaxInt(s[1..]);
      assert m in s[1..];
      if s[0] >= m then s[0] else m
  }

  /** The span between the earliest and latest instant, in the unit the label uses. */
  datatype Span = SingleDate | Days(n: int) | Months(n: int) | Years(n: int)

  /** The label's unit for a whole number of days `d`: below 30 in days, below 365 in 30-day
    * months rounded up, otherwise in 365-day years rounded up. */
  function SpanOfDays(d: int): (r: Span)
    ensures r.Days? <==> d < 30
    ensures r.Days? ==> r.n == d
    ensures r.Months? <==> 30 <= d < 365
    ensures r.Months? ==> 30 * (r.n - 1) < d <= 30 * r.n && 1 <= r.n <= 13
    ensures r.Years? <==> 365 <= d
    ensures r.Years? ==> 365 * (r.n - 1) < d <= 365 * r.n && r.n >= 1
  {
    if d < 30 then Days(d)
    else if d < 365 then Months(CeilDiv(d, 30))
    else Years(CeilDiv(d, 365))
  }

  /** Whole days, rounded up, between the earliest and the latest of the instants `times`. */
  function DaysSpanned(times: seq<int>): (d: int)
    requires times != []
    ensures d >= 0
    ensures MillisecondsPerDay * (d - 1) < MaxInt(times) - MinInt(times) <= MillisecondsPerDay * d
  {
    CeilDiv(MaxInt(times) - MinInt(times), MillisecondsPerDay)
  }

  /** The span of the instants `times` (milliseconds): a single date for fewer than two,
    * otherwise the whole days between the earliest and the latest in the label's unit. */
  function SpanOf(times: seq<int>): (r: Span)
    ensures |times| < 2 <==> r == SingleDate
    ensures |times| >= 2 ==> r == SpanOfDays(DaysSpanned(times))
  {
    if |times| < 2 then SingleDate else SpanOfDays(DaysSpanned(times))
  }

  function SpanText(span: Span): string {
    match span
    case SingleDate => "Single date"
    case Days(n) => IntToString(n) + " days"
    case Months(n) => IntToString(n) + " months"
    case Years(n) => IntToString(n) + " years"
  }

  /** `getDateRange(dates)` on the dates' instants: "Single date" exactly for fewer than two;
    * otherwise the whole days `d` between the earliest and the latest, as days below 30, as
    * 30-day months rounded up below 365, and as 365-day years rounded up from there. */
  function GetDateRange(times: seq<int>): (r: string)
    ensures r == "Single date" <==> |times| < 2
    ensures |times| >= 2 ==>
              var d := DaysSpanned(times);
              && (d < 30 ==> r == IntToString(d) + " days")
              && (30 <= d < 365 ==> r == IntToString(CeilDiv(d, 30)) + " months")
              && (365 <= d ==> r == IntToString(CeilDiv(d, 365)) + " years")
  {
    SingleDateText(SpanOf(times));
    SpanText(SpanOf(times))
  }

  /** Different spans read differently. */
  lemma SpanTextInjective(a: Span, b: Span)
    requires SpanText(a) == SpanText(b)
    ensures a == b
  {
    var t := SpanText(a);
    if a.SingleDate? || b.SingleDate? {
      SingleDateText(a);
      SingleDateText(b);
    } else {
      var na, nb := IntToString(a.n), IntToString(b.n);
      var ua, ub := UnitText(a), UnitText(b);
      DigitsBeforeUnit(a);
      DigitsBeforeUnit(b);
      BeforeUpTo(na, ua, ' ');
      BeforeUpTo(nb, ub, ' ');
      assert na == Before(t, ' ') == nb;
      IntToStringInjective(a.n, b.n);
      assert ua == t[|na|..] == ub;
    }
  }

  /** The unit after the number. */
  function UnitText(span: Span): string
    requires !span.SingleDate?
  {
    match span
    case Days(_) => " days"
    case Months(_) => " months"
    case Years(_) => " years"
  }

  lemma DigitsBeforeUnit(span: Span)
    requires !span.SingleDate?
    ensures SpanText(span) == IntToString(span.n) + UnitText(span)
    ensures UnitText(span)[0] == ' '
    ensures ' ' !in IntToString(span.n)
  {
    var t := IntToString(span.n);
    if span.n < 0 {
      assert t == "-" + NatToString(-span.n);
      assert forall i :: 1 <= i < |t| ==> t[i] == NatToString(-span.n)[i - 1];
    }
  }

  lemma SingleDateText(span: Span)
    ensures span.SingleDate? <==> SpanText(span) == "Single date"
  {
    if !span.SingleDate? {
      DigitsBeforeUnit(span);
      var t := IntToString(span.n);
      if span.n >= 0 {
        assert IsDigit(t[0]);
      }
      assert SpanText(span)[0] == t[0] != 'S';
    }
  }

  // ---------------------------------------------------------------------------
  // extractTableStatistics
  // ---------------------------------------------------------------------------

  predicate IsNumberLike(kind: Option<ColumnType>) {
    kind == Some(NumberColumn) || kind == Some(Currency) || kind == Some(Percentage)
  }

  /** A character `/[$,%]/` does not match. */
  predicate NotCurrencySign(c: char) {
    c !in "$,%"
  }

  /** `s.replace(/[$,%]/g, '')`. */
  function RemoveCurrencySigns(s: string): (r: string)
    ensures |r| <= |s|
    ensures forall i :: 0 <= i < |r| ==> r[i] != '$' && r[i] != ',' && r[i] != '%'
    ensures forall c :: c in r <==> c in s && NotCurrencySign(c)
  {
    if s == [] then []
    else
      assert s == [s[0]] + s[1..];
      (if s[0] in "$,%" then [] else [s[0]]) + RemoveCurrencySigns(s[1..])
  }

  /** Every other character is kept, in order: the removal is a filter. */
  lemma {:induction false} RemoveCurrencySignsIsFilter(s: string)
    ensures RemoveCurrencySigns(s) == FilterSeq(NotCurrencySign, s)
    ensures IsSubsequence(RemoveCurrencySigns(s), s)
  {
    if s != [] {
      RemoveCurrencySignsIsFilter(s[1..]);
    }
    FilterIsSubsequence(NotCurrencySign, s);
  }

  /** The number a cell coerces to: `parseFloat` of the text without currency signs for a
    * string, `Number(v)` otherwise; `None` for NaN. */
  function NumberOf(v: Value, parseFloat: string -> Option<real>): Option<real> {
    match v
    case Str(s) => parseFloat(RemoveCurrencySigns(s))
    case Num(x) => Some(x)
    case _ => None
  }

  /** The cells' numbers, dropping the NaNs, in order. */
  function NumbersOf(values: seq<Value>, parseFloat: string -> Option<real>): (r: seq<real>)
    ensures |r| <= |values|
  {
    if values == [] then []
    else
      var n := NumberOf(values[0], parseFloat);
      (if n.Some? then [n.value] else []) + NumbersOf(values[1..], parseFloat)
  }

  /** The cells' valid instants, in order. */
  function TimesOf(values: seq<Value>, timeOf: Value -> Option<int>): (r: seq<int>)
    ensures |r| <= |values|
  {
    if values == [] then []
    else
      var t := timeOf(values[0]);
      (if t.Some? then [t.value] else []) + TimesOf(values[1..], timeOf)
  }

  /** The numbers are exactly the values that coerce to a number. */
  lemma {:induction false} NumbersOfMembers(values: seq<Value>, parseFloat: string -> Option<real>)
    ensures forall x :: x in NumbersOf(values, parseFloat) <==>
              exists i :: 0 <= i < |values| && NumberOf(values[i], parseFloat) == Some(x)
  {
    if values != [] {
      var rest := values[1..];
      NumbersOfMembers(rest, parseFloat);
      forall x
        ensures x in NumbersOf(values, parseFloat) <==>
                exists i :: 0 <= i < |values| && NumberOf(values[i], parseFloat) == Some(x)
      {
        if x in NumbersOf(rest, parseFloat) {
          var j :| 0 <= j < |rest| && NumberOf(rest[j], parseFloat) == Some(x);
          assert values[j + 1] == rest[j];
        }
        if exists i :: 0 <= i < |values| && NumberOf(values[i], parseFloat) == Some(x) {
          var i :| 0 <= i < |values| && NumberOf(values[i], parseFloat) == Some(x);
          if i > 0 {
            assert rest[i - 1] == values[i];
          }
        }
      }
    }
  }

  /** One more value adds its number at the end, if it has one: the numbers keep the values'
    * order and multiplicity. */
  lemma {:induction false} NumbersOfAppend(values: seq<Value>, v: Value, parseFloat: string -> Option<real>)
    ensures var n := NumberOf(v, parseFloat);
            NumbersOf(values + [v], parseFloat) == NumbersOf(values, parseFloat) + (if n.Some? then [n.value] else [])
  {
    var n := NumberOf(v, parseFloat);
    var last := if n.Some? then [n.value] else [];
    if values == [] {
      assert [v][1..] == [];
      assert NumbersOf([v], parseFloat) == last + NumbersOf([], parseFloat);
    } else {
      var w := values + [v];
      assert w[0] == values[0] && w[1..] == values[1..] + [v];
      NumbersOfAppend(values[1..], v, parseFloat);
      var h := NumberOf(values[0], parseFloat);
      var first := if h.Some? then [h.value] else [];
      calc {
        NumbersOf(w, parseFloat);
        first + NumbersOf(values[1..] + [v], parseFloat);
        first + (NumbersOf(values[1..], parseFloat) + last);
        (first + NumbersOf(values[1..], parseFloat)) + last;
        NumbersOf(values, parseFloat) + last;
      }
    }
  }

  /** The instants are exactly the valid `timeOf` results of the values. */
  lemma {:induction false} TimesOfMembers(values: seq<Value>, timeOf: Value -> Option<int>)
    ensures forall t :: t in TimesOf(values, timeOf) <==>
              exists i :: 0 <= i < |values| && timeOf(values[i]) == Some(t)
  {
    if values != [] {
      var rest := values[1..];
      TimesOfMembers(rest, timeOf);
      forall t
        ensures t in TimesOf(values, timeOf) <==>
                exists i :: 0 <= i < |values| && timeOf(values[i]) == Some(t)
      {
        if t in TimesOf(rest, timeOf) {
          var j :| 0 <= j < |rest| && timeOf(rest[j]) == Some(t);
          assert values[j + 1] == rest[j];
        }
        if exists i :: 0 <= i < |values| && timeOf(values[i]) == Some(t) {
          var i :| 0 <= i < |values| && timeOf(values[i]) == Some(t);
          if i > 0 {
            assert rest[i - 1] == values[i];
          }
        }
      }
    }
  }

  /** One more value adds its instant at the end, if it has one. */
  lemma {:induction false} TimesOfAppend(values: seq<Value>, v: Value, timeOf: Value -> Option<int>)
    ensures TimesOf(values + [v], timeOf) == TimesOf(values, timeOf) + (if timeOf(v).Some? then [timeOf(v).value] else [])
  {
    var last := if timeOf(v).Some? then [timeOf(v).value] else [];
    if values == [] {
      assert [v][1..] == [];
      assert TimesOf([v], timeOf) == last + TimesOf([], timeOf);
    } else {
      var w := values + [v];
      assert w[0] == values[0] && w[1..] == values[1..] + [v];
      TimesOfAppend(values[1..], v, timeOf);
      var first := if timeOf(values[0]).Some? then [timeOf(values[0]).value] else [];
      calc {
        TimesOf(w, timeOf);
        first + TimesOf(values[1..] + [v], timeOf);
        first + (TimesOf(values[1..], timeOf) + last);
        (first + TimesOf(values[1..], timeOf)) + last;
        TimesOf(values, timeOf) + last;
      }
    }
  }

  function Sum(s: seq<real>): real {
    if s == [] then 0.0 else s[0] + Sum(s[1..])
  }

  /** `Math.min` over the numbers `parseFloat` gives a numeric column. It is the same fold as
    * `MinInt`, which works on the integer millisecond timestamps of a date column; without
    * traits or generic ordering, Dafny needs one copy per element type. */
  function MinReal(s: seq<real>): (m: real)
    requires s != []
    ensures m in s && forall i :: 0 <= i < |s| ==> m <= s[i]
  {
    if |s| == 1 then s[0]
    else
      var m := MinReal(s[1..]);
      assert m in s[1..];
      if s[0] <= m then s[0] else m
  }

  /** `Math.max` over the numbers of a numeric column; the real-number copy of `MaxInt`. */
  function MaxReal(s: seq<real>): (m: real)
    requires s != []
    ensures m in s && forall i :: 0 <= i < |s| ==> s[i] <= m
  {
    if |s| == 1 then s[0]
    else
      var m := MaxReal(s[1..]);
      assert m in s[1..];
      if s[0] >= m then s[0] else m
  }

  datatype NumericStat = NumericStat(header: string, count: nat, sum: real, average: real,
                                     min: real, max: real, kind: ColumnType)

  datatype TextStat = TextStat(header: string, uniqueCount: nat, mostCommon: (string, nat),
                               examples: seq<Value>)

  datatype DateStat = DateStat(header: string, count: nat, earliest: int, latest: int, range: string)

  /** The three dictionaries the statistics fill in, keyed by column key. */
  datatype ColumnStats = ColumnStats(numericColumns: map<string, NumericStat>,
                                     textColumns: map<string, TextStat>,
                                     dateColumns: map<string, DateStat>)

  /** `{}` for no rows, otherwise the row count and the three dictionaries. */
  datatype TableStats = NoStats | TableStats(totalRows: nat, columns: ColumnStats)

  /** The entry of a number-like column whose numbers are `nums` (at least one). */
  function NumericStatOf(column: Column, kind: ColumnType, nums: seq<real>): (st: NumericStat)
    requires nums != []
    ensures st.header == column.header && st.kind == kind
    ensures st.count == |nums| >= 1 && st.min <= st.max
    ensures st.sum == Sum(nums)
    ensures st.min in nums && st.max in nums
    ensures forall i :: 0 <= i < |nums| ==> st.min <= nums[i] <= st.max
    ensures st.average * (|nums| as real) == st.sum
  {
    NumericStat(column.header, |nums|, Sum(nums), Sum(nums) / (|nums| as real),
                MinReal(nums), MaxReal(nums), kind)
  }

  /** The entry of a text column whose present cells are `values`. */
  function TextStatOf(column: Column, values: seq<Value>, numberText: real -> string): (st: TextStat)
    ensures st.header == column.header
    ensures st.uniqueCount == |Distinct(values)| <= |values|
    ensures st.mostCommon == MostCommonOf(MapSeq((v: Value) => ValueText(v, numberText), values), "")
    ensures st.examples == Distinct(values)[..if |Distinct(values)| < 5 then |Distinct(values)| else 5]
  {
    var unique := Distinct(values);
    TextStat(column.header, |unique|, MostCommonOf(MapSeq((v: Value) => ValueText(v, numberText), values), ""),
             Slice(unique, 0, 5))
  }

  /** The entry of a date column whose valid instants are `times` (at least one). */
  function DateStatOf(column: Column, times: seq<int>): (st: DateStat)
    requires times != []
    ensures st.header == column.header
    ensures st.count == |times| >= 1 && st.earliest <= st.latest
    ensures st.earliest in times && st.latest in times
    ensures forall i :: 0 <= i < |times| ==> st.earliest <= times[i] <= st.latest
    ensures st.range == GetDateRange(times)
  {
    DateStat(column.header, |times|, MinInt(times), MaxInt(times), GetDateRange(times))
  }

  /** What one column adds to the dictionaries: at most one entry, and only in the dictionary of
    * its own type. */
  function AddColumn(stats: ColumnStats, column: Column, data: seq<Row>, engine: Engine): (r: ColumnStats)
    ensures !IsNumberLike(column.kind) ==> r.numericColumns == stats.numericColumns
    ensures !IsTextKind(column.kind) ==> r.textColumns == stats.textColumns
    ensures !IsDateKind(column.kind) ==> r.dateColumns == stats.dateColumns
  {
    var values := ColumnValues(data, column.key);
    if IsNumberLike(column.kind) then
      var nums := NumbersOf(values, engine.parseFloat);
      if nums == [] then stats
      else stats.(numericColumns := stats.numericColumns[column.key := NumericStatOf(column, column.kind.value, nums)])
    else if column.kind == Some(TextColumn) then
      stats.(textColumns := stats.textColumns[column.key := TextStatOf(column, values, engine.numberText)])
    else if column.kind == Some(DateColumn) then
      var times := TimesOf(values, engine.timeOf);
      if times == [] then stats
      else stats.(dateColumns := stats.dateColumns[column.key := DateStatOf(column, times)])
    else stats
  }

  /** The dictionaries after the columns `columns`, in order. */
  function AllColumns(columns: seq<Column>, data: seq<Row>, engine: Engine): ColumnStats {
    if columns == [] then ColumnStats(map[], map[], map[])
    else AddColumn(AllColumns(columns[..|columns| - 1], data, engine), columns[|columns| - 1], data, engine)
  }

  /** `extractTableStatistics(data, columns)`: nothing for no rows; otherwise the row count
    * and, column by column, the dictionaries filled in. */
  method ExtractTableStatistics(data: seq<Row>, columns: seq<Column>, engine: Engine) returns (stats: TableStats)
    ensures data == [] ==> stats == NoStats
    ensures data != [] ==> stats == TableStats(|data|, AllColumns(columns, data, engine))
  {
    if |data| == 0 {
      return NoStats;
    }
    var numericColumns: map<string, NumericStat> := map[];
    var textColumns: map<string, TextStat> := map[];
    var dateColumns: map<string, DateStat> := map[];
    var i := 0;
    while i < |columns|
      invariant 0 <= i <= |columns|
      invariant ColumnStats(numericColumns, textColumns, dateColumns) == AllColumns(columns[..i], data, engine)
    {
      var column := columns[i];
      assert columns[..i + 1][..i] == columns[..i];
      ghost var before := ColumnStats(numericColumns, textColumns, dateColumns);
      assert AllColumns(columns[..i + 1], data, engine) == AddColumn(before, column, data, engine);
      AddColumnNumeric(before, column, data, engine);
      AddColumnText(before, column, data, engine);
      AddColumnDate(before, column, data, engine);
      var values := ColumnValues(data, column.key);
      if IsNumberLike(column.kind) {
        var nums := NumbersOf(values, engine.parseFloat);
        if |nums| > 0 {
          numericColumns := numericColumns[column.key := NumericStatOf(column, column.kind.value, nums)];
        }
      } else if column.kind == Some(TextColumn) {
        var unique := Distinct(values);
        var value, count := GetMostCommonValue(values, engine.numberText);
        textColumns := textColumns[column.key := TextStat(column.header, |unique|, (value, count), Slice(unique, 0, 5))];
      } else if column.kind == Some(DateColumn) {
        var times := TimesOf(values, engine.timeOf);
        if |times| > 0 {
          dateColumns := dateColumns[column.key := DateStatOf(column, times)];
        }
      }
      i := i + 1;
    }
    assert columns[..i] == columns;
    stats := TableStats(|data|, ColumnStats(numericColumns, textColumns, dateColumns));
  }

  // ---------------------------------------------------------------------------
  // What the dictionaries hold
  // ---------------------------------------------------------------------------

  predicate IsTextKind(kind: Option<ColumnType>) {
    kind == Some(TextColumn)
  }

  predicate IsDateKind(kind: Option<ColumnType>) {
    kind == Some(DateColumn)
  }

  /** Some column of a kind `ok` accepts has key `k`. */
  predicate HasColumn(columns: seq<Column>, k: string, ok: Option<ColumnType> -> bool) {
    exists i :: 0 <= i < |columns| && ok(columns[i].kind) && columns[i].key == k
  }

  /** Column `i` is of a kind `ok` accepts and no later such column has its key. */
  predicate LastColumn(columns: seq<Column>, i: int, ok: Option<ColumnType> -> bool) {
    && 0 <= i < |columns| && ok(columns[i].kind)
    && forall j :: i < j < |columns| && ok(columns[j].kind) ==> columns[j].key != columns[i].key
  }

  /** A last column that is not the final one is still last among the columns before the final
    * one, and the final one, if of the same kind, has another key. */
  lemma LastColumnInit(columns: seq<Column>, i: int, ok: Option<ColumnType> -> bool)
    requires LastColumn(columns, i, ok) && i < |columns| - 1
    ensures columns[..|columns| - 1][i] == columns[i]
    ensures LastColumn(columns[..|columns| - 1], i, ok)
    ensures ok(columns[|columns| - 1].kind) ==> columns[|columns| - 1].key != columns[i].key
  {
  }

  lemma HasColumnSnoc(columns: seq<Column>, k: string, ok: Option<ColumnType> -> bool)
    requires columns != []
    ensures var init, c := columns[..|columns| - 1], columns[|columns| - 1];
            HasColumn(columns, k, ok) <==> HasColumn(init, k, ok) || (ok(c.kind) && c.key == k)
  {
    var init := columns[..|columns| - 1];
    if HasColumn(init, k, ok) {
      var i :| 0 <= i < |init| && ok(init[i].kind) && init[i].key == k;
      assert columns[i] == init[i];
    }
    if HasColumn(columns, k, ok) {
      var i :| 0 <= i < |columns| && ok(columns[i].kind) && columns[i].key == k;
      if i < |init| {
        assert init[i] == columns[i];
      }
    }
  }

  // One column changes only the dictionary of its type, and there only its own key.

  lemma AddColumnText(stats: ColumnStats, column: Column, data: seq<Row>, engine: Engine)
    ensures AddColumn(stats, column, data, engine).textColumns
            == if IsTextKind(column.kind)
               then stats.textColumns[column.key := TextStatOf(column, ColumnValues(data, column.key), engine.numberText)]
               else stats.textColumns
  {
  }

  lemma AddColumnNumeric(stats: ColumnStats, column: Column, data: seq<Row>, engine: Engine)
    ensures var nums := NumbersOf(ColumnValues(data, column.key), engine.parseFloat);
            AddColumn(stats, column, data, engine).numericColumns
            == if IsNumberLike(column.kind) && nums != []
               then stats.numericColumns[column.key := NumericStatOf(column, column.kind.value, nums)]
               else stats.numericColumns
  {
    var after := AddColumn(stats, column, data, engine);
    var nums := NumbersOf(ColumnValues(data, column.key), engine.parseFloat);
    if !IsNumberLike(column.kind) {
      assert after.numericColumns == stats.numericColumns;
    } else if nums == [] {
      assert after == stats;
    } else {
      assert after == stats.(numericColumns := stats.numericColumns[column.key := NumericStatOf(column, column.kind.value, nums)]);
    }
  }

  lemma AddColumnDate(stats: ColumnStats, column: Column, data: seq<Row>, engine: Engine)
    ensures var times := TimesOf(ColumnValues(data, column.key), engine.timeOf);
            AddColumn(stats, column, data, engine).dateColumns
            == if IsDateKind(column.kind) && times != []
               then stats.dateColumns[column.key := DateStatOf(column, times)]
               else stats.dateColumns
  {
    var after := AddColumn(stats, column, data, engine);
    if !IsDateKind(column.kind) {
      assert after.dateColumns == stats.dateColumns;
    } else {
      assert !IsNumberLike(column.kind) && column.kind != Some(TextColumn);
    }
  }

  /** A text column's key always has an entry, whatever its cells hold; no other key has one. */
  lemma {:induction false} TextEntryPresent(columns: seq<Column>, data: seq<Row>, engine: Engine, k: string)
    ensures k in AllColumns(columns, data, engine).textColumns <==> HasColumn(columns, k, IsTextKind)
  {
    if columns != [] {
      var init, c := columns[..|columns| - 1], columns[|columns| - 1];
      TextEntryPresent(init, data, engine, k);
      AddColumnText(AllColumns(init, data, engine), c, data, engine);
      HasColumnSnoc(columns, k, IsTextKind);
    }
  }

  /** The entry of a text column is that of the last text column with its key: its distinct
    * present values, the first five of them as examples, and their most common text. */
  lemma {:induction false} TextEntryValue(columns: seq<Column>, data: seq<Row>, engine: Engine, i: int)
    requires LastColumn(columns, i, IsTextKind)
    ensures columns[i].key in AllColumns(columns, data, engine).textColumns
    ensures AllColumns(columns, data, engine).textColumns[columns[i].key]
            == TextStatOf(columns[i], ColumnValues(data, columns[i].key), engine.numberText)
  {
    var init, c := columns[..|columns| - 1], columns[|columns| - 1];
    var before := AllColumns(init, data, engine);
    var after := AllColumns(columns, data, engine).textColumns;
    var k := columns[i].key;
    AddColumnText(before, c, data, engine);
    if i == |init| {
      assert after == before.textColumns[k := TextStatOf(c, ColumnValues(data, k), engine.numberText)];
    } else {
      LastColumnInit(columns, i, IsTextKind);
      TextEntryValue(init, data, engine, i);
      assert after[k] == before.textColumns[k];
    }
  }

  /** A number-like column's key has an entry exactly when one of its cells reads as a number. */
  lemma {:induction false} NumericEntryPresent(columns: seq<Column>, data: seq<Row>, engine: Engine, k: string)
    ensures k in AllColumns(columns, data, engine).numericColumns
            <==> HasColumn(columns, k, IsNumberLike) && NumbersOf(ColumnValues(data, k), engine.parseFloat) != []
  {
    if columns != [] {
      var init, c := columns[..|columns| - 1], columns[|columns| - 1];
      NumericEntryPresent(init, data, engine, k);
      AddColumnNumeric(AllColumns(init, data, engine), c, data, engine);
      HasColumnSnoc(columns, k, IsNumberLike);
    }
  }

  /** The entry of a number-like column with numbers is made from exactly those numbers:
    * their count, sum, mean, least and greatest. */
  lemma {:induction false} NumericEntryValue(columns: seq<Column>, data: seq<Row>, engine: Engine, i: int)
    requires LastColumn(columns, i, IsNumberLike)
    requires NumbersOf(ColumnValues(data, columns[i].key), engine.parseFloat) != []
    ensures columns[i].key in AllColumns(columns, data, engine).numericColumns
    ensures AllColumns(columns, data, engine).numericColumns[columns[i].key]
            == NumericStatOf(columns[i], columns[i].kind.value, NumbersOf(ColumnValues(data, columns[i].key), engine.parseFloat))
  {
    var init, c := columns[..|columns| - 1], columns[|columns| - 1];
    var before := AllColumns(init, data, engine);
    var after := AllColumns(columns, data, engine).numericColumns;
    var k := columns[i].key;
    var nums := NumbersOf(ColumnValues(data, k), engine.parseFloat);
    AddColumnNumeric(before, c, data, engine);
    if i == |init| {
      assert after == before.numericColumns[k := NumericStatOf(c, c.kind.value, nums)];
    } else {
      LastColumnInit(columns, i, IsNumberLike);
      NumericEntryValue(init, data, engine, i);
      assert k in before.numericColumns;
      assert after[k] == before.numericColumns[k];
    }
  }

  /** A date column's key has an entry exactly when one of its cells reads as a valid instant. */
  lemma {:induction false} DateEntryPresent(columns: seq<Column>, data: seq<Row>, engine: Engine, k: string)
    ensures k in AllColumns(columns, data, engine).dateColumns
            <==> HasColumn(columns, k, IsDateKind) && TimesOf(ColumnValues(data, k), engine.timeOf) != []
  {
    if columns != [] {
      var init, c := columns[..|columns| - 1], columns[|columns| - 1];
      DateEntryPresent(init, data, engine, k);
      AddColumnDate(AllColumns(init, data, engine), c, data, engine);
      HasColumnSnoc(columns, k, IsDateKind);
    }
  }

  /** The entry of a date column with valid instants is made from exactly those instants. */
  lemma {:induction false} DateEntryValue(columns: seq<Column>, data: seq<Row>, engine: Engine, i: int)
    requires LastColumn(columns, i, IsDateKind)
    requires TimesOf(ColumnValues(data, columns[i].key), engine.timeOf) != []
    ensures columns[i].key in AllColumns(columns, data, engine).dateColumns
    ensures AllColumns(columns, data, engine).dateColumns[columns[i].key]
            == DateStatOf(columns[i], TimesOf(ColumnValues(data, columns[i].key), engine.timeOf))
  {
    var init, c := columns[..|columns| - 1], columns[|columns| - 1];
    var before := AllColumns(init, data, engine);
    var after := AllColumns(columns, data, engine).dateColumns;
    var k := columns[i].key;
    var times := TimesOf(ColumnValues(data, k), engine.timeOf);
    AddColumnDate(before, c, data, engine);
    if i == |init| {
      assert after == before.dateColumns[k := DateStatOf(c, times)];
    } else {
      LastColumnInit(columns, i, IsDateKind);
      DateEntryValue(init, data, engine, i);
      assert k in before.dateColumns;
      assert after[k] == before.dateColumns[k];
    }
  }

  /** Every numeric entry counts at least one number, its least and greatest numbers are in
    * order, and every date entry likewise. */
  lemma {:induction false} EntriesWellFormed(columns: seq<Column>, data: seq<Row>, engine: Engine)
    ensures forall k :: k in AllColumns(columns, data, engine).numericColumns ==>
              var st := AllColumns(columns, data, engine).numericColumns[k];
              st.count >= 1 && st.min <= st.max
    ensures forall k :: k in AllColumns(columns, data, engine).dateColumns ==>
              var st := AllColumns(columns, data, engine).dateColumns[k];
              st.count >= 1 && st.earliest <= st.latest
  {
    if columns != [] {
      var init, c := columns[..|columns| - 1], columns[|columns| - 1];
      var before := AllColumns(init, data, engine);
      var after := AllColumns(columns, data, engine);
      EntriesWellFormed(init, data, engine);
      AddColumnNumeric(before, c, data, engine);
      AddColumnDate(before, c, data, engine);
      forall k | k in after.numericColumns
        ensures after.numericColumns[k].count >= 1 && after.numericColumns[k].min <= after.numericColumns[k].max
      {
        if k != c.key {
          assert after.numericColumns[k] == before.numericColumns[k];
        }
      }
      forall k | k in after.dateColumns
        ensures after.dateColumns[k].count >= 1 && after.dateColumns[k].earliest <= after.dateColumns[k].latest
      {
        if k != c.key {
          assert after.dateColumns[k] == before.dateColumns[k];
        }
      }
    }
  }
}
