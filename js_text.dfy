/**
 * The ECMAScript string and number built-ins that the dashboard helpers rely on:
 * `trim`, `split` on one character, `slice`, `includes`, `String(n)`, `padStart(2, '0')`,
 * `parseInt` without a radix and the ASCII part of `toLowerCase`.
 * A JavaScript string is a sequence of UTF-16 code units; here a string is a sequence of
 * Unicode scalar values, and `.length` is modelled by `Utf16Len` wherever the source
 * compares it with a bound.
 */
module JsText {
  import opened Wrappers

  // ---------------------------------------------------------------------------
  // Whitespace and trimming
  // ---------------------------------------------------------------------------

  /** The characters matched by `\s` in a regular expression and removed by `trim`
    * (WhiteSpace and LineTerminator of the ECMAScript grammar). */
  predicate IsSpace(c: char) {
    c == ' ' || c == '\t' || c == '\n' || c == '\r' || c == '\U{000B}' || c == '\U{000C}'
    || c == '\U{00A0}' || c == '\U{1680}' || ('\U{2000}' <= c <= '\U{200A}')
    || c == '\U{2028}' || c == '\U{2029}' || c == '\U{202F}' || c == '\U{205F}'
    || c == '\U{3000}' || c == '\U{FEFF}'
  }

  predicate AllSpace(s: string) {
    forall i :: 0 <= i < |s| ==> IsSpace(s[i])
  }

  /** Leading whitespace removed (also the `\s*` after a regular-expression prefix). */
  function TrimStart(s: string): (r: string)
    ensures |r| <= |s| && r == s[|s| - |r|..]
    ensures r == [] || !IsSpace(r[0])
    ensures AllSpace(s[..|s| - |r|])
    decreases |s|
  {
    if s != [] && IsSpace(s[0]) then
      var r := TrimStart(s[1..]);
      assert s[..|s| - |r|] == [s[0]] + s[1..][..|s| - 1 - |r|];
      r
    else s
  }

  /** Trailing whitespace removed. */
  function TrimEnd(s: string): (r: string)
    ensures |r| <= |s| && r == s[..|r|]
    ensures r == [] || !IsSpace(r[|r| - 1])
    ensures AllSpace(s[|r|..])
    decreases |s|
  {
    if s != [] && IsSpace(s[|s| - 1]) then
      var r := TrimEnd(s[..|s| - 1]);
      assert s[|r|..] == s[..|s| - 1][|r|..] + [s[|s| - 1]];
      r
    else s
  }

  /** `String.prototype.trim`. */
  function Trim(s: string): (r: string)
    ensures |r| <= |s|
    ensures r == [] <==> AllSpace(s)
    ensures r != [] ==> !IsSpace(r[0]) && !IsSpace(r[|r| - 1])
  {
    var t := TrimStart(s);
    var r := TrimEnd(t);
    TrimParts(s, t, r);
    r
  }

  /** A character of the trimmed text is a character of the text. */
  lemma TrimKeepsChar(s: string, c: char)
    requires c in Trim(s)
    ensures c in s
  {
    var t := TrimStart(s);
    var r := TrimEnd(t);
    var i :| 0 <= i < |r| && r[i] == c;
    assert t[i] == c;
    assert s[|s| - |t| + i] == c;
  }

  /** The two halves of `trim` leave nothing exactly when the text is all whitespace. */
  lemma TrimParts(s: string, t: string, r: string)
    requires t == TrimStart(s) && r == TrimEnd(t)
    ensures r == [] <==> AllSpace(s)
    ensures r != [] ==> !IsSpace(r[0])
  {
    if r == [] {
      assert t[|r|..] == t;
      assert AllSpace(t);
      assert t == [];
      assert s[..|s| - |t|] == s;
    } else {
      assert r == t[..|r|];
      assert t[0] == r[0];
      assert s[|s| - |t|..][0] == t[0];
      assert !IsSpace(s[|s| - |t|]);
    }
  }

  /** A string that neither starts nor ends with whitespace is left alone by `trim`. */
  lemma TrimUnchanged(s: string)
    requires s == [] || (!IsSpace(s[0]) && !IsSpace(s[|s| - 1]))
    ensures Trim(s) == s
  {
  }

  /** Trimming twice is trimming once. */
  lemma TrimIdempotent(s: string)
    ensures Trim(Trim(s)) == Trim(s)
  {
    TrimUnchanged(Trim(s));
  }

  // ---------------------------------------------------------------------------
  // Length in UTF-16 code units
  // ---------------------------------------------------------------------------

  /** Code units taken by one character: two for a character outside the Basic Multilingual Plane. */
  function CodeUnits(c: char): nat {
    if c as int > 0xFFFF then 2 else 1
  }

  /** `.length` of a JavaScript string. */
  function Utf16Len(s: string): (n: nat)
    ensures |s| <= n <= 2 * |s|
  {
    if s == [] then 0 else CodeUnits(s[0]) + Utf16Len(s[1..])
  }

  lemma {:induction false} Utf16LenAppend(a: string, b: string)
    ensures Utf16Len(a + b) == Utf16Len(a) + Utf16Len(b)
  {
    if a != [] {
      assert (a + b)[0] == a[0];
      assert (a + b)[1..] == a[1..] + b;
      Utf16LenAppend(a[1..], b);
    } else {
      assert a + b == b;
    }
  }

  /** The longest prefix whose UTF-16 length is at most `n`: `slice(0, n)` on a string,
    * except that the source can also cut a surrogate pair in half, which a sequence of
    * scalar values cannot represent. */
  function Utf16Prefix(s: string, n: nat): (r: string)
    ensures |r| <= |s| && r == s[..|r|]
    ensures Utf16Len(r) <= n
    ensures r == s || Utf16Len(r) + CodeUnits(s[|r|]) > n
    ensures Utf16Len(s) <= n ==> r == s
  {
    if s == [] || CodeUnits(s[0]) > n then []
    else
      var r := [s[0]] + Utf16Prefix(s[1..], n - CodeUnits(s[0]));
      assert r[1..] == Utf16Prefix(s[1..], n - CodeUnits(s[0]));
      r
  }

  // ---------------------------------------------------------------------------
  // Searching
  // ---------------------------------------------------------------------------

  predicate StartsWith(s: string, prefix: string) {
    |prefix| <= |s| && s[..|prefix|] == prefix
  }

  /** `String.prototype.includes`. */
  predicate Contains(s: string, t: string)
    decreases |s|
  {
    StartsWith(s, t) || (s != [] && Contains(s[1..], t))
  }

  /** A string that contains `t` somewhere has it at some position. */
  lemma {:induction false} ContainsAt(s: string, t: string, i: nat)
    requires i + |t| <= |s| && s[i..i + |t|] == t
    ensures Contains(s, t)
    decreases i
  {
    if i > 0 {
      assert s[1..][i - 1..i - 1 + |t|] == t;
      ContainsAt(s[1..], t, i - 1);
    }
  }

  // ---------------------------------------------------------------------------
  // split / join on one separator character
  // ---------------------------------------------------------------------------

  /** `parts.join(sep)`. */
  function Join(parts: seq<string>, sep: char): string
    requires |parts| >= 1
  {
    if |parts| == 1 then parts[0] else parts[0] + [sep] + Join(parts[1..], sep)
  }

  /** `s.split(sep)` for a one-character separator: the pieces between separators,
    * never an empty list; joining them back gives `s`. */
  function Split(s: string, sep: char): (parts: seq<string>)
    ensures |parts| >= 1
    ensures forall i :: 0 <= i < |parts| ==> sep !in parts[i]
    ensures Join(parts, sep) == s
    decreases |s|
  {
    if s == [] then [[]]
    else
      var rest := Split(s[1..], sep);
      if s[0] == sep then
        var parts := [[]] + rest;
        assert parts[1..] == rest;
        parts
      else
        var parts := [[s[0]] + rest[0]] + rest[1..];
        assert sep !in [s[0]] + rest[0];
        assert s == [s[0]] + s[1..];
        assert |rest| > 1 ==> parts[1..] == rest[1..] && rest[1..] == Split(s[1..], sep)[1..];
        assert |rest| > 1 ==> Join(rest, sep) == rest[0] + [sep] + Join(rest[1..], sep);
        parts
  }

  /** The other direction of the round trip: splitting joined pieces that hold no
    * separator gives the pieces back. */
  lemma {:induction false} SplitJoin(parts: seq<string>, sep: char)
    requires |parts| >= 1
    requires forall i :: 0 <= i < |parts| ==> sep !in parts[i]
    ensures Split(Join(parts, sep), sep) == parts
    decreases |Join(parts, sep)|, |parts[0]|
  {
    var s := Join(parts, sep);
    if |parts| == 1 {
      NoSeparatorSplit(parts[0], sep);
    } else if parts[0] == [] {
      assert s == [sep] + Join(parts[1..], sep);
      assert s[1..] == Join(parts[1..], sep);
      SplitJoin(parts[1..], sep);
      assert parts == [[]] + parts[1..];
    } else {
      var tail := [parts[0][1..]] + parts[1..];
      assert tail[1..] == parts[1..];
      assert forall i :: 0 <= i < |tail| ==> sep !in tail[i] by {
        forall i | 0 <= i < |tail| ensures sep !in tail[i] {
          if i == 0 {
            assert parts[0] == [parts[0][0]] + parts[0][1..];
          }
        }
      }
      assert s == [parts[0][0]] + Join(tail, sep);
      assert s[1..] == Join(tail, sep);
      SplitJoin(tail, sep);
      assert parts[0] == [parts[0][0]] + parts[0][1..];
    }
  }

  lemma {:induction false} NoSeparatorSplit(s: string, sep: char)
    requires sep !in s
    ensures Split(s, sep) == [s]
    decreases |s|
  {
    if s != [] {
      assert sep !in s[1..];
      NoSeparatorSplit(s[1..], sep);
      assert s == [s[0]] + s[1..];
    }
  }

  /** `s.split(sep)[0]`: the text before the first separator (all of `s` when there is none). */
  function Before(s: string, sep: char): (r: string)
    ensures |r| <= |s| && r == s[..|r|] && sep !in r
    ensures r == s || s[|r|] == sep
  {
    var parts := Split(s, sep);
    var r := parts[0];
    assert |parts| > 1 ==> s == r + [sep] + Join(parts[1..], sep);
    assert |parts| == 1 ==> s == r;
    r
  }

  /** Splitting text that starts with a separator-free `p` puts `p` at the head of the first piece. */
  lemma {:induction false} SplitFirst(p: string, rest: string, sep: char)
    requires sep !in p
    ensures Split(p + rest, sep)[0] == p + Split(rest, sep)[0]
    decreases |p|
  {
    if p != [] {
      assert (p + rest)[1..] == p[1..] + rest;
      assert sep !in p[1..];
      SplitFirst(p[1..], rest, sep);
      assert p == [p[0]] + p[1..];
    } else {
      assert p + rest == rest;
    }
  }

  /** The text before the first separator is the separator-free prefix that a separator, or the
    * end of the text, follows. */
  lemma BeforeUpTo(p: string, rest: string, sep: char)
    requires sep !in p
    requires rest == [] || rest[0] == sep
    ensures Before(p + rest, sep) == p
  {
    SplitFirst(p, rest, sep);
    if rest != [] {
      assert Split(rest, sep)[0] == [];
    }
    assert p + [] == p;
  }

  // ---------------------------------------------------------------------------
  // slice on arrays and strings
  // ---------------------------------------------------------------------------

  /** A relative index of `slice` resolved against a length. */
  function ClampIndex(i: int, len: nat): (r: nat)
    ensures r <= len
    ensures 0 <= i <= len ==> r == i
  {
    if i < 0 then (if len + i < 0 then 0 else len + i) else if i > len then len else i
  }

  /** `s.slice(start, end)` with ECMAScript's treatment of negative and out-of-range bounds. */
  function Slice<T>(s: seq<T>, start: int, end: int): (r: seq<T>)
    ensures |r| <= |s|
    ensures 0 <= start && 0 <= end ==> |r| <= if end - start < 0 then 0 else end - start
    ensures 0 <= start <= |s| && start <= end ==> r == s[start..if end <= |s| then end else |s|]
  {
    var from := ClampIndex(start, |s|);
    var to := ClampIndex(end, |s|);
    if to <= from then [] else s[from..to]
  }

  // ---------------------------------------------------------------------------
  // Numbers and their decimal text
  // ---------------------------------------------------------------------------

  predicate IsDigit(c: char) {
    '0' <= c <= '9'
  }

  predicate AllDigits(s: string) {
    forall i :: 0 <= i < |s| ==> IsDigit(s[i])
  }

  function DigitChar(d: nat): (c: char)
    requires d < 10
    ensures IsDigit(c)
  {
    ('0' as int + d) as char
  }

  /** Decimal text of a natural number, without leading zeros. */
  function NatToString(n: nat): (s: string)
    ensures |s| >= 1 && AllDigits(s)
    ensures s[0] == '0' ==> n == 0
  {
    if n < 10 then [DigitChar(n)] else NatToString(n / 10) + [DigitChar(n % 10)]
  }

  /** `String(n)` for an integer-valued number. */
  function IntToString(n: int): (s: string)
    ensures |s| >= 1
    ensures (n < 0) == (s[0] == '-')
  {
    if n < 0 then "-" + NatToString(-n) else NatToString(n)
  }

  /** The value of a run of decimal digits. */
  function DecimalValue(s: string): nat
    requires AllDigits(s)
  {
    if s == [] then 0 else DecimalValue(s[..|s| - 1]) * 10 + (s[|s| - 1] as int - '0' as int)
  }

  /** Reading back the text of a natural number gives the number. */
  lemma {:induction false} NatToStringRoundTrip(n: nat)
    ensures DecimalValue(NatToString(n)) == n
  {
    if n >= 10 {
      var s := NatToString(n);
      assert s[..|s| - 1] == NatToString(n / 10);
      NatToStringRoundTrip(n / 10);
    }
  }

  lemma NatToStringInjective(a: nat, b: nat)
    requires NatToString(a) == NatToString(b)
    ensures a == b
  {
    NatToStringRoundTrip(a);
    NatToStringRoundTrip(b);
  }

  /** Different integers print differently. */
  lemma IntToStringInjective(a: int, b: int)
    requires IntToString(a) == IntToString(b)
    ensures a == b
  {
    assert (a < 0) == (b < 0);
    if a < 0 {
      assert NatToString(-a) == IntToString(a)[1..];
      assert NatToString(-b) == IntToString(b)[1..];
      NatToStringInjective(-a, -b);
    } else {
      NatToStringInjective(a, b);
    }
  }

  /** `s.padStart(width, fill)` for a one-character fill. */
  function PadStart(s: string, width: nat, fill: char): (r: string)
    ensures |r| == if |s| >= width then |s| else width
    ensures r[|r| - |s|..] == s
    ensures forall i :: 0 <= i < |r| - |s| ==> r[i] == fill
  {
    if |s| >= width then s else seq(width - |s|, _ => fill) + s
  }

  /** `String(n).padStart(2, '0')` for the numbers it is used on (months and days), written as
    * its two digits; other numbers print unpadded or already have two characters. */
  function Pad2(n: int): (s: string)
    ensures 0 <= n <= 99 ==> |s| == 2
  {
    if 0 <= n <= 99 then [DigitChar(n / 10), DigitChar(n % 10)] else IntToString(n)
  }

  /** The two-digit form is exactly what `padStart(2, '0')` makes of the decimal text. */
  lemma Pad2IsPadStart(n: int)
    ensures Pad2(n) == PadStart(IntToString(n), 2, '0')
  {
    if 0 <= n < 10 {
      var t := IntToString(n);
      assert t == [DigitChar(n)];
      PadStartShort(t);
      assert DigitChar(n / 10) == '0';
    } else if 10 <= n <= 99 {
      TwoDigitText(n);
      PadStartLong(IntToString(n));
    } else {
      LongIntText(n);
      PadStartLong(IntToString(n));
    }
  }

  /** A number from 10 to 99 prints as its tens digit and its units digit. */
  lemma TwoDigitText(n: int)
    requires 10 <= n <= 99
    ensures IntToString(n) == [DigitChar(n / 10), DigitChar(n % 10)]
  {
    assert NatToString(n / 10) == [DigitChar(n / 10)];
  }

  /** Outside 0..9 the decimal text already has two characters. */
  lemma LongIntText(n: int)
    requires n < 0 || n >= 10
    ensures |IntToString(n)| >= 2
  {
    if n >= 10 {
      assert NatToString(n) == NatToString(n / 10) + [DigitChar(n % 10)];
    }
  }

  lemma PadStartShort(t: string)
    requires |t| == 1
    ensures PadStart(t, 2, '0') == ['0'] + t
  {
    assert seq(1, _ => '0') == ['0'];
  }

  lemma PadStartLong(t: string)
    requires |t| >= 2
    ensures PadStart(t, 2, '0') == t
  {
  }

  /** A number below 100 is padded to two digits that read back as the number. */
  lemma Pad2Value(n: int)
    requires 0 <= n <= 99
    ensures AllDigits(Pad2(n)) && DecimalValue(Pad2(n)) == n
  {
    var s := Pad2(n);
    var h := s[..1];
    assert h[..0] == [];
    assert DecimalValue(h) == n / 10;
    assert s[..|s| - 1] == h;
  }

  /** Leading decimal digits of `s`. */
  function DigitPrefix(s: string): (r: string)
    ensures |r| <= |s| && r == s[..|r|] && AllDigits(r)
    ensures r == s || !IsDigit(s[|r|])
  {
    if s != [] && IsDigit(s[0]) then
      var r := [s[0]] + DigitPrefix(s[1..]);
      assert r[1..] == DigitPrefix(s[1..]);
      r
    else []
  }

  predicate IsHexDigit(c: char) {
    IsDigit(c) || 'a' <= c <= 'f' || 'A' <= c <= 'F'
  }

  function HexDigitValue(c: char): nat
    requires IsHexDigit(c)
  {
    if IsDigit(c) then c as int - '0' as int
    else if 'a' <= c <= 'f' then c as int - 'a' as int + 10
    else c as int - 'A' as int + 10
  }

  /** Leading hexadecimal digits of `s`, with their value. */
  function HexPrefix(s: string): (r: string)
    ensures |r| <= |s| && r == s[..|r|]
    ensures forall i :: 0 <= i < |r| ==> IsHexDigit(r[i])
  {
    if s != [] && IsHexDigit(s[0]) then
      var r := [s[0]] + HexPrefix(s[1..]);
      assert r[1..] == HexPrefix(s[1..]);
      r
    else []
  }

  function HexValue(s: string): nat
    requires forall i :: 0 <= i < |s| ==> IsHexDigit(s[i])
  {
    if s == [] then 0 else HexValue(s[..|s| - 1]) * 16 + HexDigitValue(s[|s| - 1])
  }

  /** The text after one optional leading sign. */
  function Unsigned(t: string): (u: string)
    ensures u == t || (t != [] && (t[0] == '-' || t[0] == '+') && u == t[1..])
  {
    if t != [] && (t[0] == '-' || t[0] == '+') then t[1..] else t
  }

  /** Starts with `0x` or `0X`. */
  predicate HexPrefixed(u: string) {
    |u| >= 2 && u[0] == '0' && (u[1] == 'x' || u[1] == 'X')
  }

  /** `parseInt(s)` with no radix: leading whitespace skipped, an optional sign, a `0x`/`0X`
    * prefix selecting base 16, then the longest run of digits; `None` (NaN) when that run is
    * empty. Trailing text after the digits is ignored. */
  function ParseInt(s: string): (r: Option<int>)
    ensures (forall i :: 0 <= i < |s| ==> !IsDigit(s[i])) ==> r == None
  {
    var t := TrimStart(s);
    var negative := t != [] && t[0] == '-';
    var u := Unsigned(t);
    var sign := if negative then -1 else 1;
    assert u == s[|s| - |u|..];
    if HexPrefixed(u) then
      var h := HexPrefix(u[2..]);
      assert IsDigit(s[|s| - |u|]);
      if h == [] then None else Some(sign * HexValue(h))
    else
      var d := DigitPrefix(u);
      assert d != [] ==> IsDigit(s[|s| - |u|]);
      if d == [] then None else Some(sign * DecimalValue(d))
  }

  /** A number is found whenever a digit follows the whitespace and the optional sign (a hex
    * digit after `0x`), and its sign is the sign written. */
  lemma ParseIntDefined(s: string)
    ensures var u := Unsigned(TrimStart(s));
            u != [] && IsDigit(u[0]) && !HexPrefixed(u) ==> ParseInt(s).Some?
    ensures var u := Unsigned(TrimStart(s));
            HexPrefixed(u) && |u| > 2 && IsHexDigit(u[2]) ==> ParseInt(s).Some?
    ensures var r := ParseInt(s);
            r.Some? && r.value != 0 ==> (r.value < 0 <==> TrimStart(s) != [] && TrimStart(s)[0] == '-')
  {
    var t := TrimStart(s);
    var u := Unsigned(t);
    if HexPrefixed(u) {
      var h := HexPrefix(u[2..]);
      if |u| > 2 && IsHexDigit(u[2]) {
        assert h != [];
      }
    } else if u != [] && IsDigit(u[0]) {
      assert DigitPrefix(u) != [];
    }
  }

  /** A non-empty run of decimal digits parses to its value. */
  lemma ParseIntDigits(s: string)
    requires s != [] && AllDigits(s)
    ensures ParseInt(s) == Some(DecimalValue(s))
  {
    assert IsDigit(s[0]);
    assert !IsSpace(s[0]);
    assert TrimStart(s) == s;
    assert Unsigned(s) == s;
    assert !HexPrefixed(s) by {
      if |s| >= 2 { assert IsDigit(s[1]); }
    }
    DigitPrefixAll(s);
  }

  lemma {:induction false} DigitPrefixAll(s: string)
    requires AllDigits(s)
    ensures DigitPrefix(s) == s
  {
    if s != [] {
      DigitPrefixAll(s[1..]);
    }
  }

  // ---------------------------------------------------------------------------
  // Case
  // ---------------------------------------------------------------------------

  function ToLowerAscii(c: char): char {
    if 'A' <= c <= 'Z' then (c as int - 'A' as int + 'a' as int) as char else c
  }

  /** `toLowerCase` on the ASCII letters; every other character is left as it is. */
  function ToLower(s: string): (r: string)
    ensures |r| == |s|
    ensures forall i :: 0 <= i < |s| ==> r[i] == ToLowerAscii(s[i])
  {
    seq(|s|, i requires 0 <= i < |s| => ToLowerAscii(s[i]))
  }
}
