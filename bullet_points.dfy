/**
 * `extractBulletPoints`: the lines of a model reply that read as findings. The reply is cut
 * at newlines; each line is trimmed, loses at most one list marker of each kind, and is kept
 * only when it is long enough, not too long, and neither a heading nor bold text; the first
 * `maxPoints` survivors are returned.
 */
module BulletPoints {
  import opened Wrappers
  import opened JsText
  import opened Collections

  /** The limit when the caller gives none. */
  const DefaultMaxPoints: int := 8

  // ---------------------------------------------------------------------------
  // List markers
  // ---------------------------------------------------------------------------

  /** The class `[-•*+→▶]`. */
  predicate IsBulletSymbol(c: char) {
    c == '-' || c == '\U{2022}' || c == '*' || c == '+' || c == '\U{2192}' || c == '\U{25B6}'
  }

  predicate IsAsciiLetter(c: char) {
    'a' <= c <= 'z' || 'A' <= c <= 'Z'
  }

  /** `replace(/^[-•*+→▶]\s*\/, '')`. */
  function StripSymbol(s: string): (r: string)
    ensures |r| <= |s|
  {
    if s != [] && IsBulletSymbol(s[0]) then TrimStart(s[1..]) else s
  }

  /** `replace(/^\d+\.\s*\/, '')`: the digit run is greedy, so the marker is there exactly when
    * the whole leading run of digits is followed by a full stop. */
  function StripNumber(s: string): (r: string)
    ensures |r| <= |s|
  {
    var n := |DigitPrefix(s)|;
    if 1 <= n < |s| && s[n] == '.' then TrimStart(s[n + 1..]) else s
  }

  /** `replace(/^[a-zA-Z]\.\s*\/, '')`. */
  function StripLetter(s: string): (r: string)
    ensures |r| <= |s|
  {
    if |s| >= 2 && IsAsciiLetter(s[0]) && s[1] == '.' then TrimStart(s[2..]) else s
  }

  /** A trimmed line with its markers removed, symbol first, then number, then letter. */
  function Clean(line: string): (r: string)
    ensures Trim(r) == r
  {
    var r := Trim(StripLetter(StripNumber(StripSymbol(line))));
    TrimIdempotent(StripLetter(StripNumber(StripSymbol(line))));
    r
  }

  /** What a line of the reply becomes before filtering. */
  function CleanLine(line: string): string {
    Clean(Trim(line))
  }

  // ---------------------------------------------------------------------------
  // Filters
  // ---------------------------------------------------------------------------

  /** The characters `.` does not match in a regular expression. */
  predicate IsLineTerminator(c: char) {
    c == '\n' || c == '\r' || c == '\U{2028}' || c == '\U{2029}'
  }

  /** `/^\*\*.*\*\*$/`: a line that is one bold run. */
  predicate IsBoldLine(s: string) {
    && |s| >= 4 && s[..2] == "**" && s[|s| - 2..] == "**"
    && forall i :: 2 <= i < |s| - 2 ==> !IsLineTerminator(s[i])
  }

  /** The number of `#` characters `s` starts with. */
  function HashRun(s: string): (n: nat)
    ensures n <= |s|
    ensures forall i :: 0 <= i < n ==> s[i] == '#'
    ensures n == |s| || s[n] != '#'
  {
    if s != [] && s[0] == '#' then 1 + HashRun(s[1..]) else 0
  }

  /** `/^#{1,6}\s/`: one to six `#` and then whitespace. A longer run of `#` fails: after any
    * shorter prefix of the run comes another `#`, not whitespace. */
  predicate IsHeading(s: string) {
    var n := HashRun(s);
    1 <= n <= 6 && n < |s| && IsSpace(s[n])
  }

  /** The filter the cleaned lines go through. */
  predicate Keep(line: string) {
    && Utf16Len(line) > 15
    && !IsBoldLine(line)
    && !IsHeading(line)
    && !Contains(line, "**")
    && Utf16Len(line) < 500
  }

  /** What every returned item satisfies. */
  predicate Acceptable(item: string) {
    && 15 < Utf16Len(item) < 500
    && !Contains(item, "**")
    && !IsHeading(item)
    && Trim(item) == item
  }

  /** `replace(/\*\*\/g, '')`: every non-overlapping `**`, left to right, removed. */
  function RemoveBold(s: string): (r: string)
    ensures |r| <= |s|
  {
    if |s| >= 2 && s[0] == '*' && s[1] == '*' then RemoveBold(s[2..])
    else if s == [] then []
    else [s[0]] + RemoveBold(s[1..])
  }

  /** Text without `**` is left alone by `RemoveBold`. */
  lemma {:induction false} RemoveBoldUnchanged(s: string)
    requires !Contains(s, "**")
    ensures RemoveBold(s) == s
  {
    if s != [] {
      assert !StartsWith(s, "**");
      RemoveBoldUnchanged(s[1..]);
    }
  }

  /** The last clean-up: bold markers removed, trimmed again. */
  function Tidy(line: string): string {
    Trim(RemoveBold(line))
  }

  predicate LongEnough(line: string) {
    Utf16Len(line) > 15
  }

  predicate NonEmpty(line: string) {
    Utf16Len(line) > 0
  }

  // ---------------------------------------------------------------------------
  // The pipeline
  // ---------------------------------------------------------------------------

  /** One line through the chain of `map` and `filter` stages: trimmed, dropped when empty,
    * cleaned of markers, dropped unless `Keep` holds, tidied, dropped when short. Every stage
    * looks at one line only, so the chain over the lines is this step applied line by line. */
  function Process(line: string): Option<string> {
    var t := Trim(line);
    if !NonEmpty(t) then None
    else
      var c := Clean(t);
      if !Keep(c) then None
      else
        var d := Tidy(c);
        if !LongEnough(d) then None else Some(d)
  }

  /** A line that survives is its cleaned form, unchanged by the last clean-up, and
    * acceptable. */
  lemma ProcessSurvivor(line: string)
    requires Process(line).Some?
    ensures Process(line).value == CleanLine(line)
    ensures Acceptable(Process(line).value)
  {
    var c := Clean(Trim(line));
    RemoveBoldUnchanged(c);
    assert Tidy(c) == c;
  }

  /** Every surviving line is acceptable. */
  lemma SurvivorsAcceptable()
    ensures forall x :: Process(x).Some? ==> Acceptable(Process(x).value)
  {
    forall x | Process(x).Some?
      ensures Acceptable(Process(x).value)
    {
      ProcessSurvivor(x);
    }
  }

  /** Every surviving line is its cleaned form. */
  lemma SurvivorsCleaned()
    ensures forall x :: Process(x).Some? ==> Process(x).value == CleanLine(x)
  {
    forall x | Process(x).Some?
      ensures Process(x).value == CleanLine(x)
    {
      ProcessSurvivor(x);
    }
  }

  /** The lines that survive every stage, in reply order. */
  function Candidates(text: string): seq<string> {
    CollectSome(Process, Split(text, '\n'))
  }

  /** `extractBulletPoints(text, maxPoints)`: empty text gives no items; otherwise the
    * surviving lines, cut with `slice(0, maxPoints)`. */
  function ExtractBulletPoints(text: string, maxPoints: int): (r: seq<string>)
    ensures text == [] ==> r == []
    ensures maxPoints >= 0 ==> |r| <= maxPoints
  {
    if text == [] then [] else Slice(Candidates(text), 0, maxPoints)
  }

  /** The items are a prefix of the candidates. */
  lemma ExtractIsPrefix(text: string, maxPoints: int)
    requires text != []
    ensures var r := ExtractBulletPoints(text, maxPoints);
            |r| <= |Candidates(text)| && r == Candidates(text)[..|r|]
  {
  }

  /** Every line that survives the pipeline is acceptable. */
  lemma CandidatesAcceptable(text: string)
    ensures forall j :: 0 <= j < |Candidates(text)| ==> Acceptable(Candidates(text)[j])
  {
    SurvivorsAcceptable();
    CollectSomeAll(Process, Acceptable, Split(text, '\n'));
  }

  /** Every item is longer than 15 and shorter than 500 code units, holds no `**`, is not a
    * heading and is trimmed. */
  lemma BulletPointsAcceptable(text: string, maxPoints: int)
    ensures forall i :: 0 <= i < |ExtractBulletPoints(text, maxPoints)| ==>
              Acceptable(ExtractBulletPoints(text, maxPoints)[i])
  {
    if text != [] {
      var c := Candidates(text);
      var r := ExtractBulletPoints(text, maxPoints);
      CandidatesAcceptable(text);
      ExtractIsPrefix(text, maxPoints);
      forall i | 0 <= i < |r| ensures Acceptable(r[i]) {
        assert r[i] == c[i];
      }
    }
  }

  /** The items appear in the order of the lines they come from, each being its line
    * trimmed and stripped of its markers. */
  lemma BulletPointsInLineOrder(text: string, maxPoints: int)
    ensures IsSubsequence(ExtractBulletPoints(text, maxPoints), MapSeq(CleanLine, Split(text, '\n')))
  {
    if text != [] {
      var c := Candidates(text);
      var r := ExtractBulletPoints(text, maxPoints);
      SurvivorsCleaned();
      CollectSomeInOrder(Process, CleanLine, Split(text, '\n'));
      ExtractIsPrefix(text, maxPoints);
      PrefixIsSubsequence(c, |r|);
      SubsequenceTransitive(r, c, MapSeq(CleanLine, Split(text, '\n')));
    }
  }

  /** A smaller limit gives a prefix of the longer list: `extractBulletPoints(t, m).slice(0, k)`
    * is `extractBulletPoints(t, min(m, k))` for non-negative limits. */
  lemma ExtractLimit(text: string, m: int, k: int)
    requires m >= 0 && k >= 0
    ensures Slice(ExtractBulletPoints(text, m), 0, k) == ExtractBulletPoints(text, if m <= k then m else k)
  {
  }

  /** A line that survives every stage. */
  predicate Survives(line: string) {
    Process(line).Some?
  }

  /** The candidates hold one item per surviving line, and every survivor's cleaned form. */
  lemma CandidatesComplete(text: string)
    ensures var lines := Split(text, '\n');
            |Candidates(text)| == |FilterSeq(Survives, lines)|
            && forall j :: 0 <= j < |lines| && Survives(lines[j]) ==> Process(lines[j]).value in Candidates(text)
  {
    var lines := Split(text, '\n');
    SurvivesIsDefined();
    CollectSomeComplete(Process, Survives, lines);
    var c := Candidates(text);
    assert c == CollectSome(Process, lines);
    forall j | 0 <= j < |lines| && Survives(lines[j])
      ensures Process(lines[j]).value in c
    {
      assert Process(lines[j]).Some?;
    }
  }

  lemma SurvivesIsDefined()
    ensures forall x :: Survives(x) <==> Process(x).Some?
  {
  }

  /** No surviving line is lost: the extraction has one item per surviving line up to the
    * limit, and when no more lines survive than the limit allows, every survivor's cleaned
    * form is returned. */
  lemma BulletPointsComplete(text: string, maxPoints: int)
    requires text != [] && maxPoints >= 0
    ensures var survivors := FilterSeq(Survives, Split(text, '\n'));
            |ExtractBulletPoints(text, maxPoints)| == if |survivors| <= maxPoints then |survivors| else maxPoints
    ensures var lines := Split(text, '\n');
            |FilterSeq(Survives, lines)| <= maxPoints ==>
              ExtractBulletPoints(text, maxPoints) == Candidates(text)
              && forall j :: 0 <= j < |lines| && Survives(lines[j]) ==>
                   Process(lines[j]).value in ExtractBulletPoints(text, maxPoints)
  {
    var c := Candidates(text);
    CandidatesComplete(text);
    var r := ExtractBulletPoints(text, maxPoints);
    assert r == Slice(c, 0, maxPoints);
    if |c| <= maxPoints {
      assert r == c[0..|c|] == c;
    } else {
      assert r == c[0..maxPoints];
    }
  }
}
