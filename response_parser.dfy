/**
 * `parseGeminiResponse` and the branches of `generateTableSummary` that do not depend on the
 * network: the reply text is split into a summary, key insights, trends and recommendations,
 * with a fallback that spreads the reply's first fifteen findings over the three lists; an
 * empty table is answered without a model call, and a failed call is answered by a message
 * chosen from its HTTP status.
 *
 * The four section-finding regular expressions are an input (`SectionMatches`): what each
 * captures in its first group, or `None` when it does not match. The model call is an input
 * too (`CallOutcome`): the reply text, or a failure with an optional status and message.
 */
module ResponseParser {
  import opened Wrappers
  import opened JsText
  import opened BulletPoints
  import TableStatistics

  // ---------------------------------------------------------------------------
  // parseGeminiResponse
  // ---------------------------------------------------------------------------

  /** The first capture group of each section expression, when it matches: the summary, the
    * key insights, the trends (with performance and financial analysis) and the
    * recommendations. */
  datatype SectionMatches = SectionMatches(
    summary: Option<string>,
    insights: Option<string>,
    trends: Option<string>,
    recommendations: Option<string>)

  /** The `sections` object; an absent field is `None`. */
  datatype Sections = Sections(
    summary: Option<string>,
    keyInsights: Option<seq<string>>,
    trends: Option<seq<string>>,
    recommendations: Option<seq<string>>)

  /** Findings taken from one matched section. */
  const SectionLimit: int := 8

  /** Findings taken from the whole reply when the key insights are missing. */
  const FallbackLimit: int := 15

  /** The findings of a matched section, if it matched. */
  function SectionPoints(block: Option<string>): Option<seq<string>> {
    if block.Some? then Some(ExtractBulletPoints(block.value, SectionLimit)) else None
  }

  /** The key insights are absent or empty, so the whole reply is used instead. */
  predicate NeedsFallback(m: SectionMatches) {
    var insights := SectionPoints(m.insights);
    insights.None? || |insights.value| == 0
  }

  /** Every item is a finding `extractBulletPoints` may return. */
  predicate AllAcceptable(items: seq<string>) {
    forall i :: 0 <= i < |items| ==> Acceptable(items[i])
  }

  /** The items of a list, and none for an absent list. */
  function Items(items: Option<seq<string>>): seq<string> {
    if items.Some? then items.value else []
  }

  /** Every item of an extracted list is acceptable and there are at most `maxPoints` of them. */
  lemma ExtractedAcceptable(text: string, maxPoints: int)
    requires maxPoints >= 0
    ensures AllAcceptable(ExtractBulletPoints(text, maxPoints))
    ensures |ExtractBulletPoints(text, maxPoints)| <= maxPoints
  {
    BulletPointsAcceptable(text, maxPoints);
  }

  /** What holds of every item holds of every item of a slice. */
  lemma SliceAll<T>(p: T -> bool, items: seq<T>, from: nat, to: nat)
    requires forall i :: 0 <= i < |items| ==> p(items[i])
    ensures forall i :: 0 <= i < |Slice(items, from, to)| ==> p(Slice(items, from, to)[i])
  {
    if from <= |items| && from <= to {
      var hi := if to <= |items| then to else |items|;
      assert Slice(items, from, to) == items[from..hi];
    } else {
      assert Slice(items, from, to) == [];
    }
  }

  /** A slice of acceptable items is acceptable. */
  lemma SliceAcceptable(items: seq<string>, from: nat, to: nat)
    requires AllAcceptable(items)
    ensures AllAcceptable(Slice(items, from, to))
  {
    SliceAll(Acceptable, items, from, to);
  }

  /** The fallback's three slices of the findings `points` (at most fifteen): up to eight, then
    * up to six more only when the first eight are full, then what is left, at most one; together
    * they are `points`. */
  lemma FallbackSlices(points: seq<string>)
    requires |points| <= FallbackLimit
    ensures var keyInsights, trends := Slice(points, 0, 8), Slice(points, 8, 14);
            && |keyInsights| <= 8 && |trends| <= 6
            && (|keyInsights| < 8 ==> trends == [])
            && keyInsights + trends + (if |points| > 14 then points[14..] else []) == points
            && (|points| > 14 ==> Slice(points, 14, |points|) == points[14..] && |points[14..]| == 1)
  {
    if |points| >= 14 {
      assert points[..8] + points[8..14] + points[14..] == points;
    } else if |points| >= 8 {
      assert points[..8] + points[8..] == points;
    }
  }

  /** The sections the four expressions find: the trimmed summary capture, and up to eight
    * findings from each matched list section. */
  method MatchSections(m: SectionMatches) returns (sections: Sections)
    ensures sections.summary == if m.summary.Some? then Some(Trim(m.summary.value)) else None
    ensures sections.keyInsights == SectionPoints(m.insights)
    ensures sections.trends == SectionPoints(m.trends)
    ensures sections.recommendations == SectionPoints(m.recommendations)
    ensures AllAcceptable(Items(sections.keyInsights)) && |Items(sections.keyInsights)| <= 8
    ensures AllAcceptable(Items(sections.trends)) && |Items(sections.trends)| <= 8
    ensures AllAcceptable(Items(sections.recommendations)) && |Items(sections.recommendations)| <= 8
  {
    sections := Sections(None, None, None, None);
    if m.summary.Some? {
      sections := sections.(summary := Some(Trim(m.summary.value)));
    }
    if m.insights.Some? {
      ExtractedAcceptable(m.insights.value, SectionLimit);
      sections := sections.(keyInsights := Some(ExtractBulletPoints(m.insights.value, SectionLimit)));
    }
    if m.trends.Some? {
      ExtractedAcceptable(m.trends.value, SectionLimit);
      sections := sections.(trends := Some(ExtractBulletPoints(m.trends.value, SectionLimit)));
    }
    if m.recommendations.Some? {
      ExtractedAcceptable(m.recommendations.value, SectionLimit);
      sections := sections.(recommendations := Some(ExtractBulletPoints(m.recommendations.value, SectionLimit)));
    }
  }

  /** The sections `parseGeminiResponse` returns, as one expression: the matched sections, with
    * the fallback's slices of the reply's first fifteen findings in place of the lists when no
    * key insights come out. */
  function ParsedSections(text: string, m: SectionMatches): (s: Sections)
    ensures s.keyInsights.Some?
  {
    var matched := Sections(if m.summary.Some? then Some(Trim(m.summary.value)) else None,
                            SectionPoints(m.insights), SectionPoints(m.trends), SectionPoints(m.recommendations));
    if NeedsFallback(m) then
      var points := ExtractBulletPoints(text, FallbackLimit);
      matched.(keyInsights := Some(Slice(points, 0, 8)), trends := Some(Slice(points, 8, 14)),
               recommendations := if |points| > 14 then Some(Slice(points, 14, |points|)) else matched.recommendations)
    else matched
  }

  /** `parseGeminiResponse(text)`, given what the section expressions capture in `text`.
    * The summary is the trimmed capture; each matched list section gives up to eight findings.
    * When no key insights come out, the first fifteen findings of the whole reply are spread
    * out: the first eight become the key insights, the next six the trends, and anything left
    * (at most one) the recommendations; with nothing left a matched recommendations section
    * stays. */
  method ParseGeminiResponse(text: string, m: SectionMatches) returns (sections: Sections)
    ensures sections == ParsedSections(text, m)
    ensures sections.summary == if m.summary.Some? then Some(Trim(m.summary.value)) else None
    ensures sections.keyInsights.Some?
    ensures !NeedsFallback(m) ==>
              && sections.keyInsights == SectionPoints(m.insights)
              && sections.trends == SectionPoints(m.trends)
              && sections.recommendations == SectionPoints(m.recommendations)
    ensures NeedsFallback(m) ==>
              var points := ExtractBulletPoints(text, FallbackLimit);
              && sections.trends.Some?
              && |sections.keyInsights.value| <= 8 && |sections.trends.value| <= 6
              && (|sections.keyInsights.value| < 8 ==> sections.trends.value == [])
              && sections.recommendations
                 == (if |points| > 14 then Some(points[14..]) else SectionPoints(m.recommendations))
              && sections.keyInsights.value + sections.trends.value
                 + (if |points| > 14 then points[14..] else []) == points
    ensures AllAcceptable(Items(sections.keyInsights)) && AllAcceptable(Items(sections.trends))
    ensures AllAcceptable(Items(sections.recommendations))
    ensures |Items(sections.keyInsights)| <= 8 && |Items(sections.trends)| <= 8
    ensures |Items(sections.recommendations)| <= 8
  {
    sections := MatchSections(m);
    if sections.keyInsights.None? || |sections.keyInsights.value| == 0 {
      var allPoints := ExtractBulletPoints(text, FallbackLimit);
      ExtractedAcceptable(text, FallbackLimit);
      FallbackSlices(allPoints);
      SliceAcceptable(allPoints, 0, 8);
      SliceAcceptable(allPoints, 8, 14);
      SliceAcceptable(allPoints, 14, |allPoints|);
      sections := sections.(keyInsights := Some(Slice(allPoints, 0, 8)), trends := Some(Slice(allPoints, 8, 14)));
      if |allPoints| > 14 {
        sections := sections.(recommendations := Some(Slice(allPoints, 14, |allPoints|)));
      }
    }
  }

  // ---------------------------------------------------------------------------
  // generateTableSummary
  // ---------------------------------------------------------------------------

  /** What the awaited model call gives: the reply text, or a thrown error with its `status`
    * and `message`, each possibly missing. */
  datatype CallOutcome = Reply(text: string) | Failure(status: Option<int>, message: Option<string>)

  /** The `error` field: the error's message, or else its status. */
  datatype ErrorInfo = ErrorText(text: string) | ErrorStatus(code: int)

  datatype SummaryResult = SummaryResult(
    summary: string,
    keyInsights: seq<string>,
    trends: seq<string>,
    recommendations: Option<seq<string>>,
    error: Option<ErrorInfo>)

  /** The answer for a missing or empty table. */
  const NoDataResult: SummaryResult := SummaryResult(
    "No data available for analysis.",
    ["No data to analyze"],
    ["Insufficient data for trend analysis"],
    None,
    Some(ErrorText("No data provided")))

  const GenericFailureMessage: string := "AI analysis temporarily unavailable. Please try again later."
  const NotFoundMessage: string := "Model not found. Please check the Gemini model configuration."
  const RateLimitMessage: string := "Rate limit exceeded. Please try again in a few moments."
  const AccessDeniedMessage: string := "API access denied. Please check your API key."

  /** The user-facing message for a failed call with status `status`. */
  function FailureMessage(status: Option<int>): (message: string)
    ensures status == Some(404) <==> message == NotFoundMessage
    ensures status == Some(429) <==> message == RateLimitMessage
    ensures status == Some(403) <==> message == AccessDeniedMessage
    ensures status !in {Some(404), Some(429), Some(403)} <==> message == GenericFailureMessage
  {
    if status == Some(404) then NotFoundMessage
    else if status == Some(429) then RateLimitMessage
    else if status == Some(403) then AccessDeniedMessage
    else GenericFailureMessage
  }

  /** `error?.message || error?.status || 'Unknown error occurred'`: an empty message and a
    * zero status count as missing. */
  function FailureError(status: Option<int>, message: Option<string>): (e: ErrorInfo)
    ensures e.ErrorText? && e.text != [] && e.text != "Unknown error occurred" ==> message == Some(e.text)
    ensures e.ErrorStatus? ==> status == Some(e.code) && e.code != 0 && (message.None? || message == Some([]))
    ensures message.Some? && message.value != [] ==> e == ErrorText(message.value)
    ensures (message.None? || message == Some([])) && status.Some? && status.value != 0
            ==> e == ErrorStatus(status.value)
    ensures (message.None? || message == Some([])) && (status.None? || status == Some(0))
            ==> e == ErrorText("Unknown error occurred")
  {
    if message.Some? && message.value != [] then ErrorText(message.value)
    else if status.Some? && status.value != 0 then ErrorStatus(status.value)
    else ErrorText("Unknown error occurred")
  }

  /** The answer for a failed call: the message for its status, fixed single-item lists, no
    * recommendations, and an error that is never empty text. */
  function FailureResult(status: Option<int>, message: Option<string>): (r: SummaryResult)
    ensures r.summary == FailureMessage(status) && r.error == Some(FailureError(status, message))
    ensures r.error.value.ErrorText? ==> r.error.value.text != []
    ensures r.keyInsights == ["AI service encountered an error"]
    ensures r.trends == ["Unable to analyze trends at this time"] && r.recommendations.None?
  {
    SummaryResult(FailureMessage(status), ["AI service encountered an error"],
                  ["Unable to analyze trends at this time"], None, Some(FailureError(status, message)))
  }

  /** Characters of the reply kept when no summary section is found. */
  const SummaryCutoff: nat := 1000

  /** `text.slice(0, 1000) + (text.length > 1000 ? '...' : '')`. */
  function TruncatedSummary(text: string): (s: string)
    ensures Utf16Len(text) <= SummaryCutoff ==> s == text
    ensures Utf16Len(text) > SummaryCutoff ==>
              && |s| >= 3 && s[|s| - 3..] == "..." && |s| - 3 < |text|
              && s[..|s| - 3] == text[..|s| - 3]
              && Utf16Len(s[..|s| - 3]) <= SummaryCutoff
              && Utf16Len(s[..|s| - 3]) + CodeUnits(text[|s| - 3]) > SummaryCutoff
  {
    var kept := Utf16Prefix(text, SummaryCutoff);
    if Utf16Len(text) > SummaryCutoff then
      var s := kept + "...";
      assert s[..|s| - 3] == kept;
      s
    else kept + []
  }

  /** `generateTableSummary(options)` with the data `tableData` (`None` when missing), the
    * outcome of the model call on the prompt built from it, and what the section expressions
    * capture in a reply. No table: the fixed no-data answer, which does not depend on the call.
    * A failed call: the message for its status. A reply: the parsed sections, the truncated
    * reply standing in for a missing or empty summary. */
  method GenerateTableSummary(tableData: Option<seq<TableStatistics.Row>>, outcome: CallOutcome,
                              matchesOf: string -> SectionMatches) returns (result: SummaryResult)
    ensures tableData.None? || tableData == Some([]) ==> result == NoDataResult
    ensures tableData.Some? && tableData.value != [] && outcome.Failure? ==>
              result == FailureResult(outcome.status, outcome.message)
    ensures tableData.Some? && tableData.value != [] && outcome.Reply? ==>
              && result.error.None?
              && |result.keyInsights| <= 8 && |result.trends| <= 8 && |Items(result.recommendations)| <= 8
              && AllAcceptable(result.keyInsights) && AllAcceptable(result.trends)
              && AllAcceptable(Items(result.recommendations))
              && var m := matchesOf(outcome.text);
                 result.summary == if m.summary.Some? && Trim(m.summary.value) != []
                                   then Trim(m.summary.value) else TruncatedSummary(outcome.text)
    ensures tableData.Some? && tableData.value != [] && outcome.Reply? ==>
              var p := ParsedSections(outcome.text, matchesOf(outcome.text));
              && result.keyInsights == p.keyInsights.value
              && result.trends == (if p.trends.Some? then p.trends.value
                                   else Slice(ExtractBulletPoints(outcome.text, DefaultMaxPoints), 0, 6))
              && result.recommendations == p.recommendations
  {
    if tableData.None? || |tableData.value| == 0 {
      return NoDataResult;
    }
    match outcome
    case Failure(status, message) =>
      result := FailureResult(status, message);
    case Reply(text) =>
      var sections := ParseGeminiResponse(text, matchesOf(text));
      var summary := if sections.summary.Some? && sections.summary.value != [] then sections.summary.value
                     else TruncatedSummary(text);
      var keyInsights := if sections.keyInsights.Some? then sections.keyInsights.value
                         else Slice(ExtractBulletPoints(text, DefaultMaxPoints), 0, 8);
      var trends := if sections.trends.Some? then sections.trends.value
                     else Slice(ExtractBulletPoints(text, DefaultMaxPoints), 0, 6);
      if sections.trends.None? {
        ExtractedAcceptable(text, DefaultMaxPoints);
        SliceAcceptable(ExtractBulletPoints(text, DefaultMaxPoints), 0, 6);
      }
      result := SummaryResult(summary, keyInsights, trends, sections.recommendations, None);
  }

  /** The fallback on a reply with fifteen or more findings and no key insights: the first
    * eight findings, the next six, and the fifteenth alone. */
  lemma FallbackSplitExample(points: seq<string>)
    requires |points| == 15
    ensures Slice(points, 0, 8) == points[..8]
    ensures Slice(points, 8, 14) == points[8..14]
    ensures Slice(points, 14, |points|) == [points[14]]
  {
  }
}
