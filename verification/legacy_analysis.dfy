/**
 * `analyzeChat` of the older generation: the same counts and duration as the newer one, but
 * speakers leave out `unknown` and empty roles, and the ratio text carries no words.
 */
module LegacyAnalysis {
  import opened Numerals
  import opened CodeBlocks
  import opened ChatAnalysis

  /** A role the older speaker list keeps. */
  predicate Listed(role: string) {
    role != "unknown" && role != ""
  }

  /** Some message of `ms` has role `x`. */
  predicate Speaks(ms: seq<ChatMessage>, x: string) {
    exists k :: 0 <= k < |ms| && ms[k].role == x
  }

  lemma SpeaksCons(ms: seq<ChatMessage>, x: string)
    requires |ms| > 0
    ensures Speaks(ms, x) <==> ms[0].role == x || Speaks(ms[1..], x)
  {
    if Speaks(ms, x) && ms[0].role != x {
      var k :| 0 <= k < |ms| && ms[k].role == x;
      assert ms[1..][k - 1].role == x;
    }
    if Speaks(ms[1..], x) {
      var k :| 0 <= k < |ms| - 1 && ms[1..][k].role == x;
      assert ms[k + 1].role == x;
    }
  }

  /** The roles of `ms` that are listed, in message order. */
  function ListedRoles(ms: seq<ChatMessage>): (r: seq<string>)
    ensures forall x :: x in r <==> Listed(x) && Speaks(ms, x)
  {
    if |ms| == 0 then []
    else
      var rest := ListedRoles(ms[1..]);
      forall x ensures Speaks(ms, x) <==> ms[0].role == x || Speaks(ms[1..], x) {
        SpeaksCons(ms, x);
      }
      (if Listed(ms[0].role) then [ms[0].role] else []) + rest
  }

  /** The older ratio text: two percentages, or the fixed all-prose text. */
  function LegacyRatioText(t: Tally): (s: string)
    requires t.codeWords <= t.words
  {
    if t.words > 0 && t.codeWords > 0 then
      NatToString(Percent(t.words - t.codeWords, t.words)) + "% / "
        + NatToString(Percent(t.codeWords, t.words)) + "%"
    else "100% / 0%"
  }

  /** `analyzeChat(messages)` of the older generation. */
  function LegacyAnalyzeChat(ms: seq<ChatMessage>): (a: AnalysisResult)
    ensures a.messageCount == |ms|
    ensures a.codeBlockCount <= a.messageCount
    ensures a.estimatedDurationMinutes >= 1
    ensures NoDup(a.speakers)
    ensures forall x :: x in a.speakers <==> Listed(x) && Speaks(ms, x)
  {
    var t := Count(ms);
    AnalysisResult(
      Distinct(ListedRoles(ms)), |ms|, t.words, DurationMinutes(t.words - t.codeWords), t.codeBlocks,
      LegacyRatioText(t))
  }

  /** Both generations count words, code blocks and minutes alike; they differ in speakers and ratio. */
  lemma SameCounts(ms: seq<ChatMessage>)
    ensures LegacyAnalyzeChat(ms).wordCount == AnalyzeChat(ms).wordCount
    ensures LegacyAnalyzeChat(ms).codeBlockCount == AnalyzeChat(ms).codeBlockCount
    ensures LegacyAnalyzeChat(ms).estimatedDurationMinutes == AnalyzeChat(ms).estimatedDurationMinutes
  {
  }

  /** Without code words the older ratio is the fixed all-prose text. */
  lemma LegacyRatioWithoutCode(ms: seq<ChatMessage>)
    requires forall k :: 0 <= k < |ms| ==> !ms[k].isCodeBlock
    ensures LegacyAnalyzeChat(ms).proseToCodeRatio == "100% / 0%"
  {
    CountNoCode(ms);
  }

  /** `unknown` and the empty role never appear among the older generation's speakers. */
  lemma UnlistedNeverSpeak(ms: seq<ChatMessage>)
    ensures "unknown" !in LegacyAnalyzeChat(ms).speakers && "" !in LegacyAnalyzeChat(ms).speakers
  {
  }
}
