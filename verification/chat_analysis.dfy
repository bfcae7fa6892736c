/**
 * `analyzeChat` and `analyzeScript` of the newer generation: distinct speakers in order of
 * first appearance, message, word and code counts, a spoken-duration estimate at 150 words a
 * minute, and the prose-to-code ratio as text.
 *
 * All arithmetic is on integers. `Math.round(n / d)` for `n >= 0` is `(2n + d) div 2d`.
 */
module ChatAnalysis {
  import opened Outcomes
  import opened Numerals
  import opened JsText
  import opened CodeBlocks

  const WordsPerMinute := 150

  datatype AnalysisResult = AnalysisResult(
    speakers: seq<string>,
    messageCount: nat,
    wordCount: nat,
    estimatedDurationMinutes: nat,
    codeBlockCount: nat,
    proseToCodeRatio: string)

  // ---------------------------------------------------------------------------
  // `[...new Set(xs)]`

  predicate NoDup(xs: seq<string>) {
    forall i, j :: 0 <= i < j < |xs| ==> xs[i] != xs[j]
  }

  /** The distinct elements of `xs`, each where it first appears. */
  function Distinct(xs: seq<string>): (r: seq<string>)
    ensures NoDup(r)
    ensures forall x :: x in r <==> x in xs
    ensures |r| <= |xs|
  {
    if |xs| == 0 then []
    else
      var front := Distinct(xs[..|xs| - 1]);
      var x := xs[|xs| - 1];
      assert xs == xs[..|xs| - 1] + [x];
      if x in front then front else front + [x]
  }

  /** The position where `x` first appears in `xs`. */
  function FirstIndex(xs: seq<string>, x: string): (i: nat)
    requires x in xs
    ensures i < |xs| && xs[i] == x
    ensures forall j :: 0 <= j < i ==> xs[j] != x
  {
    if xs[0] == x then 0 else 1 + FirstIndex(xs[1..], x)
  }

  lemma FirstIndexSnoc(xs: seq<string>, y: string, x: string)
    requires x in xs
    ensures FirstIndex(xs + [y], x) == FirstIndex(xs, x)
  {
    var i := FirstIndex(xs, x);
    var k := FirstIndex(xs + [y], x);
    assert (xs + [y])[i] == x;
    assert k <= i;
    assert xs[k] == (xs + [y])[k];
  }

  lemma FirstIndexNew(xs: seq<string>, y: string)
    requires y !in xs
    ensures FirstIndex(xs + [y], y) == |xs|
  {
  }

  /** The distinct elements come in the order of their first appearance. */
  lemma {:induction false} DistinctInOrder(xs: seq<string>)
    ensures forall i, j :: 0 <= i < j < |Distinct(xs)| ==>
      FirstIndex(xs, Distinct(xs)[i]) < FirstIndex(xs, Distinct(xs)[j])
  {
    if |xs| > 0 {
      var init := xs[..|xs| - 1];
      var y := xs[|xs| - 1];
      DistinctInOrder(init);
      var front := Distinct(init);
      var r := Distinct(xs);
      assert xs == init + [y];
      forall z | z in front ensures FirstIndex(xs, z) == FirstIndex(init, z) {
        FirstIndexSnoc(init, y, z);
      }
      if y !in front {
        FirstIndexNew(init, y);
        forall i, j | 0 <= i < j < |r| ensures FirstIndex(xs, r[i]) < FirstIndex(xs, r[j]) {
          assert r[i] == front[i];
          if j < |front| {
            assert r[j] == front[j];
          }
        }
      }
    }
  }

  // ---------------------------------------------------------------------------
  // counting

  /** Words of all messages, code-block messages, and words inside code blocks. */
  datatype Tally = Tally(words: nat, codeBlocks: nat, codeWords: nat)

  function Add(a: Tally, b: Tally): Tally {
    Tally(a.words + b.words, a.codeBlocks + b.codeBlocks, a.codeWords + b.codeWords)
  }

  /** The tally of one message. */
  function MessageTally(m: ChatMessage): (t: Tally)
    ensures t.codeWords <= t.words && t.codeBlocks <= 1
    ensures t.codeBlocks == 1 <==> m.isCodeBlock
    ensures t.words == |Words(m.content)|
  {
    var n := |Words(m.content)|;
    if m.isCodeBlock then Tally(n, 1, n) else Tally(n, 0, 0)
  }

  /** The tally of the messages, one message after another. */
  function Count(ms: seq<ChatMessage>): (t: Tally)
    ensures t.codeWords <= t.words
    ensures t.codeBlocks <= |ms|
  {
    if |ms| == 0 then Tally(0, 0, 0) else Add(MessageTally(ms[0]), Count(ms[1..]))
  }

  /** Counting is additive over a concatenation of message lists. */
  lemma {:induction false} CountAppend(a: seq<ChatMessage>, b: seq<ChatMessage>)
    ensures Count(a + b) == Add(Count(a), Count(b))
  {
    if |a| == 0 {
      assert a + b == b;
    } else {
      assert (a + b)[0] == a[0];
      assert (a + b)[1..] == a[1..] + b;
      CountAppend(a[1..], b);
    }
  }

  /** Without code blocks there are no code words. */
  lemma {:induction false} CountNoCode(ms: seq<ChatMessage>)
    requires forall k :: 0 <= k < |ms| ==> !ms[k].isCodeBlock
    ensures Count(ms).codeBlocks == 0 && Count(ms).codeWords == 0
  {
    if |ms| > 0 {
      CountNoCode(ms[1..]);
    }
  }

  // ---------------------------------------------------------------------------
  // rounding

  /** `r` is `n / d` rounded half up: `r - 1/2 <= n / d < r + 1/2`. */
  predicate IsRounded(n: nat, d: nat, r: nat) {
    d > 0 && 2 * (d * r) <= 2 * n + d < 2 * (d * r) + 2 * d
  }

  lemma {:induction false} MulMono(d: nat, a: nat, b: nat)
    requires a <= b
    ensures d * a <= d * b
    decreases d
  {
    if d > 0 {
      MulMono(d - 1, a, b);
      assert d * a == (d - 1) * a + a;
      assert d * b == (d - 1) * b + b;
    }
  }

  /** `Math.round(n / d)` for a non-negative numerator. */
  function RoundDiv(n: nat, d: nat): (r: nat)
    requires d > 0
    ensures IsRounded(n, d, r)
  {
    var q := (2 * n + d) / (2 * d);
    assert (2 * d) * q == 2 * (d * q);
    q
  }

  /** At most one number is the rounding of `n / d`. */
  lemma RoundedUnique(n: nat, d: nat, r1: nat, r2: nat)
    requires IsRounded(n, d, r1) && IsRounded(n, d, r2)
    ensures r1 == r2
  {
    if r1 < r2 {
      assert d * (r1 + 1) == d * r1 + d;
      MulMono(d, r1 + 1, r2);
    } else if r2 < r1 {
      assert d * (r2 + 1) == d * r2 + d;
      MulMono(d, r2 + 1, r1);
    }
  }

  /** `Math.max(1, Math.round(words / 150))`: never below one minute. */
  function DurationMinutes(words: nat): (m: nat)
    ensures m >= 1
    ensures words >= 75 ==> IsRounded(words, WordsPerMinute, m)
    ensures words < 75 ==> m == 1
  {
    var r := RoundDiv(words, WordsPerMinute);
    if r >= 1 then r else 1
  }

  /** A rounded quotient of at most `m` wholes is at most `m`. */
  lemma RoundedAtMost(n: nat, d: nat, r: nat, m: nat)
    requires IsRounded(n, d, r) && n <= d * m
    ensures r <= m
  {
    if r > m {
      assert d * (m + 1) == d * m + d;
      MulMono(d, m + 1, r);
    }
  }

  /** `Math.round(part / whole * 100)`, taken exactly. */
  function Percent(part: nat, whole: nat): (p: nat)
    requires whole > 0 && part <= whole
    ensures p <= 100
    ensures IsRounded(100 * part, whole, p)
  {
    var p := RoundDiv(100 * part, whole);
    RoundedAtMost(100 * part, whole, p, 100);
    p
  }

  /**
   * The two percentages of a whole split in two add up to 100, or to 101 when both fall
   * exactly on a half.
   */
  lemma PercentagesSum(prose: nat, code: nat)
    requires prose + code > 0
    ensures 100 <= Percent(prose, prose + code) + Percent(code, prose + code) <= 101
  {
    var w := prose + code;
    var p, c := Percent(prose, w), Percent(code, w);
    assert w * (p + c) == w * p + w * c;
    if p + c > 101 {
      MulMono(w, 102, p + c);
    }
    if p + c < 100 {
      MulMono(w, p + c, 99);
    }
  }

  /** One word in eight: 12.5% and 87.5% both round up. */
  lemma PercentagesOnHalves()
    ensures Percent(1, 8) == 13 && Percent(7, 8) == 88
  {
  }

  // ---------------------------------------------------------------------------
  // the analyses

  /** The speaker list of `analyzeChat`: roles in order of first appearance, `""` read as `User`. */
  function SpeakerOf(m: ChatMessage): string {
    if m.role == "" then "User" else m.role
  }

  function Speakers(ms: seq<ChatMessage>): (r: seq<string>)
    ensures NoDup(r)
    ensures forall k :: 0 <= k < |ms| ==> SpeakerOf(ms[k]) in r
    ensures forall s :: s in r ==> exists k :: 0 <= k < |ms| && SpeakerOf(ms[k]) == s
  {
    var roles := seq(|ms|, k requires 0 <= k < |ms| => SpeakerOf(ms[k]));
    var r := Distinct(roles);
    forall k | 0 <= k < |ms| ensures SpeakerOf(ms[k]) in r {
      assert roles[k] in roles;
    }
    forall s | s in r ensures exists k :: 0 <= k < |ms| && SpeakerOf(ms[k]) == s {
      var k :| 0 <= k < |roles| && roles[k] == s;
    }
    r
  }

  /** The prose-to-code ratio text of `analyzeChat`. */
  function RatioText(t: Tally): (s: string)
    requires t.codeWords <= t.words
  {
    if t.words > 0 && t.codeWords > 0 then
      NatToString(Percent(t.words - t.codeWords, t.words)) + "% prose / "
        + NatToString(Percent(t.codeWords, t.words)) + "% code"
    else "100% prose / 0% code"
  }

  /** `analyzeChat(messages)`. */
  function AnalyzeChat(ms: seq<ChatMessage>): (a: AnalysisResult)
    ensures a.messageCount == |ms|
    ensures a.codeBlockCount <= a.messageCount
    ensures a.estimatedDurationMinutes >= 1
    ensures NoDup(a.speakers) && |a.speakers| <= |ms|
  {
    var t := Count(ms);
    AnalysisResult(
      Speakers(ms), |ms|, t.words, DurationMinutes(t.words - t.codeWords), t.codeBlocks, RatioText(t))
  }

  /** Without code words the ratio is the fixed all-prose text. */
  lemma RatioWithoutCode(ms: seq<ChatMessage>)
    requires forall k :: 0 <= k < |ms| ==> !ms[k].isCodeBlock
    ensures AnalyzeChat(ms).proseToCodeRatio == "100% prose / 0% code"
    ensures AnalyzeChat(ms).codeBlockCount == 0
    ensures AnalyzeChat(ms).estimatedDurationMinutes == DurationMinutes(AnalyzeChat(ms).wordCount)
  {
    CountNoCode(ms);
  }

  /** Analysing two chats one after the other adds their counts. */
  lemma AnalyzeAppend(a: seq<ChatMessage>, b: seq<ChatMessage>)
    ensures AnalyzeChat(a + b).wordCount == AnalyzeChat(a).wordCount + AnalyzeChat(b).wordCount
    ensures AnalyzeChat(a + b).codeBlockCount == AnalyzeChat(a).codeBlockCount + AnalyzeChat(b).codeBlockCount
  {
    CountAppend(a, b);
  }

  /** A script section as `analyzeScript` reads it; a section without text has `None`. */
  datatype Section = Section(speaker: string, text: Option<string>)

  function SectionWords(s: Section): nat {
    match s.text
    case None => 0
    case Some(t) => |Words(t)|
  }

  function SectionsWords(ss: seq<Section>): nat {
    if |ss| == 0 then 0 else SectionWords(ss[0]) + SectionsWords(ss[1..])
  }

  function Narrator(s: Section): string {
    if s.speaker == "" then "Narrator" else s.speaker
  }

  /** `x` is the speaker of some section, with `Narrator` standing in for an empty one. */
  ghost predicate SpeaksIn(ss: seq<Section>, x: string) {
    exists k :: 0 <= k < |ss| && x == Narrator(ss[k])
  }

  /** `analyzeScript(script)`, given the script's `sections` (absent as `None`). */
  function AnalyzeScript(sections: Option<seq<Section>>): (a: AnalysisResult)
    ensures a.codeBlockCount == 0 && a.proseToCodeRatio == "N/A"
    ensures a.estimatedDurationMinutes >= 1
    ensures sections.None? ==> a == AnalysisResult([], 0, 0, 1, 0, "N/A")
    ensures var ss := sections.GetOr([]);
      && a.messageCount == |ss|
      && a.wordCount == SectionsWords(ss)
      && NoDup(a.speakers)
      && (forall x :: x in a.speakers <==> SpeaksIn(ss, x))
      && (|ss| == 0 ==> a == AnalysisResult([], 0, 0, 1, 0, "N/A"))
  {
    var ss := if sections.Some? then sections.value else [];
    var w := SectionsWords(ss);
    var names := seq(|ss|, k requires 0 <= k < |ss| => Narrator(ss[k]));
    assert forall x :: x in names <==> SpeaksIn(ss, x) by {
      forall x | x in names ensures SpeaksIn(ss, x) {
        var k :| 0 <= k < |names| && names[k] == x;
      }
      forall x | SpeaksIn(ss, x) ensures x in names {
        var k :| 0 <= k < |ss| && x == Narrator(ss[k]);
        assert names[k] == x;
      }
    }
    AnalysisResult(
      Distinct(names),
      |ss|, w, DurationMinutes(w), 0, "N/A")
  }

  lemma {:induction false} SectionsWordsAppend(a: seq<Section>, b: seq<Section>)
    ensures SectionsWords(a + b) == SectionsWords(a) + SectionsWords(b)
    decreases |a|
  {
    if |a| == 0 {
      assert a + b == b;
    } else {
      assert (a + b)[1..] == a[1..] + b;
      SectionsWordsAppend(a[1..], b);
    }
  }

  /**
   * Analysing two runs of sections joined: the sections and words add up, and the speakers are
   * those of either run.
   */
  lemma AnalyzeScriptAppend(a: seq<Section>, b: seq<Section>)
    ensures var r, ra, rb := AnalyzeScript(Some(a + b)), AnalyzeScript(Some(a)), AnalyzeScript(Some(b));
      && r.messageCount == ra.messageCount + rb.messageCount
      && r.wordCount == ra.wordCount + rb.wordCount
      && forall x :: x in r.speakers <==> x in ra.speakers || x in rb.speakers
  {
    SectionsWordsAppend(a, b);
    forall x ensures SpeaksIn(a + b, x) <==> SpeaksIn(a, x) || SpeaksIn(b, x) {
      SpeaksInAppend(a, b, x);
    }
  }

  lemma SpeaksInAppend(a: seq<Section>, b: seq<Section>, x: string)
    ensures SpeaksIn(a + b, x) <==> SpeaksIn(a, x) || SpeaksIn(b, x)
  {
    if SpeaksIn(a + b, x) {
      var k :| 0 <= k < |a + b| && x == Narrator((a + b)[k]);
      if k < |a| {
        assert a[k] == (a + b)[k];
      } else {
        assert b[k - |a|] == (a + b)[k];
      }
    }
    if SpeaksIn(a, x) {
      var k :| 0 <= k < |a| && x == Narrator(a[k]);
      assert (a + b)[k] == a[k];
    }
    if SpeaksIn(b, x) {
      var k :| 0 <= k < |b| && x == Narrator(b[k]);
      assert (a + b)[|a| + k] == b[k];
    }
  }
}
