/**
 * The subtitle part of `exportProject`: `formatVttTimestamp` and `generateVttSubtitles`, and the
 * files and file name of the export package.
 *
 * Cue times are whole milliseconds. A cue lasts `max(1, words / 2.5)` seconds, which is
 * `max(1000, 400 * words)` milliseconds exactly, and the gap between cues is 500 ms. The written
 * formatter on times in seconds, which double addition leaves just off whole milliseconds, is
 * `FormatSecondsAsWritten`; it can print a millisecond field of 1000.
 *
 * A timestamp has the shape WebVTT gives it (section 4.1 of the W3C WebVTT specification):
 * hours of at least two digits, two-digit minutes and seconds below 60, three-digit milliseconds.
 */
module Subtitles {
  import opened Outcomes
  import opened Numerals
  import opened JsText
  import opened Script

  // ---------------------------------------------------------------------------
  // timestamps

  /** The hour, minute, second and millisecond fields of a time. */
  datatype Clock = Clock(hours: nat, minutes: nat, seconds: nat, millis: nat)

  function ClockOf(ms: nat): (c: Clock)
    ensures c.minutes < 60 && c.seconds < 60 && c.millis < 1000
    ensures ((c.hours * 60 + c.minutes) * 60 + c.seconds) * 1000 + c.millis == ms
    ensures c.hours == ms / 3600000
  {
    var secs := ms / 1000;
    var mins := secs / 60;
    Clock(mins / 60, mins % 60, secs % 60, ms % 1000)
  }

  /** `formatVttTimestamp(seconds)` for a time of `ms` milliseconds: `hh:mm:ss.mmm`. */
  function FormatTimestamp(ms: nat): (t: string)
    ensures |t| >= 12
  {
    var c := ClockOf(ms);
    Padded(c.hours, 2) + ":" + Padded(c.minutes, 2) + ":" + Padded(c.seconds, 2) + "." + Padded(c.millis, 3)
  }

  /** A WebVTT timestamp with hours: the time it denotes, or nothing when the text is not one. */
  function ParseTimestamp(t: string): (r: Option<nat>)
  {
    var n := |t|;
    if n < 12 || t[n - 10] != ':' || t[n - 7] != ':' || t[n - 4] != '.' then None
    else FieldsValue(t[..n - 10], t[n - 9..n - 7], t[n - 6..n - 4], t[n - 3..])
  }

  /** The time the hour, minute, second and millisecond fields spell, when they are numerals in range. */
  function FieldsValue(h: string, m: string, s: string, f: string): (r: Option<nat>)
  {
    if !(AllDigits(h) && AllDigits(m) && AllDigits(s) && AllDigits(f)) then None
    else if DigitsValue(m) >= 60 || DigitsValue(s) >= 60 then None
    else Some(((DigitsValue(h) * 60 + DigitsValue(m)) * 60 + DigitsValue(s)) * 1000 + DigitsValue(f))
  }

  /** The fields of a timestamp joined by its separators are read back field by field. */
  lemma ParseJoined(h: string, m: string, s: string, f: string)
    requires |h| >= 2 && |m| == 2 && |s| == 2 && |f| == 3
    ensures ParseTimestamp(h + ":" + m + ":" + s + "." + f) == FieldsValue(h, m, s, f)
  {
    var t := h + ":" + m + ":" + s + "." + f;
    var n := |t|;
    assert n == |h| + 10;
    assert t[..n - 10] == h;
    assert t[n - 9..n - 7] == m;
    assert t[n - 6..n - 4] == s;
    assert t[n - 3..] == f;
  }

  /** Reading back a formatted timestamp gives the time it was made from. */
  lemma TimestampRoundTrip(ms: nat)
    ensures ParseTimestamp(FormatTimestamp(ms)) == Some(ms)
  {
    var c := ClockOf(ms);
    var h, m, s, f := Padded(c.hours, 2), Padded(c.minutes, 2), Padded(c.seconds, 2), Padded(c.millis, 3);
    ParseJoined(h, m, s, f);
    assert FieldsValue(h, m, s, f) == Some(ms);
  }

  /** Two different times never print alike. */
  lemma TimestampInjective(a: nat, b: nat)
    ensures a != b ==> FormatTimestamp(a) != FormatTimestamp(b)
  {
    TimestampRoundTrip(a);
    TimestampRoundTrip(b);
  }

  // ---------------------------------------------------------------------------
  // timestamps from seconds

  /** `Math.round(x)`: the nearest integer, halves rounded up. */
  function RoundReal(x: real): (n: int)
    ensures n as real - 0.5 <= x < n as real + 0.5
  {
    (x + 0.5).Floor
  }

  /**
   * The fields `formatVttTimestamp` computes from a time in seconds, as written: hours, minutes and
   * seconds are cut down from the seconds, and the milliseconds are the fraction, rounded on its
   * own. A fraction of 0.9995 or more rounds to 1000.
   */
  function FieldsAsWritten(t: real): (c: Clock)
    requires t >= 0.0
    ensures c.minutes < 60 && c.seconds < 60 && c.millis <= 1000
    ensures c.millis == 1000 <==> t - t.Floor as real >= 0.9995
  {
    var h := (t / 3600.0).Floor;
    var m := ((t - 3600.0 * h as real) / 60.0).Floor;
    var s := (t - 60.0 * (t / 60.0).Floor as real).Floor;
    var ms := RoundReal((t - t.Floor as real) * 1000.0);
    Clock(h, m, s, ms)
  }

  /** `formatVttTimestamp(seconds)` as written. */
  function FormatSecondsAsWritten(t: real): (r: string)
    requires t >= 0.0
    ensures t - t.Floor as real < 0.9995 ==> |r| >= 12 && r[|r| - 4] == '.'
  {
    var c := FieldsAsWritten(t);
    Padded(c.hours, 2) + ":" + Padded(c.minutes, 2) + ":" + Padded(c.seconds, 2) + "." + Padded(c.millis, 3)
  }

  /** The whole milliseconds nearest a time in seconds, halves rounded up. */
  function RoundMs(t: real): (ms: nat)
    requires t >= 0.0
    ensures ms as real - 0.5 <= t * 1000.0 < ms as real + 0.5
  {
    RoundReal(t * 1000.0)
  }

  /**
   * A time in seconds as a timestamp, rounded to whole milliseconds before it is cut into fields:
   * the text always reads back as the rounded time.
   */
  function FormatSeconds(t: real): (r: string)
    requires t >= 0.0
    ensures ParseTimestamp(r) == Some(RoundMs(t))
    ensures |r| >= 12 && r[|r| - 4] == '.'
  {
    TimestampRoundTrip(RoundMs(t));
    FormatTimestamp(RoundMs(t))
  }

  /** On a time of whole milliseconds the corrected formatter is the one the cues are printed with. */
  lemma WholeMsFormat(ms: nat)
    ensures FormatSeconds(ms as real / 1000.0) == FormatTimestamp(ms)
  {
    assert RoundMs(ms as real / 1000.0) == ms;
  }

  /** Dividing a time by a whole number of seconds and cutting it down is dividing its whole seconds. */
  lemma FloorDiv(t: real, k: nat)
    requires t >= 0.0 && k > 0
    ensures (t / k as real).Floor == t.Floor / k
  {
    var f := t.Floor;
    var q := f / k;
    assert q as real * k as real <= f as real;
    assert f as real + 1.0 <= (q + 1) as real * k as real;
    assert q as real <= t / k as real < (q + 1) as real;
  }

  /** Taking whole seconds off a time takes them off its floor. */
  lemma FloorShift(t: real, n: int)
    ensures (t - n as real).Floor == t.Floor - n
  {
  }

  /** Below the overflow, the rounded milliseconds are the whole seconds and the rounded fraction. */
  lemma RoundMsSplit(t: real)
    requires t >= 0.0 && t - t.Floor as real < 0.9995
    ensures RoundMs(t) == 1000 * t.Floor + FieldsAsWritten(t).millis
  {
    var f := t.Floor;
    var x := (t - f as real) * 1000.0;
    assert t * 1000.0 + 0.5 == (1000 * f) as real + (x + 0.5);
    FloorShift(x + 0.5, -1000 * f);
    assert (x + 0.5) - (-1000 * f) as real == t * 1000.0 + 0.5;
  }

  /** The whole-second fields of a time, cut from its floor. */
  lemma WholeFields(t: real)
    requires t >= 0.0
    ensures var f, c := t.Floor, FieldsAsWritten(t);
      c.hours == f / 3600 && c.minutes == (f / 60) % 60 && c.seconds == f % 60
  {
    var f := t.Floor;
    FloorDiv(t, 3600);
    FloorDiv(t, 60);
    var h := f / 3600;
    FloorShift(t, 3600 * h);
    FloorDiv(t - (3600 * h) as real, 60);
    assert (f - 3600 * h) / 60 == (f / 60) % 60 by {
      DivDiv(f);
    }
    FloorShift(t, 60 * (f / 60));
  }

  lemma DivDiv(f: int)
    requires f >= 0
    ensures (f - 3600 * (f / 3600)) / 60 == (f / 60) % 60
    ensures f / 3600 == (f / 60) / 60
  {
  }

  /**
   * Below a fraction of 0.9995 the written formatter cuts the time into the same fields as the
   * corrected one.
   */
  lemma AsWrittenAgreesBelowOverflow(t: real)
    requires t >= 0.0 && t - t.Floor as real < 0.9995
    ensures FieldsAsWritten(t) == ClockOf(RoundMs(t))
    ensures FormatSecondsAsWritten(t) == FormatSeconds(t)
  {
    var f := t.Floor;
    RoundMsSplit(t);
    WholeFields(t);
    DivDiv(f);
    var ms := RoundMs(t);
    var r := FieldsAsWritten(t).millis;
    assert ms / 1000 == f && ms % 1000 == r;
  }

  /**
   * The end of the third cue for segments of 7, 14 and 4 words, as the double additions of the
   * export give it: the written formatter prints ten seconds and a four-digit millisecond field.
   */
  lemma MillisOverflow()
    ensures FieldsAsWritten(10.999999999999998) == Clock(0, 0, 10, 1000)
    ensures FormatSecondsAsWritten(10.999999999999998) == "00:00:10.1000"
    ensures FormatSeconds(10.999999999999998) == "00:00:11.000"
  {
    OverflowFields();
    OverflowRounded();
    SmallNumerals();
  }

  lemma OverflowFields()
    ensures FieldsAsWritten(10.999999999999998) == Clock(0, 0, 10, 1000)
  {
    var t := 10.999999999999998;
    assert t.Floor == 10;
    assert (t / 3600.0).Floor == 0;
    assert (t / 60.0).Floor == 0;
    assert ((t - 0.0) / 60.0).Floor == 0;
    assert (t - 0.0).Floor == 10;
    assert RoundReal((t - 10.0) * 1000.0) == 1000;
  }

  lemma OverflowRounded()
    ensures RoundMs(10.999999999999998) == 11000
    ensures ClockOf(11000) == Clock(0, 0, 11, 0)
  {
  }

  /** The padded numerals the timestamps above are made of. */
  lemma SmallNumerals()
    ensures Padded(0, 2) == "00" && Padded(0, 3) == "000"
    ensures Padded(10, 2) == "10" && Padded(11, 2) == "11" && Padded(1000, 3) == "1000"
  {
    assert NatToString(0) == "0" && NatToString(1) == "1";
    assert NatToString(10) == "10" && NatToString(11) == "11";
    assert NatToString(100) == "100";
    assert NatToString(1000) == "1000";
    assert Zeros(1) == "0" && Zeros(2) == "00";
  }

  // ---------------------------------------------------------------------------
  // cues

  /** A cue: its number, its start and end in milliseconds, and its text. */
  datatype Cue = Cue(number: nat, start: nat, end: nat, text: string)

  const GapMs := 500

  /** `max(1, words / 2.5)` seconds, in milliseconds. */
  function DurationMs(text: string): (d: nat)
    ensures d >= 1000
    ensures 2 * WordCount(text) >= 5 ==> d == 400 * WordCount(text)
  {
    if 400 * WordCount(text) > 1000 then 400 * WordCount(text) else 1000
  }

  /** `speaker: text` with the spoken text of the segment. */
  function CueText(seg: Segment): string {
    seg.speaker + ": " + SpokenText(seg)
  }

  /** The cues of `segs`, the first numbered `number` and starting at `start`. */
  function CuesFrom(segs: seq<Segment>, number: nat, start: nat): (cues: seq<Cue>)
    ensures |cues| == |segs|
    decreases |segs|
  {
    if |segs| == 0 then []
    else
      var end := start + DurationMs(SpokenText(segs[0]));
      [Cue(number, start, end, CueText(segs[0]))] + CuesFrom(segs[1..], number + 1, end + GapMs)
  }

  function Cues(segs: seq<Segment>): seq<Cue> {
    CuesFrom(segs, 1, 0)
  }

  /** The timing rules every cue list obeys: numbered on, at least a second long, half a second apart. */
  predicate WellTimed(cues: seq<Cue>, number: nat, start: nat) {
    && (|cues| > 0 ==> cues[0].number == number && cues[0].start == start)
    && (forall k :: 0 <= k < |cues| ==> cues[k].end >= cues[k].start + 1000)
    && (forall k :: 0 <= k < |cues| ==> cues[k].number == number + k)
    && (forall k :: 0 <= k < |cues| - 1 ==> cues[k + 1].start == cues[k].end + GapMs)
  }

  lemma {:induction false} CuesWellTimed(segs: seq<Segment>, number: nat, start: nat)
    ensures WellTimed(CuesFrom(segs, number, start), number, start)
    ensures forall k :: 0 <= k < |segs| ==> CuesFrom(segs, number, start)[k].text == CueText(segs[k])
    ensures forall k :: 0 <= k < |segs| ==>
      CuesFrom(segs, number, start)[k].end - CuesFrom(segs, number, start)[k].start == DurationMs(SpokenText(segs[k]))
    decreases |segs|
  {
    if |segs| > 0 {
      var end := start + DurationMs(SpokenText(segs[0]));
      CuesWellTimed(segs[1..], number + 1, end + GapMs);
      var cues := CuesFrom(segs, number, start);
      var rest := CuesFrom(segs[1..], number + 1, end + GapMs);
      assert cues == [Cue(number, start, end, CueText(segs[0]))] + rest;
      assert forall k :: 1 <= k < |cues| ==> cues[k] == rest[k - 1] && segs[k] == segs[1..][k - 1];
    }
  }

  /** Cues never overlap: each one ends before the next begins. */
  lemma CuesDisjoint(segs: seq<Segment>, i: nat, j: nat)
    requires i < j < |segs|
    ensures Cues(segs)[i].end < Cues(segs)[j].start
    decreases j - i
  {
    CuesWellTimed(segs, 1, 0);
    if j > i + 1 {
      CuesDisjoint(segs, i + 1, j);
    }
  }

  /** The lines of one cue block. */
  function RenderCue(c: Cue): string {
    NatToString(c.number) + "\n" + FormatTimestamp(c.start) + " --> " + FormatTimestamp(c.end) + "\n"
      + c.text + "\n\n"
  }

  /** The cue blocks of `cues`, one after the other. */
  function RenderCues(cues: seq<Cue>): string
    decreases |cues|
  {
    if |cues| == 0 then "" else RenderCues(cues[..|cues| - 1]) + RenderCue(cues[|cues| - 1])
  }

  const VttHeader := "WEBVTT\n\n"

  /** `generateVttSubtitles(segments)`. */
  function GenerateVtt(segs: seq<Segment>): (vtt: string)
    ensures StartsWith(vtt, VttHeader)
  {
    var vtt := VttHeader + RenderCues(Cues(segs));
    assert vtt[..|VttHeader|] == VttHeader;
    vtt
  }

  lemma RenderCuesAppend(a: seq<Cue>, c: Cue)
    ensures RenderCues(a + [c]) == RenderCues(a) + RenderCue(c)
  {
    assert (a + [c])[..|a|] == a;
  }

  /** One more segment adds its cue block to the text. */
  lemma VttStep(segs: seq<Segment>, n: nat)
    requires n < |segs|
    ensures VttHeader + RenderCues(Cues(segs[..n])) + RenderCue(Cues(segs)[n])
      == VttHeader + RenderCues(Cues(segs[..n + 1]))
  {
    CuesFromAppend(segs, n);
    RenderCuesAppend(Cues(segs[..n]), Cues(segs)[n]);
    AppendAssoc(VttHeader, RenderCues(Cues(segs[..n])), RenderCue(Cues(segs)[n]));
  }

  lemma CuesFromAppend(segs: seq<Segment>, n: nat)
    requires n < |segs|
    ensures var c := Cues(segs);
      Cues(segs[..n + 1]) == Cues(segs[..n]) + [c[n]]
  {
    CuesPrefix(segs, segs[..n + 1], 1, 0);
    CuesPrefix(segs, segs[..n], 1, 0);
    CuesPrefix(segs[..n + 1], segs[..n], 1, 0);
    var p := Cues(segs[..n + 1]);
    assert p == p[..n] + [p[n]];
  }

  /** Cues depend only on the segments before them: a prefix of the segments gives a prefix of the cues. */
  lemma {:induction false} CuesPrefix(segs: seq<Segment>, pre: seq<Segment>, number: nat, start: nat)
    requires |pre| <= |segs| && segs[..|pre|] == pre
    ensures CuesFrom(pre, number, start) == CuesFrom(segs, number, start)[..|pre|]
    decreases |pre|
  {
    if |pre| > 0 {
      assert segs[0] == pre[0];
      var end := start + DurationMs(SpokenText(segs[0]));
      assert segs[1..][..|pre| - 1] == pre[1..];
      CuesPrefix(segs[1..], pre[1..], number + 1, end + GapMs);
    }
  }

  /** The cue of segment `k` starts where the clock stands, and the next one starts after the gap. */
  lemma CueAt(segs: seq<Segment>, k: nat, current: nat)
    requires k < |segs| && current == Cues(segs)[k].start
    ensures Cues(segs)[k] == Cue(k + 1, current, current + DurationMs(SpokenText(segs[k])), CueText(segs[k]))
    ensures k + 1 < |segs| ==> Cues(segs)[k + 1].start == current + DurationMs(SpokenText(segs[k])) + GapMs
  {
    CuesWellTimed(segs, 1, 0);
  }

  /** One pass of the loop: the cue block of segment `index`, and the clock moved past it and the gap. */
  method AppendCue(segs: seq<Segment>, index: nat, current: nat) returns (block: string, next: nat)
    requires index < |segs| && current == Cues(segs)[index].start
    ensures VttHeader + RenderCues(Cues(segs[..index])) + block == VttHeader + RenderCues(Cues(segs[..index + 1]))
    ensures index + 1 < |segs| ==> next == Cues(segs)[index + 1].start
  {
    var text := SpokenText(segs[index]);
    var end := current + DurationMs(text);
    var cue := Cue(index + 1, current, end, segs[index].speaker + ": " + text);
    CueAt(segs, index, current);
    assert cue == Cues(segs)[index];
    VttStep(segs, index);
    block := RenderCue(cue);
    next := end + GapMs;
  }

  /** Before any segment the text is the header alone, and the first cue starts at zero. */
  lemma VttStart(segs: seq<Segment>)
    ensures VttHeader == VttHeader + RenderCues(Cues(segs[..0]))
    ensures |segs| > 0 ==> Cues(segs)[0].start == 0
  {
    assert segs[..0] == [];
    assert VttHeader + [] == VttHeader;
  }

  /** The loop of `generateVttSubtitles`, appending one cue block per segment with a running clock. */
  method GenerateVttLoop(segs: seq<Segment>) returns (vtt: string)
    ensures vtt == GenerateVtt(segs)
  {
    vtt := VttHeader;
    var current: nat := 0;
    var index := 0;
    VttStart(segs);
    while index < |segs|
      invariant 0 <= index <= |segs|
      invariant vtt == VttHeader + RenderCues(Cues(segs[..index]))
      invariant index < |segs| ==> current == Cues(segs)[index].start
    {
      var block;
      block, current := AppendCue(segs, index, current);
      vtt := vtt + block;
      index := index + 1;
    }
    assert segs[..index] == segs;
  }

  // ---------------------------------------------------------------------------
  // the export package

  datatype Format = Mp3 | Mp4

  datatype ExportOptions = ExportOptions(format: Format, includeSubtitles: bool, backgroundImage: Option<string>)

  /** The names of the files put into the package, in the order they are added. */
  function PackageFiles(options: ExportOptions): (names: seq<string>)
    ensures "README.txt" in names
    ensures options.includeSubtitles ==> "subtitles.vtt" in names
    ensures options.format == Mp4 && options.backgroundImage.Some? ==> options.backgroundImage.value in names
    ensures forall x :: x in names ==>
      (x == "README.txt" || (x == "subtitles.vtt" && options.includeSubtitles)
       || (options.format == Mp4 && options.backgroundImage == Some(x)))
    ensures options.backgroundImage != Some("README.txt") && options.backgroundImage != Some("subtitles.vtt") ==>
      forall i, j :: 0 <= i < j < |names| ==> names[i] != names[j]
  {
    (if options.includeSubtitles then ["subtitles.vtt"] else [])
      + ["README.txt"]
      + (if options.format == Mp4 && options.backgroundImage.Some? then [options.backgroundImage.value] else [])
  }

  /** Each white-space character replaced by `_`. */
  function Underscored(s: string): (r: string)
    ensures |r| == |s|
    ensures forall i :: 0 <= i < |s| ==> r[i] == if IsSpace(s[i]) then '_' else s[i]
  {
    seq(|s|, i requires 0 <= i < |s| => if IsSpace(s[i]) then '_' else s[i])
  }

  /** The package's file name: the title with white space made `_`, `podcast` when empty. */
  function PackageFilename(title: string): (name: string)
    ensures EndsWith(name, "_render.zip")
    ensures title == "" ==> name == "podcast_render.zip"
    ensures title != "" ==> |name| == |title| + 11 && name[..|title|] == Underscored(title)
    ensures title != "" ==> forall i :: 0 <= i < |title| ==> !IsSpace(name[i])
  {
    var base := if title == "" then "podcast" else Underscored(title);
    var name := base + "_render.zip";
    assert name[..|base|] == base;
    assert name[|name| - 11..] == "_render.zip";
    name
  }
}
