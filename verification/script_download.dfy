/**
 * The plain-text download of a generated script (`formatScriptForDownload` in the script preview)
 * and the name of the downloaded file.
 */
module ScriptDownload {
  import opened Outcomes
  import opened JsText
  import opened Script

  /** The text before the segments: title, hook and the script marker. */
  function Preamble(title: string, hook: string): string {
    "Title: " + title + "\n\n" + "HOOK:\n" + hook + "\n\n" + "--- SCRIPT ---\n\n"
  }

  /** `if (segment.sfx)`: a sound-effect note that is present and not empty. */
  predicate HasSfx(seg: Segment) {
    seg.sfx.Some? && seg.sfx.value != ""
  }

  /** The block of one segment: the upper-cased speaker, the line, the note if any, a blank line. */
  function SegmentBlock(seg: Segment): (b: string)
    ensures StartsWith(b, ToUpper(seg.speaker) + ":\n" + seg.line + "\n")
    ensures EndsWith(b, "\n\n")
    ensures !HasSfx(seg) ==> b == ToUpper(seg.speaker) + ":\n" + seg.line + "\n\n"
  {
    var head := ToUpper(seg.speaker) + ":\n" + seg.line + "\n";
    var note := if HasSfx(seg) then "[SFX: " + seg.sfx.value + "]\n" else "";
    var b := head + note + "\n";
    assert b[..|head|] == head;
    assert b[|b| - 2..] == "\n\n" by {
      if HasSfx(seg) {
        assert b[|b| - 2..] == note[|note| - 1..] + "\n";
      } else {
        assert b[|b| - 2..] == head[|head| - 1..] + "\n";
      }
    }
    b
  }

  /** The blocks of the segments, one after the other. */
  function Blocks(segs: seq<Segment>): string
    decreases |segs|
  {
    if |segs| == 0 then "" else Blocks(segs[..|segs| - 1]) + SegmentBlock(segs[|segs| - 1])
  }

  /** `formatScriptForDownload()`. */
  function FormatScript(script: GeneratedScript): (text: string)
    ensures StartsWith(text, Preamble(script.title, script.hook))
  {
    var p := Preamble(script.title, script.hook);
    var text := p + Blocks(script.segments);
    assert text[..|p|] == p;
    text
  }

  lemma {:induction false} BlocksAppend(a: seq<Segment>, b: seq<Segment>)
    ensures Blocks(a + b) == Blocks(a) + Blocks(b)
    decreases |b|
  {
    if |b| == 0 {
      assert a + b == a;
    } else {
      var b0 := b[..|b| - 1];
      var last := SegmentBlock(b[|b| - 1]);
      assert (a + b)[..|a + b| - 1] == a + b0;
      assert (a + b)[|a + b| - 1] == b[|b| - 1];
      assert Blocks(a + b) == Blocks(a + b0) + last;
      BlocksAppend(a, b0);
      assert Blocks(b) == Blocks(b0) + last;
      AppendAssoc(Blocks(a), Blocks(b0), last);
    }
  }

  /** The download follows the segment order: more segments only add blocks at the end. */
  lemma SegmentsInOrder(script: GeneratedScript, more: seq<Segment>)
    ensures FormatScript(script.(segments := script.segments + more)) == FormatScript(script) + Blocks(more)
  {
    BlocksAppend(script.segments, more);
  }

  /** The download prints the original line: a user's edit never shows in it. */
  lemma EditsNotDownloaded(seg: Segment, edit: Option<string>)
    ensures SegmentBlock(seg.(editedLine := edit)) == SegmentBlock(seg)
  {
  }

  /** The loop of `formatScriptForDownload`, appending each segment's lines. */
  method FormatScriptLoop(script: GeneratedScript) returns (text: string)
    ensures text == FormatScript(script)
  {
    text := "Title: " + script.title + "\n\n";
    text := text + "HOOK:\n" + script.hook + "\n\n";
    text := text + "--- SCRIPT ---\n\n";
    var p := text;
    var segs := script.segments;
    assert p + Blocks(segs[..0]) == p by {
      assert segs[..0] == [];
    }
    var i := 0;
    while i < |segs|
      invariant 0 <= i <= |segs|
      invariant text == p + Blocks(segs[..i])
    {
      var seg := segs[i];
      var block := ToUpper(seg.speaker) + ":\n";
      block := block + seg.line + "\n";
      if seg.sfx.Some? && seg.sfx.value != "" {
        block := block + "[SFX: " + seg.sfx.value + "]\n";
      }
      block := block + "\n";
      assert block == SegmentBlock(seg);
      assert segs[..i + 1][..i] == segs[..i];
      AppendAssoc(p, Blocks(segs[..i]), block);
      text := text + block;
      i := i + 1;
    }
    assert segs[..i] == segs;
  }

  // ---------------------------------------------------------------------------
  // the file name

  /** `s.replace(/\s+/g, '_')`, scanning with a flag that says a run of white space is open. */
  function CollapseFrom(s: string, inRun: bool): (r: string)
    ensures HasNoSpace(r)
    ensures |r| <= |s|
    decreases |s|
  {
    if |s| == 0 then ""
    else if IsSpace(s[0]) then (if inRun then "" else "_") + CollapseFrom(s[1..], true)
    else [s[0]] + CollapseFrom(s[1..], false)
  }

  function Collapse(s: string): (r: string)
    ensures HasNoSpace(r)
  {
    CollapseFrom(s, false)
  }

  /** A text without white space is left alone. */
  lemma {:induction false} CollapseSolid(s: string, inRun: bool)
    requires HasNoSpace(s)
    ensures CollapseFrom(s, inRun) == s
    decreases |s|
  {
    if |s| > 0 {
      CollapseSolid(s[1..], false);
    }
  }

  /** Collapsing twice is collapsing once. */
  lemma CollapseIdempotent(s: string)
    ensures Collapse(Collapse(s)) == Collapse(s)
  {
    CollapseSolid(Collapse(s), false);
  }

  /** A run of white space before a word becomes one `_`, however long the run. */
  lemma {:induction false} CollapseRun(sp: string, rest: string, inRun: bool)
    requires |sp| > 0 && IsBlank(sp)
    requires |rest| > 0 ==> !IsSpace(rest[0])
    ensures CollapseFrom(sp + rest, inRun) == (if inRun then "" else "_") + CollapseFrom(rest, false)
    decreases |sp|
  {
    assert (sp + rest)[1..] == sp[1..] + rest;
    if |sp| == 1 {
      assert sp[1..] + rest == rest;
      if |rest| > 0 {
        assert CollapseFrom(rest, true) == CollapseFrom(rest, false);
      }
    } else {
      CollapseRun(sp[1..], rest, true);
    }
  }

  /** A word in front is kept as it is. */
  lemma {:induction false} CollapseWord(w: string, rest: string)
    requires HasNoSpace(w)
    ensures CollapseFrom(w + rest, false) == w + CollapseFrom(rest, false)
    decreases |w|
  {
    if |w| > 0 {
      assert (w + rest)[1..] == w[1..] + rest;
      CollapseWord(w[1..], rest);
      assert w == [w[0]] + w[1..];
    } else {
      assert w + rest == rest;
    }
  }

  /**
   * On a text with no white space at either end, collapsing the runs is joining the words with
   * `_`.
   */
  lemma {:induction false} CollapseWords(s: string)
    requires |s| > 0 && !IsSpace(s[0]) && !IsSpace(s[|s| - 1])
    ensures Collapse(s) == Join(Words(s), "_")
    decreases |s|
  {
    var n := TokenLength(s);
    var w := s[..n];
    var u := s[n..];
    assert Words(s) == [w] + Words(u) by {
      TrimStartBlankPrefix([], s);
      assert [] + s == s;
    }
    if n == |s| {
      assert u == [];
      CollapseSolid(s, false);
    } else {
      var sp, t := Gap(s, n);
      CollapseWords(t);
      assert s == w + (sp + t);
      CollapseWord(w, sp + t);
      CollapseRun(sp, t, false);
    }
  }

  /** The white space at `n` in `s`, and the text after it, which holds a word. */
  lemma Gap(s: string, n: nat) returns (sp: string, t: string)
    requires |s| > 0 && !IsSpace(s[|s| - 1])
    requires n < |s| && IsSpace(s[n])
    ensures s[n..] == sp + t
    ensures |sp| > 0 && IsBlank(sp)
    ensures |t| > 0 && !IsSpace(t[0]) && !IsSpace(t[|t| - 1]) && |t| < |s|
    ensures Words(s[n..]) == Words(t) && Words(t) != []
  {
    var u := s[n..];
    t := TrimStart(u);
    TrimStartShape(u);
    sp := u[..|u| - |t|];
    assert u == sp + t;
    assert t[|t| - 1] == s[|s| - 1];
    WordsSkipSpace(u);
    WordsOfWord(t);
  }

  lemma WordsSkipSpace(u: string)
    ensures Words(u) == Words(TrimStart(u))
  {
    var t := TrimStart(u);
    TrimStartBlankPrefix([], t);
    assert [] + t == t;
  }

  lemma WordsOfWord(t: string)
    requires |t| > 0 && !IsSpace(t[0])
    ensures Words(t) != []
  {
    TrimStartBlankPrefix([], t);
    assert [] + t == t;
  }

  /** The name of the downloaded file: the lower-cased title, white-space runs made `_`. */
  function DownloadFilename(title: string): (name: string)
    ensures EndsWith(name, "_script.txt")
    ensures HasNoSpace(name[..|name| - 11])
  {
    var base := Collapse(ToLower(title));
    var name := base + "_script.txt";
    assert name[..|name| - 11] == base;
    assert name[|name| - 11..] == "_script.txt";
    name
  }

  /** For a title with no white space at either end, the file name joins its lower-cased words with `_`. */
  lemma FilenameFromWords(title: string)
    requires |title| > 0 && !IsSpace(title[0]) && !IsSpace(title[|title| - 1])
    ensures DownloadFilename(title) == Join(Words(ToLower(title)), "_") + "_script.txt"
  {
    CollapseWords(ToLower(title));
  }
}
